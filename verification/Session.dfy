/** The TTC session: its cursor table in place, the requests that read it, and the dispatcher. */
module Session {
  import opened Basics
  import opened Wire
  import opened Buffer
  import opened Messages
  import opened Responses
  import opened Cursors
  import opened Params
  import opened Blocks
  import opened Execution
  import opened Greetings
  import opened Requests

  /** A buffered result; fetches move pos. */
  class CursorEntry {
    const meta: seq<Column>
    const rows: seq<Row>
    var pos: nat

    constructor (meta: seq<Column>, rows: seq<Row>)
      ensures this.meta == meta && this.rows == rows && pos == 0
    {
      this.meta, this.rows, this.pos := meta, rows, 0;
    }
  }

  class Session {
    var refCursors: map<int, CursorEntry>
    var nextRefId: int
    var database: Database

    ghost predicate Valid()
      reads this, refCursors.Values
    {
      && nextRefId >= 1
      && (forall id :: id in refCursors ==> 1 <= id < nextRefId && refCursors[id].pos <= |refCursors[id].rows|)
      && Distinct(refCursors)
    }

    /** The cursor table as a value. */
    ghost function Abs(): State
      reads this, refCursors.Values
    {
      State(map id | id in refCursors :: Cursor(refCursors[id].meta, refCursors[id].rows, refCursors[id].pos), nextRefId)
    }

    constructor ()
      ensures Valid() && Abs() == INITIAL && refCursors == map[] && database == NoLogin
    {
      refCursors, nextRefId, database := map[], 1, NoLogin;
    }

    lemma ValidInv()
      requires Valid()
      ensures Inv(Abs())
    {
    }

    // -------------------------------------------------------------------
    // Cursors
    // -------------------------------------------------------------------

    /** Moves a live cursor's position past the batch it delivers. */
    method Advance(id: int, asked: int) returns (batch: seq<Row>, done: bool)
      requires Valid() && id in refCursors
      modifies refCursors.Values
      ensures Valid()
      ensures var c := old(Abs()).cursors[id];
        && batch == TakeBatch(c, asked)
        && Abs() == old(Abs()).(cursors := old(Abs()).cursors[id := c.(pos := c.pos + |batch|)])
        && (done <==> c.pos + |batch| >= |c.rows|)
    {
      var entry := refCursors[id];
      ghost var c := Abs().cursors[id];
      batch := Slice(entry.rows, entry.pos, entry.pos + asked);
      entry.pos := entry.pos + |batch|;
      done := entry.pos >= |entry.rows|;
      ghost var moved := old(Abs()).cursors[id := c.(pos := c.pos + |batch|)];
      assert forall k :: k in refCursors ==> Abs().cursors[k] == moved[k];
      assert Abs().cursors == moved;
    }

    /** Delivers a batch as a response, or raises when the response cannot be written. */
    method DeliverBatch(id: int, asked: int, described: bool) returns (r: Bytes)
      requires Valid() && id in refCursors
      modifies refCursors.Values
      ensures Valid()
      ensures id in old(Abs()).cursors && Paged(old(Abs()).cursors[id])
      ensures Abs() == Deliver(old(Abs()), id, asked, described).0
      ensures var reply, meta := Deliver(old(Abs()), id, asked, described).1, old(Abs()).cursors[id].meta;
        r == if reply.Rows? then Written(Encoding(CursorMessages(described, meta, reply.batch, reply.code == END_OF_ROWS, id)))
             else Err(Unexpected)
    {
      hide Encoding, CursorMessages, TakeBatch, VarintFits, DescribeFits, Encodes;
      var entry := refCursors[id];
      var batch, done := Advance(id, asked);
      var response := CursorResponse(described, entry.meta, batch, done, id);
      CursorEncodes(described, entry.meta, batch, done, id);
      r := Written(response);
    }

    /** Serves the buffered rows of a cursor for an execute without SQL text. */
    method ServeCursorRows(id: int, numIters: int) returns (r: Bytes)
      requires Valid()
      modifies refCursors.Values
      ensures Valid() && Inv(old(Abs()))
      ensures Abs() == Step(old(Abs()), Serve(id, numIters)).0
      ensures r == CursorReply(old(Abs()), Serve(id, numIters))
    {
      hide Deliver, Encoding, CursorMessages, AsciiBytes;
      if id !in refCursors {
        return Err(UnknownCursor());
      }
      DeliveredReply(Abs(), Serve(id, numIters));
      r := DeliverBatch(id, if numIters != 0 then numIters else |refCursors[id].rows|, true);
    }

    /** Serves the next rows of a cursor, without describing them. */
    method FetchRows(id: int, arraySize: int) returns (r: Bytes)
      requires Valid()
      modifies refCursors.Values
      ensures Valid() && Inv(old(Abs()))
      ensures Abs() == Step(old(Abs()), Op.Fetch(id, arraySize)).0
      ensures r == CursorReply(old(Abs()), Op.Fetch(id, arraySize))
    {
      hide Deliver, Encoding, CursorMessages, AsciiBytes;
      if id !in refCursors {
        return Err(UnknownCursor());
      }
      DeliveredReply(Abs(), Op.Fetch(id, arraySize));
      r := DeliverBatch(id, arraySize, false);
    }

    /** The fetch request: a cursor id and how many rows. */
    method Fetch(rdr: TTCReader) returns (r: Bytes)
      requires Valid() && rdr.Valid()
      modifies rdr, refCursors.Values
      ensures Valid() && rdr.Valid() && Inv(old(Abs()))
      ensures Abs() == Run(old(Abs()), FetchOps(old(rdr.Rest())))
      ensures match ReadFetch(old(rdr.Rest()))
        case Err(_) => r == Err(Unexpected)
        case Ok(((id, n), _)) => r == CursorReply(old(Abs()), Op.Fetch(id, n))
    {
      hide Step, CursorReply;
      var cursorId := rdr.Varint(Some(4));
      if cursorId.Err? { return Err(Unexpected); }
      var arraySize := rdr.Varint(Some(4));
      if arraySize.Err? { return Err(Unexpected); }
      assert Abs() == old(Abs());
      RunOne(Abs(), Op.Fetch(cursorId.value, arraySize.value), 0);
      r := FetchRows(cursorId.value, arraySize.value);
    }

    /** Registers a materialised result under the next id. */
    method OpenCursor(meta: seq<Column>, rows: seq<Row>) returns (id: int)
      requires Valid()
      modifies this`refCursors, this`nextRefId
      ensures Valid() && Inv(old(Abs()))
      ensures id == old(nextRefId) && id !in old(refCursors) && nextRefId == id + 1
      ensures Abs() == Open(old(Abs()), meta, rows)
      ensures refCursors.Keys == old(refCursors.Keys) + {id}
      ensures fresh(refCursors.Values - old(refCursors.Values))
    {
      hide Distinct, Inv;
      ValidInv();
      ghost var table, before := refCursors, Abs().cursors;
      id := nextRefId;
      nextRefId := nextRefId + 1;
      var entry := new CursorEntry(meta, rows);
      assert forall k :: k in table ==> table[k] != entry;
      DistinctInsert(table, id, entry);
      refCursors := refCursors[id := entry];
      assert forall k :: k in refCursors ==> refCursors[k] == if k == id then entry else table[k];
      assert Abs().cursors == before[id := Cursor(meta, rows, 0)];
      assert forall v :: v in refCursors.Values ==> v == entry || v in table.Values;
    }

    // -------------------------------------------------------------------
    // Execute
    // -------------------------------------------------------------------

    /** A query's result: the first batch at once, a cursor for the rest. */
    method ExecuteSql(meta: seq<Column>, rows: seq<Row>, numIters: int, lastRowcount: int) returns (r: Bytes)
      requires Valid()
      modifies this`refCursors, this`nextRefId
      ensures fresh(refCursors.Values - old(refCursors.Values))
      ensures Valid() && Inv(old(Abs()))
      ensures Abs() == Step(old(Abs()), Query(meta, rows, numIters)).0
      ensures r == QueryReply(old(Abs()), meta, rows, numIters, lastRowcount)
    {
      hide Encoding, QueryMessages, ErrorMessages, DescribeFits, VarintFits, Encodes;
      if meta == [] {
        var done := ErrorMessage(ErrorInfo(0, [], 0, 0, lastRowcount, 0), true);
        return Written(done);
      }
      var deliver := if numIters <= 0 then rows else rows[..Min(numIters, |rows|)];
      var rest := rows[|deliver|..];
      var response;
      if rest == [] {
        QueryEncodes(meta, deliver, 0);
        response := QueryResponse(meta, deliver, 0);
      } else {
        var cursorId := OpenCursor(meta, rest);
        QueryEncodes(meta, deliver, cursorId);
        response := QueryResponse(meta, deliver, cursorId);
      }
      r := Written(response);
    }

    /** Opens one REF CURSOR behind some operations of a run. */
    method OpenNext(result: ResultSet, ghost s: State, ghost ops: seq<Op>) returns (id: int)
      requires Valid() && Inv(s) && Abs() == Run(s, ops)
      modifies this`refCursors, this`nextRefId
      ensures Valid() && Abs() == Run(s, ops + [OpenRef(result.0, result.1)])
      ensures id == old(nextRefId) && nextRefId == id + 1
      ensures fresh(refCursors.Values - old(refCursors.Values))
    {
      hide Open, Run, Inv;
      ghost var op := OpenRef(result.0, result.1);
      ValidInv();
      RunAppend(s, ops, [op], 0);
      RunOne(Abs(), op, 0);
      id := OpenCursor(result.0, result.1);
    }

    /** Opens the REF CURSORs of a block in turn; returns the last id, or 0. */
    method OpenRefs(results: seq<ResultSet>) returns (refId: int)
      requires Valid()
      modifies this`refCursors, this`nextRefId
      ensures fresh(refCursors.Values - old(refCursors.Values))
      ensures Valid() && Inv(old(Abs()))
      ensures Abs() == Run(old(Abs()), OpenOps(results))
      ensures refId == LastChild(old(Abs()), results).id
    {
      hide Open, Run, Inv, Abs, Distinct;
      refId := 0;
      ghost var s := Abs();
      ValidInv();
      NothingRun(s);
      assert nextRefId == s.nextId by { NextIs(); }
      assert OpenOps(results[..0]) == [];
      for i := 0 to |results|
        invariant Valid() && Abs() == Run(s, OpenOps(results[..i]))
        invariant nextRefId == s.nextId + i
        invariant refId == if i == 0 then 0 else nextRefId - 1
        invariant fresh(refCursors.Values - old(refCursors.Values))
      {
        ghost var ops := OpenOps(results[..i]);
        assert OpenOps(results[..i + 1]) == ops + [OpenRef(results[i].0, results[i].1)];
        refId := OpenNext(results[i], s, ops);
      }
      assert results[..|results|] == results;
    }

    lemma NextIs()
      requires Valid()
      ensures Abs().nextId == nextRefId
    {
    }

    /** An execute request: read, put together with what its statement comes to, and answered. */
    method ExecuteFull(rdr: TTCReader, outside: Outside) returns (r: Bytes)
      requires Valid() && rdr.Valid()
      modifies this`refCursors, this`nextRefId, refCursors.Values, rdr
      ensures fresh(refCursors.Values - old(refCursors.Values))
      ensures Valid() && rdr.Valid() && Inv(old(Abs()))
      ensures Abs() == Run(old(Abs()), CallOps(CallOf(old(rdr.Rest()), outside)))
      ensures r == CallReply(old(Abs()), CallOf(old(rdr.Rest()), outside))
    {
      hide ReadExecute, Resolve, Run, CallOps, CallReply, Inv;
      ValidInv();
      var request := ExecuteRequest(rdr, outside.returning);
      assert Abs() == old(Abs());
      r := Execute(if request.Ok? then Resolve(request.value, outside.statement) else Raises(Unexpected));
    }

    /** What an execute request comes to. */
    method Execute(call: Call) returns (r: Bytes)
      requires Valid()
      modifies this`refCursors, this`nextRefId, refCursors.Values
      ensures fresh(refCursors.Values - old(refCursors.Values))
      ensures Valid() && Inv(old(Abs()))
      ensures Abs() == Run(old(Abs()), CallOps(call))
      ensures r == CallReply(old(Abs()), call)
    {
      hide Step, Encoding, BlockEncoding, ReturningEncoding, CursorReply, QueryReply, OpenOps, LastChild;
      match call
      case Queried(meta, rows, numIters, rowcount) =>
        RunOne(Abs(), Query(meta, rows, numIters), 0);
        r := ExecuteSql(meta, rows, numIters, rowcount);
      case NoText(id, numIters) =>
        if id == 0 {
          return Err(Ora(900, AsciiBytes("ORA-00900: statement without text"), 0));
        }
        RunOne(Abs(), Serve(id, numIters), 0);
        r := ServeCursorRows(id, numIters);
      case Block(results, stated, binds, failure) =>
        var refId := OpenRefs(results);
        if failure.Some? {
          return Err(failure.value);
        }
        var child := Child(if results == [] then [] else results[|results| - 1].0, refId);
        assert child == LastChild(old(Abs()), results) by { SameChild(old(Abs()), results, refId); }
        var bytes := BlockResponse(stated, binds, child);
        r := Written(bytes);
      case Returning(cells, count, eocs) =>
        var bytes := ReturningResponse(cells, count, eocs);
        r := Written(bytes);
      case Acknowledged =>
        var bytes := ErrorMessage(MoreRows(0), true);
        r := Written(bytes);
      case Raises(e) =>
        r := Err(e);
    }

    // -------------------------------------------------------------------
    // Piggybacks
    // -------------------------------------------------------------------

    /** Removes the named cursors, as far as their ids can be read. */
    method CloseCursors(rdr: TTCReader, count: int) returns (r: Result<(), BufferError>)
      requires Valid() && rdr.Valid()
      modifies this`refCursors, rdr
      ensures Valid() && rdr.Valid() && old(rdr.pos) <= rdr.pos
      ensures var (ids, end) := ReadIds(count, old(rdr.Rest()));
        && refCursors == old(refCursors) - IdSet(ids)
        && (if end.Ok? then r == Ok(()) && rdr.Rest() == end.value else r.Err?)
    {
      hide ReadVarint;
      var i := 0;
      ghost var done: set<int> := {};
      while i < count
        invariant rdr.Valid() && old(rdr.pos) <= rdr.pos && i <= Max(count, 0)
        invariant refCursors == old(refCursors) - done
        invariant done + IdSet(ReadIds(count - i, rdr.Rest()).0) == IdSet(ReadIds(count, old(rdr.Rest())).0)
        invariant ReadIds(count - i, rdr.Rest()).1 == ReadIds(count, old(rdr.Rest())).1
      {
        var cid :- rdr.Varint(Some(4));
        refCursors := refCursors - {cid};
        done := done + {cid};
        i := i + 1;
      }
      r := Ok(());
    }

    /** One piggybacked request. It takes at least a byte, and closes the cursors it names. */
    method SkipPiggyback(rdr: TTCReader) returns (r: Result<(), Raised>)
      requires Valid() && rdr.Valid()
      modifies this`refCursors, rdr
      ensures Valid() && rdr.Valid() && old(rdr.pos) <= rdr.pos
      ensures var (ids, rest) := Piggyback(old(rdr.Rest()));
        && refCursors == old(refCursors) - IdSet(ids)
        && (match rest case Ok(bytes) => r == Ok(()) && rdr.Rest() == bytes case Err(e) => r == Err(e))
    {
      hide ReadVarint, ReadIds, PiggybackRest, Printed;
      assert refCursors - IdSet([]) == refCursors;
      var kind := rdr.U8();
      if kind.Err? { return Err(Unexpected); }
      var code := rdr.U8();
      if code.Err? { return Err(Unexpected); }
      var sequence := rdr.U8();
      if sequence.Err? { return Err(Unexpected); }
      assert old(rdr.Rest())[1..][1..][1..] == old(rdr.Rest())[3..];
      if code.value == CLOSE_CURSORS {
        var count := rdr.Varint(Some(4));
        if count.Err? { return Err(Unexpected); }
        var closed := CloseCursors(rdr, count.value);
        r := if closed.Ok? then Ok(()) else Err(Unexpected);
      } else {
        r := SkipOther(rdr, code.value);
      }
    }

    /** The piggyback loop; the bytes left are its measure. */
    method SkipPiggybacks(rdr: TTCReader, ghost outside: Outside) returns (r: Result<(), Raised>)
      requires Valid() && rdr.Valid()
      modifies this`refCursors, rdr
      ensures Valid() && rdr.Valid() && Inv(old(Abs()))
      ensures refCursors.Values <= old(refCursors).Values
      ensures match r
        case Ok(_) =>
          && !IsPiggyback(rdr.Rest())
          && Run(old(Abs()), PayloadOps(old(rdr.Rest()), outside)) == Run(Abs(), MessageOps(rdr.Rest(), outside))
          && PayloadReply(old(Abs()), database, old(rdr.Rest()), outside) == MessageReply(Abs(), database, rdr.Rest(), outside)
          && PayloadDatabase(database, old(rdr.Rest()), outside) == MessageDatabase(database, rdr.Rest(), outside)
        case Err(e) =>
          && Abs() == Run(old(Abs()), PayloadOps(old(rdr.Rest()), outside))
          && PayloadReply(old(Abs()), database, old(rdr.Rest()), outside) == Err(e)
          && PayloadDatabase(database, old(rdr.Rest()), outside) == database
    {
      hide Piggyback, MessageReply, MessageOps, Step, PayloadOps, PayloadReply, PayloadDatabase, MessageDatabase, Inv;
      ValidInv();
      ghost var all, reply := Run(Abs(), PayloadOps(rdr.Rest(), outside)), PayloadReply(Abs(), database, rdr.Rest(), outside);
      ghost var after := PayloadDatabase(database, rdr.Rest(), outside);
      ghost var gone: set<int> := {};
      while rdr.pos < |rdr.data| && rdr.data[rdr.pos] == MSG_PIGGYBACK
        invariant Valid() && rdr.Valid() && old(rdr.pos) <= rdr.pos
        invariant refCursors == old(refCursors) - gone
        invariant Inv(Abs())
        invariant Run(Abs(), PayloadOps(rdr.Rest(), outside)) == all
        invariant PayloadReply(Abs(), database, rdr.Rest(), outside) == reply
        invariant PayloadDatabase(database, rdr.Rest(), outside) == after
        decreases |rdr.Rest()|
      {
        ghost var s, bytes := Abs(), rdr.Rest();
        PayloadUnfold(s, database, bytes, outside);
        var skipped := SkipPiggyback(rdr);
        assert Abs() == CloseIds(s, Piggyback(bytes).0) by {
          assert Abs().cursors == s.cursors - IdSet(Piggyback(bytes).0);
        }
        gone := gone + IdSet(Piggyback(bytes).0);
        FewerValues(old(refCursors), gone);
        ValidInv();
        if skipped.Err? {
          return Err(skipped.error);
        }
      }
      FewerValues(old(refCursors), gone);
      PayloadUnfold(Abs(), database, rdr.Rest(), outside);
      r := Ok(());
    }

    // -------------------------------------------------------------------
    // Dispatch
    // -------------------------------------------------------------------

    /** A login phase: its request is read, and how it goes is decided outside. The second phase makes a
        database session, connected or not. */
    method Login(firstPhase: bool, rdr: TTCReader, outside: Outside) returns (r: Bytes)
      requires Valid() && rdr.Valid()
      modifies this`database, rdr
      ensures Valid() && rdr.Valid() && Abs() == old(Abs())
      ensures var auth := LoginOf(old(rdr.Rest()), outside);
        && r == (if auth.Accepted? then Written(AuthEncoding(auth.params, firstPhase)) else Err(auth.error))
        && database == if firstPhase || auth.Refused? then old(database) else if auth.Accepted? then Live else Gone
    {
      hide ReadLogin, AuthEncoding;
      var request := LoginRequest(rdr);
      if request.Err? {
        return Err(Unexpected);
      }
      var auth := outside.auth;
      if !firstPhase && !auth.Refused? {
        database := if auth.Accepted? then Live else Gone;
      }
      if !auth.Accepted? {
        return Err(auth.error);
      }
      var bytes := AuthResponse(auth.params, firstPhase);
      r := Written(bytes);
    }

    /** Rolls back what is open and closes the connection; a rollback that raises leaves it open. */
    method LogOff(ends: Option<Raised>) returns (r: Bytes)
      requires Valid()
      modifies this`database
      ensures Valid() && Abs() == old(Abs())
      ensures if old(database).Live? && ends.Some? then r == Err(ends.value) && database == old(database)
        else r == Written(Encoding([Status])) && database == if old(database).Live? then Gone else old(database)
    {
      hide Encoding;
      if database.Live? {
        if ends.Some? {
          return Err(ends.value);
        }
        database := Gone;
      }
      var bytes := StatusMessage();
      r := Ok(bytes);
    }

    /** Routes a function request. The outcome of the outside world is a parameter: what the statement
        comes to, how the authentication handshake goes, what commit and rollback raise. */
    method Dispatch(fn: byte, rdr: TTCReader, outside: Outside) returns (r: Bytes)
      requires Valid() && rdr.Valid()
      modifies this, refCursors.Values, rdr
      ensures fresh(refCursors.Values - old(refCursors.Values))
      ensures Valid() && rdr.Valid() && Inv(old(Abs()))
      ensures Abs() == Run(old(Abs()), RequestOps(fn, old(rdr.Rest()), outside))
      ensures r == RequestReply(old(Abs()), old(database), fn, old(rdr.Rest()), outside)
      ensures database == RequestDatabase(old(database), fn, old(rdr.Rest()), outside)
    {
      hide Encoding, AuthEncoding, CallReply, CallOf, LoginOf, CursorReply, CallOps, ReadFetch, ReadFields, Step,
        UnknownFunction, NoReexecute;
      if fn == FUNC_AUTH_1 || fn == FUNC_AUTH_2 {
        r := Login(fn == FUNC_AUTH_1, rdr, outside);
      } else if fn == FUNC_EXECUTE {
        r := ExecuteFull(rdr, outside);
      } else if fn == FUNC_REEXECUTE || fn == FUNC_REEXECUTE_FETCH {
        r := Reexecute(rdr);
      } else if fn == FUNC_FETCH {
        r := Fetch(rdr);
      } else if fn == FUNC_COMMIT || fn == FUNC_ROLLBACK {
        if database.Live? && outside.ends.Some? {
          return Err(outside.ends.value);
        }
        var bytes := ErrorMessage(MoreRows(0), false);
        r := Written(bytes);
      } else if fn == FUNC_PING {
        var bytes := StatusMessage();
        r := Ok(bytes);
      } else if fn == FUNC_LOGOFF {
        r := LogOff(outside.ends);
      } else {
        r := Err(UnknownFunction(fn));
      }
    }

    /** What follows the piggybacks: nothing, a handshake message, or a message with a function code and
        a sequence number, of which only message type 3 is a request. */
    method Answer(rdr: TTCReader, outside: Outside) returns (r: Bytes)
      requires Valid() && rdr.Valid()
      modifies this, refCursors.Values, rdr
      ensures fresh(refCursors.Values - old(refCursors.Values))
      ensures Valid() && rdr.Valid() && Inv(old(Abs()))
      ensures Abs() == Run(old(Abs()), MessageOps(old(rdr.Rest()), outside))
      ensures r == MessageReply(old(Abs()), old(database), old(rdr.Rest()), outside)
      ensures database == MessageDatabase(old(database), old(rdr.Rest()), outside)
    {
      hide Encoding, RequestReply, RequestOps, RequestDatabase, Step, ErrorMessages, Inv, MessageOps, MessageDatabase, Run,
        MessageReply, Answered, StatusReply, GreetingBytes;
      ValidInv();
      StatusReported();
      ghost var all := rdr.Rest();
      MessageUnfold(Abs(), database, all, outside);
      if rdr.pos == |rdr.data| {
        var bytes := StatusMessage();
        return Ok(bytes);
      }
      var messageType := rdr.U8();
      if messageType.value == 1 || messageType.value == 2 {
        return Ok(GreetingBytes(messageType.value));
      }
      var fn := rdr.U8();
      if fn.Err? { return Err(Unexpected); }
      var sequence := rdr.U8();
      if sequence.Err? { return Err(Unexpected); }
      assert rdr.Rest() == all[3..] && fn.value == all[1] && Abs() == old(Abs());
      if messageType.value != MSG_FUNCTION {
        var bytes := StatusMessage();
        return Ok(bytes);
      }
      var answer := Dispatch(fn.value, rdr, outside);
      r := Report(answer);
    }

    /** One client payload: piggybacks first, then at most one message. The cursor table runs through
        the payload's operations, and the reply is the payload's reply. */
    method HandleTtc(payload: seq<byte>, outside: Outside) returns (r: Bytes)
      requires Valid()
      modifies this, refCursors.Values
      ensures fresh(refCursors.Values - old(refCursors.Values))
      ensures Valid() && Inv(old(Abs()))
      ensures Abs() == Run(old(Abs()), PayloadOps(payload, outside))
      ensures r == PayloadReply(old(Abs()), old(database), payload, outside)
      ensures database == PayloadDatabase(old(database), payload, outside)
    {
      hide PayloadOps, PayloadReply, PayloadDatabase, MessageOps, MessageReply, MessageDatabase, Step;
      var rdr := new TTCReader(payload);
      assert Abs() == old(Abs());
      var skipped := SkipPiggybacks(rdr, outside);
      if skipped.Err? {
        return Err(skipped.error);
      }
      r := Answer(rdr, outside);
    }
  }

  lemma NothingRun(s: State)
    requires Inv(s)
    ensures Run(s, []) == s
  {
  }

  /** Only a function request does anything to the session. */
  lemma MessageUnfold(s: State, db: Database, bytes: seq<byte>, outside: Outside)
    requires Inv(s)
    ensures var request := |bytes| >= 3 && bytes[0] == MSG_FUNCTION;
      && Run(s, MessageOps(bytes, outside)) == (if request then Run(s, RequestOps(bytes[1], bytes[3..], outside)) else s)
      && MessageDatabase(db, bytes, outside)
         == (if request then RequestDatabase(db, bytes[1], bytes[3..], outside) else db)
      && MessageReply(s, db, bytes, outside)
         == if bytes == [] then StatusReply()
            else if bytes[0] == 1 || bytes[0] == 2 then Ok(GreetingBytes(bytes[0]))
            else if |bytes| < 3 then Err(Unexpected)
            else if request then Answered(RequestReply(s, db, bytes[1], bytes[3..], outside))
            else StatusReply()
  {
    hide RequestOps, RequestDatabase, Step, Inv, RequestReply, Answered, StatusReply, GreetingBytes;
    NothingRun(s);
  }

  /** Turns what a handler raised into the response that reports it; an error whose numbers do not fit
      their widths cannot be reported and drops the connection. */
  method Report(answer: Bytes) returns (r: Bytes)
    ensures r == Answered(answer)
  {
    hide Encoding, ErrorMessages, InfoOf;
    if answer.Ok? {
      return Ok(answer.value);
    }
    var bytes := ErrorMessage(InfoOf(answer.error), true);
    r := if bytes.Some? then Ok(bytes.value) else Err(answer.error);
  }

  /** Re-execution is read as far as its header goes, and refused. */
  method Reexecute(rdr: TTCReader) returns (r: Bytes)
    requires rdr.Valid()
    modifies rdr
    ensures rdr.Valid()
    ensures r == Err(if ReadFields(REEXECUTE_SHAPES, old(rdr.Rest())).Ok? then NoReexecute() else Unexpected)
  {
    hide ReadVarint, NoReexecute;
    ghost var shapes := REEXECUTE_SHAPES;
    for i := 0 to 4
      invariant rdr.Valid()
      invariant ReadFields(shapes[i..], rdr.Rest()).Ok? <==> ReadFields(shapes, old(rdr.Rest())).Ok?
    {
      assert shapes[i..][0] == AnUB(4) && shapes[i..][1..] == shapes[i + 1..];
      var skipped := rdr.Varint(Some(4));
      if skipped.Err? { return Err(Unexpected); }
    }
    r := Err(NoReexecute());
  }

  /** A piggyback that closes no cursors. */
  method SkipOther(rdr: TTCReader, code: byte) returns (r: Result<(), Raised>)
    requires rdr.Valid()
    modifies rdr
    ensures rdr.Valid() && old(rdr.pos) <= rdr.pos
    ensures match PiggybackRest(code, old(rdr.Rest()))
      case Ok(bytes) => r == Ok(()) && rdr.Rest() == bytes
      case Err(e) => r == Err(e)
  {
    hide ReadVarint, ReadTextWithLength, ReadPairs, Printed;
    if code == SET_SCHEMA {
      var flag := rdr.U8();
      if flag.Err? { return Err(Unexpected); }
      var schema := rdr.StrWithLength();
      if schema.Err? { return Err(Unexpected); }
    } else if code == ALTER_SESSION {
      var cursor := rdr.Varint(Some(4));
      if cursor.Err? { return Err(Unexpected); }
      var flag := rdr.U8();
      if flag.Err? { return Err(Unexpected); }
      var count := rdr.Varint(Some(4));
      if count.Err? { return Err(Unexpected); }
      var pairs := ReadKvPairs(rdr, count.value);
      if pairs.Err? { return Err(Unexpected); }
    } else if code == SESSION_STATE {
      var state := rdr.Varint(Some(8));
      if state.Err? { return Err(Unexpected); }
    } else {
      return Err(Ora(900, AsciiBytes("ORA-00900: piggyback " + Printed(code) + " not handled by the proxy"), 0));
    }
    r := Ok(());
  }

  /** The reply that serves a live cursor says no more than what was delivered. */
  lemma DeliveredReply(s: State, op: Op)
    requires Inv(s) && (op.Serve? || op.Fetch?) && op.id in s.cursors
    ensures var c := s.cursors[op.id];
      var reply := Deliver(s, op.id, Asked(op, c), op.Serve?).1;
      CursorReply(s, op) ==
        if reply.Rows? then
          Written(Encoding(CursorMessages(op.Serve?, c.meta, reply.batch, reply.code == END_OF_ROWS, op.id)))
        else Err(Unexpected)
  {
    hide Encoding, CursorMessages, TakeBatch, VarintFits, DescribeFits, Encodes;
  }

  lemma FewerValues<K, V>(whole: map<K, V>, gone: set<K>)
    ensures (whole - gone).Values <= whole.Values
  {
  }

  /** No two ids share an entry. */
  ghost predicate Distinct(table: map<int, CursorEntry>) {
    forall i, j :: i in table && j in table && i != j ==> table[i] != table[j]
  }

  lemma DistinctInsert(table: map<int, CursorEntry>, id: int, entry: CursorEntry)
    requires Distinct(table) && forall k :: k in table ==> table[k] != entry
    ensures Distinct(table[id := entry])
  {
  }

  lemma SameChild(s: State, results: seq<ResultSet>, refId: int)
    requires refId == LastChild(s, results).id
    ensures Child(if results == [] then [] else results[|results| - 1].0, refId) == LastChild(s, results)
  {
  }

  function CloseIds(s: State, ids: seq<int>): State { s.(cursors := s.cursors - IdSet(ids)) }

  /** How a payload's operations and reply start: with its first piggyback, if it has one. */
  lemma PayloadUnfold(s: State, db: Database, bytes: seq<byte>, outside: Outside)
    requires Inv(s)
    ensures !IsPiggyback(bytes) ==>
      && PayloadOps(bytes, outside) == MessageOps(bytes, outside)
      && PayloadReply(s, db, bytes, outside) == MessageReply(s, db, bytes, outside)
      && PayloadDatabase(db, bytes, outside) == MessageDatabase(db, bytes, outside)
    ensures IsPiggyback(bytes) ==>
      var (ids, rest) := Piggyback(bytes);
      var t := CloseIds(s, ids);
      && Inv(t)
      && (if rest.Ok? then
            && Run(s, PayloadOps(bytes, outside)) == Run(t, PayloadOps(rest.value, outside))
            && PayloadReply(s, db, bytes, outside) == PayloadReply(t, db, rest.value, outside)
            && PayloadDatabase(db, bytes, outside) == PayloadDatabase(db, rest.value, outside)
          else
            && Run(s, PayloadOps(bytes, outside)) == t && PayloadReply(s, db, bytes, outside) == Err(rest.error)
            && PayloadDatabase(db, bytes, outside) == db)
  {
    hide Piggyback, MessageReply, MessageOps, MessageDatabase, IdSet;
    if IsPiggyback(bytes) {
      var (ids, rest) := Piggyback(bytes);
      StepInv(s, Close(ids));
      assert CloseIds(s, ids) == Step(s, Close(ids)).0;
      RunOne(s, Close(ids), 0);
      if rest.Ok? {
        RunAppend(s, [Close(ids)], PayloadOps(rest.value, outside), 0);
      } else {
        assert [Close(ids)] + [] == [Close(ids)];
      }
    }
  }
}
