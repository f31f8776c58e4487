/** What every client payload means: the cursor operations it performs and the reply it gets. */
module Requests {
  import opened Basics
  import opened PlaceValue
  import opened Wire
  import opened BigEndian
  import Utf8
  import opened Messages
  import opened Responses
  import opened Cursors
  import opened Params
  import opened Blocks
  import opened Execution
  import opened Greetings

  // ---------------------------------------------------------------------
  // Errors
  // ---------------------------------------------------------------------

  /** What a handler may raise: an ORA error, or anything else. */
  datatype Raised = Ora(num: int, message: seq<byte>, pos: int) | Unexpected

  function UnknownCursor(): Raised {
    Ora(UNKNOWN_CURSOR, AsciiBytes("ORA-01007: variable not in select list"), 0)
  }

  function Printed(n: nat): string {
    (if n < 10 then "" else Printed(n / 10)) + [(n % 10 + 48) as char]
  }

  function UnknownFunction(fn: byte): Raised {
    Ora(900, AsciiBytes("ORA-00900: TTC function " + Printed(fn) + " not supported by the proxy"), 0)
  }

  function NoReexecute(): Raised { Ora(900, AsciiBytes("ORA-00900: reexecute not supported"), 0) }

  function BrokenChannel(): ErrorInfo {
    ErrorInfo(BROKEN, AsciiBytes("ORA-03113: end-of-file on communication channel"), 0, 0, 0, 0)
  }

  /** The error body that reports what was raised. */
  function InfoOf(e: Raised): ErrorInfo {
    if e.Ora? then ErrorInfo(e.num, e.message, e.pos, 0, 0, 0) else BrokenChannel()
  }

  predicate Reportable(e: Raised) { e.Ora? ==> VarintFits(e.num, 4) && VarintFits(e.pos, 2) }

  lemma ReportFits(e: Raised)
    ensures Reportable(e) <==> ErrorFits(InfoOf(e))
  {
    ConstantsFit();
    assert Pow(256, 4) == 0x1_0000_0000;
  }

  type Bytes = Result<seq<byte>, Raised>

  /** A response, or the overflow its writer raises. */
  function Written(r: Option<seq<byte>>): Bytes { if r.Some? then Ok(r.value) else Err(Unexpected) }

  // ---------------------------------------------------------------------
  // Requests
  // ---------------------------------------------------------------------

  const MSG_FUNCTION := 3
  const MSG_PIGGYBACK := 17

  const FUNC_REEXECUTE := 4
  const FUNC_FETCH := 5
  const FUNC_LOGOFF := 9
  const FUNC_COMMIT := 14
  const FUNC_ROLLBACK := 15
  const FUNC_REEXECUTE_FETCH := 78
  const FUNC_EXECUTE := 94
  const FUNC_AUTH_2 := 115
  const FUNC_AUTH_1 := 118
  const FUNC_PING := 147

  const REEXECUTE_SHAPES: seq<Shape> := [AnUB(4), AnUB(4), AnUB(4), AnUB(4)]

  type ResultSet = (seq<Column>, seq<Row>)

  /** What a statement comes to, once it is translated and run: a result set, a row count or an error; a
      block that opens REF CURSORs and then fails or has values for its binds; a RETURNING statement with
      the values of each bind; transaction control; a statement that fails before any of this. */
  datatype Statement =
    | Sql(meta: seq<Column>, rows: seq<Row>, rowcount: int, failure: Option<Raised>)
    | PlSql(results: seq<ResultSet>, values: Row, failure: Option<Raised>)
    | Returned(cells: seq<Row>, count: int, eocs: int)
    | Transaction
    | Refuses(e: Raised)

  /** What an execute request comes to: a query with the rows it takes at once, an execute without text on
      a known cursor, a block with its binds, returned values, a plain acknowledgement, an error. */
  datatype Call =
    | Queried(meta: seq<Column>, rows: seq<Row>, numIters: int, rowcount: int)
    | NoText(id: int, numIters: int)
    | Block(results: seq<ResultSet>, stated: int, binds: seq<Bind>, failure: Option<Raised>)
    | Returning(cells: seq<Row>, count: int, eocs: int)
    | Acknowledged
    | Raises(e: Raised)

  /** Either of the options to execute and to fetch is set, bits 5 and 6. */
  predicate Runs(options: int) { options / 32 % 4 != 0 }

  /** The binds of a block: which are cursors is in the request, what they hold is not. */
  function BindsOf(types: seq<int>, values: Row): (binds: seq<Bind>)
    ensures |binds| == |types|
  {
    seq(|types|, i requires 0 <= i < |types| => Bind(types[i] == CURSOR, if i < |values| then values[i] else Encoded(None)))
  }

  function CellsOf(types: seq<int>, cells: seq<Row>): seq<Row> {
    seq(|types|, i requires 0 <= i < |types| => if i < |cells| then cells[i] else [])
  }

  /** A request put together with what its statement comes to. A statement that is neither to be executed
      nor fetched from is only acknowledged. */
  function Resolve(request: Execute, statement: Statement): Call {
    if request.sql.None? then NoText(request.cursorId, request.numIters)
    else
      match statement
      case Sql(meta, rows, rowcount, failure) =>
        if !Runs(request.options) then Acknowledged
        else if failure.Some? then Raises(failure.value)
        else Queried(meta, rows, request.numIters, rowcount)
      case PlSql(results, values, failure) =>
        Block(results, request.stated, BindsOf(request.types, values), failure)
      case Returned(cells, count, eocs) => Returning(CellsOf(request.types, cells), count, eocs)
      case Transaction => Acknowledged
      case Refuses(e) => Raises(e)
  }

  /** What an execute request with this body comes to; one that cannot be read raises. */
  function CallOf(body: seq<byte>, outside: Outside): Call {
    match ReadExecute(outside.returning, body)
    case Err(_) => Raises(Unexpected)
    case Ok((request, _)) => Resolve(request, outside.statement)
  }

  /** How an authentication phase goes: refused before a database session is made, a database session that
      could not connect, or parameters to answer with. */
  datatype Login = Refused(error: Raised) | Unconnected(error: Raised) | Accepted(params: seq<Param>)

  /** The world outside the session, for one request: what the statement comes to and whether its text is
      that of a RETURNING statement, how authentication goes, what a live database connection raises at
      commit or rollback. */
  datatype Outside = Outside(statement: Statement, returning: bool, auth: Login, ends: Option<Raised>)

  /** How an authentication phase with this body goes; one that cannot be read raises. */
  function LoginOf(body: seq<byte>, outside: Outside): Login {
    if ReadLogin(body).Ok? then outside.auth else Refused(Unexpected)
  }

  /** The session's database connection: no login has got that far, open, or closed or never made. */
  datatype Database = NoLogin | Live | Gone

  function OpenOps(results: seq<ResultSet>): seq<Op> {
    seq(|results|, i requires 0 <= i < |results| => OpenRef(results[i].0, results[i].1))
  }

  /** The cursor a block sends back: the last of the results. */
  function LastChild(s: State, results: seq<ResultSet>): Child {
    if results == [] then Child([], 0) else Child(results[|results| - 1].0, s.nextId + |results| - 1)
  }

  function CallOps(call: Call): seq<Op> {
    match call
    case Queried(meta, rows, numIters, _) => [Query(meta, rows, numIters)]
    case NoText(id, numIters) => if id == 0 then [] else [Serve(id, numIters)]
    case Block(results, _, _, _) => OpenOps(results)
    case _ => []
  }

  function ReadFetch(s: seq<byte>): Reading<(int, int)> {
    match ReadVarint(s, Some(4))
    case Err(e) => Err(e)
    case Ok((id, s1)) =>
      match ReadVarint(s1, Some(4))
      case Err(e) => Err(e)
      case Ok((n, rest)) => Ok(((id, n), rest))
  }

  function RequestOps(fn: byte, body: seq<byte>, outside: Outside): seq<Op> {
    if fn == FUNC_EXECUTE then CallOps(CallOf(body, outside))
    else if fn == FUNC_FETCH then FetchOps(body)
    else []
  }

  function FetchOps(body: seq<byte>): seq<Op> {
    match ReadFetch(body)
    case Err(_) => []
    case Ok(((id, n), _)) => [Op.Fetch(id, n)]
  }

  /** The reply that serves a cursor. */
  function CursorReply(s: State, op: Op): Bytes
    requires Inv(s) && (op.Serve? || op.Fetch?)
  {
    var reply := Step(s, op).1;
    if reply.Rows? then
      var done := reply.code == END_OF_ROWS;
      Written(Encoding(CursorMessages(op.Serve?, s.cursors[op.id].meta, reply.batch, done, reply.cursorId)))
    else if reply == Failed(UNKNOWN_CURSOR) then Err(UnknownCursor())
    else Err(Unexpected)
  }

  function QueryReply(s: State, meta: seq<Column>, rows: seq<Row>, numIters: int, rowcount: int): Bytes
    requires Inv(s)
  {
    var reply := Step(s, Query(meta, rows, numIters)).1;
    if reply.Rows? then Written(Encoding(QueryMessages(meta, reply.batch, reply.cursorId)))
    else if reply.Done? then Written(Encoding(ErrorMessages(ErrorInfo(0, [], 0, 0, rowcount, 0), true)))
    else Err(Unexpected)
  }

  function CallReply(s: State, call: Call): Bytes
    requires Inv(s)
  {
    match call
    case Queried(meta, rows, numIters, rowcount) => QueryReply(s, meta, rows, numIters, rowcount)
    case NoText(id, numIters) =>
      if id == 0 then Err(Ora(900, AsciiBytes("ORA-00900: statement without text"), 0))
      else CursorReply(s, Serve(id, numIters))
    case Block(results, stated, binds, failure) =>
      if failure.Some? then Err(failure.value) else Written(BlockEncoding(stated, binds, LastChild(s, results)))
    case Returning(cells, count, eocs) => Written(ReturningEncoding(cells, count, eocs))
    case Acknowledged => Written(Encoding(ErrorMessages(MoreRows(0), true)))
    case Raises(e) => Err(e)
  }

  /** What commit and rollback raise: only a live connection can. */
  function Ending(db: Database, outside: Outside): Option<Raised> { if db.Live? then outside.ends else None }

  function RequestReply(s: State, db: Database, fn: byte, body: seq<byte>, outside: Outside): Bytes
    requires Inv(s)
  {
    if fn == FUNC_AUTH_1 || fn == FUNC_AUTH_2 then
      match LoginOf(body, outside)
      case Accepted(params) => Written(AuthEncoding(params, fn == FUNC_AUTH_1))
      case Unconnected(e) => Err(e)
      case Refused(e) => Err(e)
    else if fn == FUNC_EXECUTE then CallReply(s, CallOf(body, outside))
    else if fn == FUNC_REEXECUTE || fn == FUNC_REEXECUTE_FETCH then
      Err(if ReadFields(REEXECUTE_SHAPES, body).Ok? then NoReexecute() else Unexpected)
    else if fn == FUNC_FETCH then
      match ReadFetch(body)
      case Err(_) => Err(Unexpected)
      case Ok(((id, n), _)) => CursorReply(s, Op.Fetch(id, n))
    else if fn == FUNC_COMMIT || fn == FUNC_ROLLBACK then
      if Ending(db, outside).Some? then Err(Ending(db, outside).value)
      else Written(Encoding(ErrorMessages(MoreRows(0), false)))
    else if fn == FUNC_PING then Written(Encoding([Status]))
    else if fn == FUNC_LOGOFF then
      if Ending(db, outside).Some? then Err(Ending(db, outside).value) else Written(Encoding([Status]))
    else Err(UnknownFunction(fn))
  }

  /** The database connection after a request: the second login phase makes one, or fails to; logging off
      closes it. */
  function RequestDatabase(db: Database, fn: byte, body: seq<byte>, outside: Outside): Database {
    if fn == FUNC_AUTH_2 then
      match LoginOf(body, outside)
      case Refused(_) => db
      case Unconnected(_) => Gone
      case Accepted(_) => Live
    else if fn == FUNC_LOGOFF && db.Live? && outside.ends.None? then Gone
    else db
  }

  lemma CursorEncodes(described: bool, meta: seq<Column>, rows: seq<Row>, done: bool, id: int)
    ensures Encoding(CursorMessages(described, meta, rows, done, id)).Some? <==> Writable(described, meta, id, rows)
  {
    hide DescribeFits, ErrorFits, VarintFits, AllFit, PrintAll, ResponseFields, Encodes;
    ClosingFits(id);
    RowsFit(described, meta, rows, if done then EndOfRows(id) else MoreRows(id));
  }

  lemma QueryEncodes(meta: seq<Column>, rows: seq<Row>, id: int)
    ensures Encoding(QueryMessages(meta, rows, id)).Some? <==> Writable(true, meta, id, rows)
  {
    hide DescribeFits, ErrorFits, VarintFits, AllFit, PrintAll, ResponseFields, Encodes;
    ClosingFits(id);
    ClosingFits(0);
    RowsFit(true, meta, rows, if id != 0 then MoreRows(id) else EndOfRows(0));
  }

  /** A request that raised is answered with an error response, or drops the connection when the error
      does not fit one. */
  function Answered(r: Bytes): Bytes {
    match r
    case Ok(bytes) => Ok(bytes)
    case Err(e) =>
      match Encoding(ErrorMessages(InfoOf(e), true))
      case Some(bytes) => Ok(bytes)
      case None => Err(e)
  }

  // ---------------------------------------------------------------------
  // Payloads
  // ---------------------------------------------------------------------

  const CLOSE_CURSORS := 105
  const SET_SCHEMA := 152
  const SESSION_STATE := 176
  const ALTER_SESSION := 204

  /** The ids a CLOSE_CURSORS body names, as far as they can be read. */
  function ReadIds(count: int, s: seq<byte>): (r: (seq<int>, Result<seq<byte>, BufferError>))
    ensures r.1.Ok? ==> |r.1.value| <= |s|
    decreases if count > 0 then count else 0
  {
    if count <= 0 then ([], Ok(s))
    else
      match ReadVarint(s, Some(4))
      case Err(e) => ([], Err(e))
      case Ok((id, rest)) =>
        var (ids, end) := ReadIds(count - 1, rest);
        ([id] + ids, end)
  }

  lemma {:induction false} PairsShrink(count: int, s: seq<byte>, pairs: Pairs)
    ensures var r := ReadPairs(count, s, pairs); r.Ok? ==> |r.value.1| <= |s|
    decreases if count > 0 then count else 0
  {
    hide ReadParam;
    if count > 0 {
      ParamShrinks(s);
      var r := ReadParam(s);
      if r.Ok? {
        PairsShrink(count - 1, r.value.1, pairs[r.value.0.key := (r.value.0.value, r.value.0.flags)]);
      }
    }
  }

  lemma ParamShrinks(s: seq<byte>)
    ensures var r := ReadParam(s); r.Ok? ==> |r.value.1| <= |s|
  {
    hide ReadVarint, ReadTextWithLength;
  }

  /** The ids a piggyback closes, and what follows it. */
  function Piggyback(s: seq<byte>): (r: (seq<int>, Result<seq<byte>, Raised>))
    ensures r.1.Ok? ==> |r.1.value| < |s|
  {
    if |s| < 3 then ([], Err(Unexpected))
    else
      var body := s[3..];
      if s[1] == CLOSE_CURSORS then
        match ReadVarint(body, Some(4))
        case Err(_) => ([], Err(Unexpected))
        case Ok((count, s1)) =>
          var (ids, end) := ReadIds(count, s1);
          (ids, if end.Ok? then Ok(end.value) else Err(Unexpected))
      else ([], PiggybackRest(s[1], body))
  }

  /** What follows a piggyback that closes no cursors. */
  function PiggybackRest(code: byte, body: seq<byte>): (r: Result<seq<byte>, Raised>)
    ensures r.Ok? ==> |r.value| <= |body|
  {
    if code == SET_SCHEMA then
      match ReadU8(body)
      case Err(_) => Err(Unexpected)
      case Ok((_, s1)) =>
        (match ReadTextWithLength(s1) case Ok((_, rest)) => Ok(rest) case Err(_) => Err(Unexpected))
    else if code == ALTER_SESSION then
      match ReadVarint(body, Some(4))
      case Err(_) => Err(Unexpected)
      case Ok((_, s1)) =>
        match ReadU8(s1)
        case Err(_) => Err(Unexpected)
        case Ok((_, s2)) =>
          match ReadVarint(s2, Some(4))
          case Err(_) => Err(Unexpected)
          case Ok((count, s3)) =>
            PairsShrink(count, s3, map[]);
            (match ReadPairs(count, s3, map[]) case Ok((_, rest)) => Ok(rest) case Err(_) => Err(Unexpected))
    else if code == SESSION_STATE then
      (match ReadVarint(body, Some(8)) case Ok((_, rest)) => Ok(rest) case Err(_) => Err(Unexpected))
    else Err(Ora(900, AsciiBytes("ORA-00900: piggyback " + Printed(code) + " not handled by the proxy"), 0))
  }

  predicate IsPiggyback(s: seq<byte>) { s != [] && s[0] == MSG_PIGGYBACK }

  /** The operations of the message after the piggybacks. */
  function MessageOps(s: seq<byte>, outside: Outside): seq<Op> {
    if |s| < 3 || s[0] != MSG_FUNCTION then [] else RequestOps(s[1], s[3..], outside)
  }

  function MessageReply(s: State, db: Database, bytes: seq<byte>, outside: Outside): Bytes
    requires Inv(s)
  {
    if bytes == [] then StatusReply()
    else if bytes[0] == 1 || bytes[0] == 2 then Ok(GreetingBytes(bytes[0]))
    else if |bytes| < 3 then Err(Unexpected)
    else if bytes[0] != MSG_FUNCTION then StatusReply()
    else Answered(RequestReply(s, db, bytes[1], bytes[3..], outside))
  }

  function MessageDatabase(db: Database, bytes: seq<byte>, outside: Outside): Database {
    if |bytes| < 3 || bytes[0] != MSG_FUNCTION then db else RequestDatabase(db, bytes[1], bytes[3..], outside)
  }

  function StatusReply(): Bytes { Answered(Written(Encoding([Status]))) }

  /** All the cursor operations of a payload: what its piggybacks close, then its one message. */
  function PayloadOps(payload: seq<byte>, outside: Outside): seq<Op>
    decreases |payload|
  {
    if IsPiggyback(payload) then
      var (ids, rest) := Piggyback(payload);
      [Close(ids)] + if rest.Ok? then PayloadOps(rest.value, outside) else []
    else MessageOps(payload, outside)
  }

  /** The reply to a payload; a failed piggyback drops the connection. */
  function PayloadReply(s: State, db: Database, payload: seq<byte>, outside: Outside): Bytes
    requires Inv(s)
    decreases |payload|
  {
    if IsPiggyback(payload) then
      var (ids, rest) := Piggyback(payload);
      StepInv(s, Close(ids));
      if rest.Ok? then PayloadReply(Step(s, Close(ids)).0, db, rest.value, outside) else Err(rest.error)
    else MessageReply(s, db, payload, outside)
  }

  function PayloadDatabase(db: Database, payload: seq<byte>, outside: Outside): Database
    decreases |payload|
  {
    if IsPiggyback(payload) then
      var (_, rest) := Piggyback(payload);
      if rest.Ok? then PayloadDatabase(db, rest.value, outside) else db
    else MessageDatabase(db, payload, outside)
  }

  // ---------------------------------------------------------------------
  // Which payloads are answered
  // ---------------------------------------------------------------------

  /** What follows the piggybacks of a payload, and what they close. */
  function AfterPiggybacks(payload: seq<byte>): (r: (seq<Op>, Result<seq<byte>, Raised>))
    decreases |payload|
  {
    if IsPiggyback(payload) then
      var (ids, rest) := Piggyback(payload);
      if rest.Ok? then
        var (ops, end) := AfterPiggybacks(rest.value);
        ([Close(ids)] + ops, end)
      else ([Close(ids)], Err(rest.error))
    else ([], Ok(payload))
  }

  /** A payload is its piggybacks and then its message. */
  lemma {:induction false} PayloadSplits(s: State, db: Database, payload: seq<byte>, outside: Outside)
    requires Inv(s)
    ensures var (closes, rest) := AfterPiggybacks(payload);
      && Inv(Run(s, closes))
      && (rest.Ok? ==>
            && PayloadOps(payload, outside) == closes + MessageOps(rest.value, outside)
            && PayloadReply(s, db, payload, outside) == MessageReply(Run(s, closes), db, rest.value, outside)
            && PayloadDatabase(db, payload, outside) == MessageDatabase(db, rest.value, outside))
      && (rest.Err? ==>
            && PayloadOps(payload, outside) == closes
            && PayloadReply(s, db, payload, outside) == Err(rest.error)
            && PayloadDatabase(db, payload, outside) == db)
    decreases |payload|
  {
    hide Piggyback, MessageReply, MessageOps, MessageDatabase, Step;
    var (closes, end) := AfterPiggybacks(payload);
    RunInv(s, closes);
    if IsPiggyback(payload) {
      var (ids, rest) := Piggyback(payload);
      StepInv(s, Close(ids));
      RunOne(s, Close(ids), 0);
      if rest.Ok? {
        var t := Step(s, Close(ids)).0;
        var more := AfterPiggybacks(rest.value).0;
        PayloadSplits(t, db, rest.value, outside);
        RunAppend(s, [Close(ids)], more, 0);
        Associate([Close(ids)], more, if end.Ok? then MessageOps(end.value, outside) else []);
      } else {
        assert [Close(ids)] + [] == [Close(ids)];
      }
    } else {
      NothingBefore(MessageOps(payload, outside));
    }
  }

  /** What the dispatcher can answer: nothing at all, a handshake message, or a message with a function
      code and a sequence number that raises nothing too wide to report. */
  predicate MessageAnswered(s: State, db: Database, bytes: seq<byte>, outside: Outside)
    requires Inv(s)
  {
    || bytes == [] || bytes[0] == 1 || bytes[0] == 2
    || (|bytes| >= 3
        && (bytes[0] == MSG_FUNCTION ==>
              var raised := RequestReply(s, db, bytes[1], bytes[3..], outside);
              raised.Ok? || Reportable(raised.error)))
  }

  lemma ReportedExactly(r: Bytes)
    ensures Answered(r).Ok? <==> r.Ok? || Reportable(r.error)
  {
    hide ErrorFits, ErrorMessages, Encoding, Reportable, InfoOf;
    if r.Err? {
      ReportFits(r.error);
      ErrorRoundTrip(InfoOf(r.error), true, 0);
    }
  }

  lemma StatusReported()
    ensures Encoding([Status]).Some? && StatusReply() == Ok(Encoding([Status]).value)
  {
    hide Encoding;
    StatusRoundTrip(0);
  }

  /** A payload is answered exactly when all its piggybacks can be read and the message after them can be
      answered; otherwise the connection is dropped without a reply. */
  lemma PayloadAnswered(s: State, db: Database, payload: seq<byte>, outside: Outside)
    requires Inv(s)
    ensures var (closes, rest) := AfterPiggybacks(payload);
      && Inv(Run(s, closes))
      && (PayloadReply(s, db, payload, outside).Ok?
          <==> rest.Ok? && MessageAnswered(Run(s, closes), db, rest.value, outside))
  {
    hide PayloadOps, PayloadReply, PayloadDatabase, AfterPiggybacks, RequestReply, Answered, StatusReply, Reportable;
    PayloadSplits(s, db, payload, outside);
    StatusReported();
    var (closes, rest) := AfterPiggybacks(payload);
    if rest.Ok? && |rest.value| >= 3 {
      ReportedExactly(RequestReply(Run(s, closes), db, rest.value[1], rest.value[3..], outside));
    }
  }

  /** A piggyback of an unknown kind drops the connection: the error it raises is never sent. */
  lemma UnknownPiggyback(s: State, db: Database, outside: Outside)
    requires Inv(s)
    ensures PayloadReply(s, db, [17, 99, 0], outside)
         == Err(Ora(900, AsciiBytes("ORA-00900: piggyback " + "99" + " not handled by the proxy"), 0))
  {
    var payload: seq<byte> := [17, 99, 0];
    hide AsciiBytes, Run, Step;
    assert Printed(99) == "99" by { assert Printed(9) == "9"; }
    assert IsPiggyback(payload);
  }

  /** The body of a SET_SCHEMA piggyback whose schema name is the byte 255, and a ping behind it. */
  lemma SchemaBody()
    ensures ReadTextWithLength([1, 1, 1, 255, 3, 147, 0]) == Err(Undecodable)
  {
    var s: seq<byte> := [1, 1, 1, 255, 3, 147, 0];
    assert s[1..] == [1, 1, 255, 3, 147, 0] && s[1..][..1] == [1] && s[1..][1..] == [1, 255, 3, 147, 0];
    assert FromBytes([1]) == 1;
    assert ReadVarint(s, Some(4)) == Ok((1, [1, 255, 3, 147, 0]));
    var t: seq<byte> := [1, 255, 3, 147, 0];
    assert t[1..][..1] == [255];
    assert ReadBytes(t).value.0 == Some([255]);
    assert !Utf8.IsUtf8([255]);
  }

  /** A piggyback with a text that is not UTF-8 drops the connection as well, and the ping behind it with it. */
  lemma UndecodableSchema(s: State, db: Database, outside: Outside)
    requires Inv(s)
    ensures PayloadReply(s, db, [17, 152, 0, 0, 1, 1, 1, 255, 3, 147, 0], outside) == Err(Unexpected)
  {
    hide Run, Step, MessageReply, ReadTextWithLength;
    var payload: seq<byte> := [17, 152, 0, 0, 1, 1, 1, 255, 3, 147, 0];
    SchemaBody();
    assert IsPiggyback(payload) && payload[3..] == [0, 1, 1, 1, 255, 3, 147, 0];
    assert payload[3..][1..] == [1, 1, 1, 255, 3, 147, 0];
    assert PiggybackRest(SET_SCHEMA, payload[3..]) == Err(Unexpected);
  }
}
