/** Whole sessions: many payloads one after the other, and what a client has heard at the end. */
module Sessions {
  import opened Basics
  import opened Wire
  import opened Messages
  import opened Responses
  import opened Cursors
  import opened Blocks
  import opened Params
  import opened Greetings
  import opened Requests
  import opened Replies

  datatype Exchange = Exchange(payload: seq<byte>, outside: Outside)

  /** The driver returns rows as wide as their columns. */
  predicate Sound(xs: seq<Exchange>) { forall i :: 0 <= i < |xs| ==> RectangularStatement(xs[i].outside.statement) }

  /** The server hangs up after a payload it cannot answer, and after a reply that leaves the session
      without its database connection. */
  predicate GoesOn(s: State, db: Database, x: Exchange)
    requires Inv(s)
  {
    PayloadReply(s, db, x.payload, x.outside).Ok? && !PayloadDatabase(db, x.payload, x.outside).Gone?
  }

  /** The table after a payload. */
  function Next(s: State, x: Exchange): (t: State)
    requires Inv(s)
    ensures Inv(t) && s.nextId <= t.nextId
  {
    RunInv(s, PayloadOps(x.payload, x.outside));
    Run(s, PayloadOps(x.payload, x.outside))
  }

  /** The cursor operations of a session, until the server hangs up. */
  function SessionOps(s: State, db: Database, xs: seq<Exchange>): seq<Op>
    requires Inv(s)
    decreases |xs|
  {
    if xs == [] then []
    else
      PayloadOps(xs[0].payload, xs[0].outside) +
      if GoesOn(s, db, xs[0]) then
        SessionOps(Next(s, xs[0]), PayloadDatabase(db, xs[0].payload, xs[0].outside), xs[1..])
      else []
  }

  /** Its replies, with what the client awaits and the session means. */
  function SessionTurns(s: State, db: Database, xs: seq<Exchange>): seq<Turn>
    requires Inv(s)
    decreases |xs|
  {
    if xs == [] then []
    else
      [PayloadTurn(s, db, xs[0].payload, xs[0].outside)] +
      if GoesOn(s, db, xs[0]) then
        SessionTurns(Next(s, xs[0]), PayloadDatabase(db, xs[0].payload, xs[0].outside), xs[1..])
      else []
  }

  /** Cursor table and database connection after a list of payloads. */
  function After(s: State, db: Database, xs: seq<Exchange>): (r: (State, Database))
    requires Inv(s)
    ensures Inv(r.0)
    decreases |xs|
  {
    if xs == [] then (s, db) else After(Next(s, xs[0]), PayloadDatabase(db, xs[0].payload, xs[0].outside), xs[1..])
  }

  /** The turn numbered i starts from what the payloads before it leave. It is heard as the session means it,
      if it is answered at all, exactly when its answer is clear. */
  predicate TurnHeard(s: State, db: Database, xs: seq<Exchange>, turns: seq<Turn>, i: nat)
    requires Inv(s) && i < |turns| <= |xs|
  {
    var (t, open) := After(s, db, xs[..i]);
    var payload, outside := xs[i].payload, xs[i].outside;
    && turns[i] == PayloadTurn(t, open, payload, outside)
    && (turns[i].reply.Ok? ==> (turns[i].Understood() <==> PayloadClear(t, open, payload, outside)))
  }

  lemma TurnLater(s: State, db: Database, xs: seq<Exchange>, turns: seq<Turn>, i: nat)
    requires Inv(s) && 0 < i < |turns| <= |xs|
    requires TurnHeard(Next(s, xs[0]), PayloadDatabase(db, xs[0].payload, xs[0].outside), xs[1..], turns[1..], i - 1)
    ensures TurnHeard(s, db, xs, turns, i)
  {
    hide PayloadTurn, PayloadClear, PayloadDatabase, Next, Turn.Understood;
    assert xs[..i][1..] == xs[1..][..i - 1] && xs[..i][0] == xs[0];
  }

  lemma {:induction false} NoMoreTurns(s: State, db: Database, xs: seq<Exchange>)
    requires Inv(s)
    ensures |SessionTurns(s, db, xs)| <= |xs|
    decreases |xs|
  {
    hide PayloadTurn, GoesOn, Next, PayloadDatabase;
    if xs != [] { NoMoreTurns(Next(s, xs[0]), PayloadDatabase(db, xs[0].payload, xs[0].outside), xs[1..]); }
  }

  /** Over any number of payloads, every answer is heard as the session means it exactly when it is clear,
      and the cursor table stays sound. */
  lemma {:induction false} SessionHeard(s: State, db: Database, xs: seq<Exchange>)
    requires Inv(s) && RectangularState(s) && Sound(xs)
    ensures Inv(Run(s, SessionOps(s, db, xs))) && RectangularState(Run(s, SessionOps(s, db, xs)))
    ensures var turns := SessionTurns(s, db, xs);
      |turns| <= |xs| && forall i :: 0 <= i < |turns| ==> TurnHeard(s, db, xs, turns, i)
    decreases |xs|
  {
    hide PayloadTurn, PayloadReply, PayloadOps, RectangularState, Step, RectangularOp, GoesOn, PayloadDatabase, PayloadClear,
      Turn.Understood, RectangularStatement, TurnHeard;
    NoMoreTurns(s, db, xs);
    if xs != [] {
      var x := xs[0];
      var ops := PayloadOps(x.payload, x.outside);
      var turns := SessionTurns(s, db, xs);
      NextRectangular(s, x);
      FirstHeard(s, db, xs, turns);
      RunInv(s, ops);
      if GoesOn(s, db, x) {
        var db' := PayloadDatabase(db, x.payload, x.outside);
        SessionHeard(Next(s, x), db', xs[1..]);
        RunAppend(s, ops, SessionOps(Next(s, x), db', xs[1..]), 0);
        assert turns[1..] == SessionTurns(Next(s, x), db', xs[1..]);
        forall i | 1 <= i < |turns| ensures TurnHeard(s, db, xs, turns, i) { TurnLater(s, db, xs, turns, i); }
      } else {
        assert ops + [] == ops;
      }
    }
  }

  lemma FirstHeard(s: State, db: Database, xs: seq<Exchange>, turns: seq<Turn>)
    requires Inv(s) && RectangularState(s) && xs != [] && RectangularStatement(xs[0].outside.statement)
    requires 0 < |turns| <= |xs| && turns[0] == PayloadTurn(s, db, xs[0].payload, xs[0].outside)
    ensures TurnHeard(s, db, xs, turns, 0)
  {
    hide PayloadTurn, PayloadClear, Turn.Understood, RectangularState, RectangularStatement;
    PayloadHeard(s, db, xs[0].payload, xs[0].outside);
    assert xs[..0] == [];
  }

  // ---------------------------------------------------------------------
  // The rows a client reads for a cursor
  // ---------------------------------------------------------------------

  function RowsOf(ms: seq<Message>): seq<Row> {
    if ms == [] then [] else (if ms[0].RowData? then [ms[0].row] else []) + RowsOf(ms[1..])
  }

  /** What was heard, as far as it concerns one cursor: the rows of a stream that its closing ERROR message
      ascribes to that cursor. */
  function RowsIn(id: int, heard: Heard): seq<Row> {
    if heard.Stream? && heard.ms != [] then
      var last := heard.ms[|heard.ms| - 1];
      if last.Error? && last.info.cursorId == id then RowsOf(heard.ms) else []
    else []
  }

  function RowsFor(id: int, turn: Turn): seq<Row> {
    if turn.reply.Ok? && Hear(turn.awaited, turn.reply.value).Ok? then
      RowsIn(id, Hear(turn.awaited, turn.reply.value).value)
    else []
  }

  /** All the rows a client reads for a cursor in the bytes it is sent. */
  function RowsRead(id: int, turns: seq<Turn>): seq<Row> {
    if turns == [] then [] else RowsFor(id, turns[0]) + RowsRead(id, turns[1..])
  }

  function SeenRows(rows: seq<Row>): seq<Row> { seq(|rows|, i requires 0 <= i < |rows| => SeenRow(rows[i])) }

  lemma SeenRowsAppend(a: seq<Row>, b: seq<Row>)
    ensures SeenRows(a + b) == SeenRows(a) + SeenRows(b)
  {
    hide SeenRow;
  }

  lemma {:induction false} RowsOfAppend(xs: seq<Message>, ys: seq<Message>)
    ensures RowsOf(xs + ys) == RowsOf(xs) + RowsOf(ys)
  {
    if xs == [] {
      assert xs + ys == ys;
    } else {
      assert (xs + ys)[1..] == xs[1..] + ys;
      RowsOfAppend(xs[1..], ys);
    }
  }

  lemma {:induction false} RowsOfMessages(rows: seq<Row>)
    ensures RowsOf(SeenAll(RowMessages(rows))) == SeenRows(rows)
    decreases |rows|
  {
    hide SeenRow;
    var ms := SeenAll(RowMessages(rows));
    if rows != [] {
      RowsOfMessages(rows[1..]);
      assert ms[1..] == SeenAll(RowMessages(rows[1..]));
      assert SeenRows(rows) == [SeenRow(rows[0])] + SeenRows(rows[1..]);
    }
  }

  lemma SeenAppend(xs: seq<Message>, ys: seq<Message>)
    ensures SeenAll(xs + ys) == SeenAll(xs) + SeenAll(ys)
  {
    hide Seen;
  }

  lemma NoRowsAhead(described: bool, meta: seq<Column>, e: ErrorInfo)
    ensures RowsOf(SeenAll(if described then [OPENING, DescribeInfo(meta)] else [])) == []
    ensures RowsOf(SeenAll([Error(e)])) == [] && RowsOf(SeenAll([RowHeader])) == [] && RowsOf([]) == []
  {
    hide SeenColumn;
    var head := SeenAll([OPENING, DescribeInfo(meta)]);
    assert !head[0].RowData? && !head[1].RowData? && head[1..][1..] == [];
    assert RowsOf(head[1..]) == [] + RowsOf([]);
    assert SeenAll([Error(e)])[1..] == [] && SeenAll([RowHeader])[1..] == [];
  }

  /** A rows response tells its reader the rows it carries and the error body that closes it. */
  lemma RowsTold(described: bool, meta: seq<Column>, rows: seq<Row>, e: ErrorInfo)
    ensures var ms := SeenAll(RowsMessages(described, meta, rows, e));
      RowsOf(ms) == SeenRows(rows) && ms != [] && ms[|ms| - 1] == Error(e)
  {
    hide SeenAll, RowsOf, SeenRows, RowMessages;
    var head := if described then [OPENING, DescribeInfo(meta)] else [];
    NoRowsAhead(described, meta, e);
    SeenAppend(head + Batch(rows), [Error(e)]);
    SeenAppend(head, Batch(rows));
    RowsOfAppend(SeenAll(head + Batch(rows)), SeenAll([Error(e)]));
    RowsOfAppend(SeenAll(head), SeenAll(Batch(rows)));
    RowsOfMessages(rows);
    SeenNothing(rows);
    if rows != [] {
      SeenAppend([RowHeader], RowMessages(rows));
      RowsOfAppend(SeenAll([RowHeader]), SeenAll(RowMessages(rows)));
    }
    SeenLast(e);
  }

  lemma SeenNothing(rows: seq<Row>)
    ensures SeenAll([]) == [] && (rows == [] ==> SeenRows(rows) == [])
  {
  }

  lemma SeenLast(e: ErrorInfo)
    ensures SeenAll([Error(e)]) == [Error(e)]
  {
  }

  /** A reply can be written exactly when the state machine says it carries rows. */
  lemma CursorReplied(s: State, op: Op)
    requires Inv(s) && (op.Serve? || op.Fetch?)
    ensures CursorReply(s, op).Ok? <==> Step(s, op).1.Rows?
  {
    hide Encoding, CursorMessages, DescribeFits, VarintFits, Encodes, TakeBatch;
    var reply := Step(s, op).1;
    if reply.Rows? {
      var done := reply.code == END_OF_ROWS;
      CursorEncodes(op.Serve?, s.cursors[op.id].meta, reply.batch, done, op.id);
    }
  }

  /** What a client reads in the reply to a fetch or serve is the batch the cursor delivered, under its id,
      with 1403 exactly when the cursor has nothing left. */
  lemma CursorTold(s: State, op: Op)
    requires Inv(s) && (op.Serve? || op.Fetch?) && CursorReply(s, op).Ok?
    ensures op.id in s.cursors && op.id in Step(s, op).0.cursors && Inv(Step(s, op).0)
    ensures var told := CursorMeant(s, op);
      && told.Stream? && told.ms != [] && RowsOf(told.ms) == SeenRows(Taken(s, op, op.id))
      && var last := told.ms[|told.ms| - 1];
      && last.Error? && last.info.cursorId == op.id
      && last.info.num == if Remaining(Step(s, op).0.cursors[op.id]) == [] then END_OF_ROWS else 0
  {
    hide RowsOf, SeenRows, SeenAll, RowsMessages, Writable, Remaining, Taken, CursorReply, Step, Inv;
    CursorReplied(s, op);
    IdIsLive(s, op);
    DeliverConserves(s, op, op.id);
    var reply, c := Step(s, op).1, s.cursors[op.id];
    var done := reply.code == END_OF_ROWS;
    RowsTold(op.Serve?, c.meta, reply.batch, if done then EndOfRows(op.id) else MoreRows(op.id));
  }

  lemma IdIsLive(s: State, op: Op)
    requires Inv(s) && (op.Serve? || op.Fetch?) && Step(s, op).1.Rows?
    ensures op.id in s.cursors
  {
  }

  /** What a client reads in the reply to a query is its first batch, and either 1403 when that is all, or
      the id of the new cursor that holds the rest. */
  lemma QueryTold(s: State, meta: seq<Column>, rows: seq<Row>, numIters: int, rowcount: int)
    requires Inv(s) && meta != [] && QueryReply(s, meta, rows, numIters, rowcount).Ok?
    ensures var told, first := QueryMeant(s, meta, rows, numIters, rowcount), FirstBatch(rows, numIters);
      && told.Stream? && told.ms != [] && RowsOf(told.ms) == SeenRows(first)
      && var last := told.ms[|told.ms| - 1];
      && last.Error?
      && if first == rows then last.info.num == END_OF_ROWS && last.info.cursorId == 0
         else last.info.num == 0 && last.info.cursorId == s.nextId
  {
    hide Encoding, RowsOf, SeenRows, SeenAll, RowsMessages, Writable, Step, ErrorMessages;
    QueryOpens(s, meta, rows, numIters);
    var reply := Step(s, Query(meta, rows, numIters)).1;
    RowsTold(true, meta, reply.batch, if reply.cursorId != 0 then MoreRows(reply.cursorId) else EndOfRows(0));
  }

  // ---------------------------------------------------------------------
  // Paging conservation, in bytes
  // ---------------------------------------------------------------------

  predicate Quiet(ops: seq<Op>) { forall i :: 0 <= i < |ops| ==> ops[i].Close? || ops[i].OpenRef? }

  lemma {:induction false} QuietDeliversNothing(s: State, ops: seq<Op>, id: int)
    requires Inv(s) && Quiet(ops)
    ensures Inv(Run(s, ops)) && s.nextId <= Run(s, ops).nextId && Delivered(s, ops, id) == []
    decreases |ops|
  {
    if ops != [] {
      StepInv(s, ops[0]);
      assert BatchFor(id, Step(s, ops[0]).1) == [];
      QuietDeliversNothing(Step(s, ops[0]).0, ops[1..], id);
    }
  }

  lemma ErrorRows(e: ErrorInfo, withParams: bool, id: int)
    requires e.cursorId != id
    ensures RowsIn(id, Stream(ErrorMessages(e, withParams))) == []
  {
    var ms := ErrorMessages(e, withParams);
    assert ms[|ms| - 1] == Error(e);
  }

  lemma NoRowsSeen()
    ensures SeenRows([]) == []
  {
  }

  lemma QueryRows(s: State, meta: seq<Column>, rows: seq<Row>, numIters: int, rowcount: int, id: int)
    requires Inv(s) && 1 <= id < s.nextId
    ensures Delivered(s, [Query(meta, rows, numIters)], id) == []
    ensures QueryReply(s, meta, rows, numIters, rowcount).Ok? ==>
      RowsIn(id, QueryMeant(s, meta, rows, numIters, rowcount)) == []
  {
    hide QueryReply, QueryMeant, RowsOf, Step, ErrorMessages, Writable;
    var op := Query(meta, rows, numIters);
    RunOne(s, op, id);
    StepFrame(s, op, id);
    if meta != [] {
      if QueryReply(s, meta, rows, numIters, rowcount).Ok? { QueryTold(s, meta, rows, numIters, rowcount); }
    } else {
      CountMeant(s, rows, numIters, rowcount);
      ErrorRows(ErrorInfo(0, [], 0, 0, rowcount, 0), true, id);
    }
  }

  lemma CountMeant(s: State, rows: seq<Row>, numIters: int, rowcount: int)
    requires Inv(s)
    ensures QueryMeant(s, [], rows, numIters, rowcount) == Stream(ErrorMessages(ErrorInfo(0, [], 0, 0, rowcount, 0), true))
  {
    hide ErrorMessages;
  }

  lemma CursorRows(s: State, op: Op, id: int)
    requires Inv(s) && (op.Serve? || op.Fetch?) && 1 <= id < s.nextId
    ensures SeenRows(Delivered(s, [op], id)) == if CursorReply(s, op).Ok? then RowsIn(id, CursorMeant(s, op)) else []
  {
    hide CursorReply, CursorMeant, RowsOf, Step, SeenRows, Taken, Writable, Remaining;
    RunOne(s, op, id);
    CursorReplied(s, op);
    NoRowsSeen();
    if CursorReply(s, op).Ok? {
      CursorTold(s, op);
      DeliverConserves(s, op, op.id);
    }
  }

  lemma CallRowsHeard(s: State, call: Call, id: int)
    requires Inv(s) && 1 <= id < s.nextId
    ensures SeenRows(Delivered(s, CallOps(call), id))
         == if CallReply(s, call).Ok? then RowsIn(id, CallMeant(s, call)) else []
  {
    hide CursorReply, QueryReply, BlockEncoding, ReturningEncoding, CursorMeant, QueryMeant, RowsIn, ErrorMessages, Encoding,
      SeenRows, Step;
    NoRowsSeen();
    match call
    case Queried(meta, rows, numIters, rowcount) => QueryRows(s, meta, rows, numIters, rowcount, id);
    case NoText(cursor, numIters) =>
      if cursor != 0 { CursorRows(s, Serve(cursor, numIters), id); }
    case Block(results, _, binds, _) =>
      QuietDeliversNothing(s, OpenOps(results), id);
      SlotRows(id, SeenSlots(binds, LastChild(s, results)), Error(MoreRows(0)));
    case Returning(cells, count, eocs) => CellRows(id, SeenReturned(cells), ReturningClose(count, eocs));
    case _ => ErrorRows(MoreRows(0), true, id);
  }

  lemma SlotRows(id: int, slots: seq<Slot>, last: Message)
    ensures RowsIn(id, Slots(slots, last)) == []
  {
  }

  lemma CellRows(id: int, cells: seq<seq<Option<seq<byte>>>>, ms: seq<Message>)
    ensures RowsIn(id, Cells(cells, ms)) == []
  {
  }

  lemma RequestRows(s: State, db: Database, fn: byte, body: seq<byte>, outside: Outside, id: int)
    requires Inv(s) && 1 <= id < s.nextId
    ensures SeenRows(Delivered(s, RequestOps(fn, body, outside), id))
         == if RequestReply(s, db, fn, body, outside).Ok? then RowsIn(id, RequestMeant(s, fn, body, outside)) else []
  {
    hide CallReply, CallMeant, CallOps, CallOf, LoginOf, CursorReply, CursorMeant, ReadFetch, Encoding, AuthEncoding,
      ErrorMessages, RowsOf, SeenRows, Step;
    NoRowsSeen();
    if fn == FUNC_EXECUTE {
      CallRowsHeard(s, CallOf(body, outside), id);
    } else if fn == FUNC_FETCH {
      var request := ReadFetch(body);
      if request.Ok? { CursorRows(s, Op.Fetch(request.value.0.0, request.value.0.1), id); }
    } else {
      ErrorRows(MoreRows(0), false, id);
    }
  }

  lemma MessageRows(s: State, db: Database, bytes: seq<byte>, outside: Outside, id: int)
    requires Inv(s) && 1 <= id < s.nextId
    ensures var r := MessageReply(s, db, bytes, outside);
      SeenRows(Delivered(s, MessageOps(bytes, outside), id))
      == if r.Ok? then RowsIn(id, MessageMeant(s, db, bytes, outside)) else []
  {
    hide RequestReply, RequestMeant, RequestOps, Answered, StatusReply, GreetingMeant, ErrorMessages, RowsOf, SeenRows,
      InfoOf, Step;
    NoRowsSeen();
    if |bytes| >= 3 && bytes[0] == MSG_FUNCTION {
      RequestRows(s, db, bytes[1], bytes[3..], outside, id);
      var raised := RequestReply(s, db, bytes[1], bytes[3..], outside);
      ReportedExactly(raised);
      if raised.Err? {
        RaisedForNone(raised.error);
        ErrorRows(InfoOf(raised.error), true, id);
      }
    }
  }

  lemma RaisedForNone(e: Raised)
    ensures InfoOf(e).cursorId == 0
  {
  }

  lemma HeardRows(s: State, db: Database, bytes: seq<byte>, outside: Outside, id: int)
    requires Inv(s) && RectangularState(s) && RectangularStatement(outside.statement)
    requires MessageReply(s, db, bytes, outside).Ok?
    ensures var r := Hear(MessageAwaits(s, bytes, outside), MessageReply(s, db, bytes, outside).value);
      (if r.Ok? then RowsIn(id, r.value) else []) == RowsIn(id, MessageMeant(s, db, bytes, outside))
  {
    hide Hear, MessageReply, MessageAwaits, MessageMeant, MessageClear, RectangularState, RectangularStatement, RowsOf;
    MessageHeard(s, db, bytes, outside);
    if !MessageClear(s, db, bytes, outside) { UnclearMessage(s, db, bytes, outside); }
  }

  /** The rows read in one reply are those the payload's operations deliver, even when it cannot be heard. */
  lemma TurnRows(s: State, db: Database, x: Exchange, id: int)
    requires Inv(s) && RectangularState(s) && RectangularStatement(x.outside.statement) && 1 <= id < s.nextId
    ensures RowsFor(id, PayloadTurn(s, db, x.payload, x.outside))
         == SeenRows(Delivered(s, PayloadOps(x.payload, x.outside), id))
  {
    hide Hear, PayloadReply, PayloadOps, MessageReply, MessageMeant, MessageAwaits, MessageOps, AfterPiggybacks, RowsIn,
      SeenRows, Step, RectangularState, RectangularStatement;
    NoRowsSeen();
    PayloadSplits(s, db, x.payload, x.outside);
    var (closes, rest) := AfterPiggybacks(x.payload);
    ClosingOps(x.payload);
    QuietDeliversNothing(s, closes, id);
    if rest.Ok? {
      var t := Cleared(s, x.payload);
      RunAppend(s, closes, MessageOps(rest.value, x.outside), id);
      NothingBefore(Delivered(t, MessageOps(rest.value, x.outside), id));
      MessageRows(t, db, rest.value, x.outside, id);
      RunRectangular(s, closes);
      if MessageReply(t, db, rest.value, x.outside).Ok? { HeardRows(t, db, rest.value, x.outside, id); }
    }
  }

  /** Over a whole session, the rows a client reads for a cursor in the bytes it is sent are exactly those
      the cursor machine delivers. */
  lemma {:induction false} SessionRows(s: State, db: Database, xs: seq<Exchange>, id: int)
    requires Inv(s) && RectangularState(s) && Sound(xs) && 1 <= id < s.nextId
    ensures RowsRead(id, SessionTurns(s, db, xs)) == SeenRows(Delivered(s, SessionOps(s, db, xs), id))
    decreases |xs|
  {
    hide PayloadTurn, PayloadOps, RowsFor, SeenRows, GoesOn, PayloadDatabase, Step, Delivered, Run, RectangularState,
      RectangularStatement;
    NoRowsSeen();
    if xs == [] {
      NothingDelivered(s, id);
    } else {
      var x := xs[0];
      var ops := PayloadOps(x.payload, x.outside);
      TurnRows(s, db, x, id);
      var turn := PayloadTurn(s, db, x.payload, x.outside);
      if GoesOn(s, db, x) {
        var db' := PayloadDatabase(db, x.payload, x.outside);
        NextRectangular(s, x);
        SessionRows(Next(s, x), db', xs[1..], id);
        var more := SessionOps(Next(s, x), db', xs[1..]);
        RunAppend(s, ops, more, id);
        SeenRowsAppend(Delivered(s, ops, id), Delivered(Next(s, x), more, id));
        FirstTurn(id, turn, SessionTurns(Next(s, x), db', xs[1..]));
      } else {
        assert ops + [] == ops;
        FirstTurn(id, turn, []);
      }
    }
  }

  lemma NothingDelivered(s: State, id: int)
    requires Inv(s)
    ensures Delivered(s, [], id) == []
  {
  }

  lemma FirstTurn(id: int, turn: Turn, turns: seq<Turn>)
    ensures RowsRead(id, [turn] + turns) == RowsFor(id, turn) + RowsRead(id, turns)
    ensures RowsRead(id, []) == [] && RowsFor(id, turn) + [] == RowsFor(id, turn)
  {
    hide RowsFor;
    assert ([turn] + turns)[1..] == turns;
  }

  lemma NextRectangular(s: State, x: Exchange)
    requires Inv(s) && RectangularState(s) && RectangularStatement(x.outside.statement)
    ensures RectangularState(Next(s, x))
  {
    hide RectangularState, PayloadOps, RectangularOp, Step;
    PayloadRectangular(x.payload, x.outside);
    RunRectangular(s, PayloadOps(x.payload, x.outside));
  }

  /** Paging conservation in bytes: over a whole session, what a client reads for a cursor is a prefix of the
      rows the cursor held, and lacks exactly those it still holds, if and only if no reply lost a batch. */
  lemma SessionConserves(s: State, db: Database, xs: seq<Exchange>, id: int)
    requires Inv(s) && RectangularState(s) && Sound(xs) && id in s.cursors
    ensures Inv(Run(s, SessionOps(s, db, xs)))
    ensures var ops, read := SessionOps(s, db, xs), RowsRead(id, SessionTurns(s, db, xs));
      var held := SeenRows(Remaining(s.cursors[id]));
      && (NothingLost(s, ops, id) ==> read <= held)
      && (id in Run(s, ops).cursors ==>
            (read + SeenRows(Remaining(Run(s, ops).cursors[id])) == held <==> NothingLost(s, ops, id)))
  {
    hide SessionOps, SessionTurns, Step, NothingLost, RowsRead, Remaining, Run, Delivered, AllTaken, RectangularState;
    var ops := SessionOps(s, db, xs);
    var sent, held := Delivered(s, ops, id), Remaining(s.cursors[id]);
    SessionRows(s, db, xs, id);
    PagingConserves(s, ops, id);
    TakingConserves(s, ops, id);
    DeliveredIsTaken(s, ops, id);
    if sent <= held { assert SeenRows(sent) <= SeenRows(held); }
    if id in Run(s, ops).cursors { SeenRowsAppend(sent, Remaining(Run(s, ops).cursors[id])); }
  }
}
