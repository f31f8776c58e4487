/** The client's side of the session: what it expects in reply to a request, what it hears, and that it
    hears what the session means. */
module Replies {
  import opened Basics
  import opened PlaceValue
  import opened BigEndian
  import opened Wire
  import opened Messages
  import opened Responses
  import opened Cursors
  import opened Params
  import opened Blocks
  import opened Execution
  import opened Greetings
  import opened Locality
  import opened Requests

  // ---------------------------------------------------------------------
  // What a client expects
  // ---------------------------------------------------------------------

  /** The kind of reply a request calls for: a message stream with rows of a known width, login
      parameters, the binds of a block, the values of RETURNING binds, one of the two handshake messages. */
  datatype Awaited =
    | AStream(columns: nat)
    | ALogin
    | ABlock(kinds: seq<bool>)
    | AReturning(binds: nat)
    | AGreeting(kind: byte)

  datatype Heard =
    | Stream(ms: seq<Message>)
    | Dictionary(pairs: Pairs, last: Message)
    | Slots(slots: seq<Slot>, last: Message)
    | Cells(cells: seq<seq<Option<seq<byte>>>>, ms: seq<Message>)
    | Greeted(greeting: Greeting)

  function TakeStream(columns: nat, s: seq<byte>): Reading<Heard> {
    match TakeMessages(columns, s)
    case Err(e) => Err(e)
    case Ok((ms, rest)) => Ok((Stream(ms), rest))
  }

  /** An opening without parameters, which no accepted login sends. */
  predicate OpensEmpty(bytes: seq<byte>) { |bytes| >= 2 && bytes[0] == MSG_PARAMETER && bytes[1] == 0 }

  function TakeLogin(s: seq<byte>): Reading<Heard> {
    if OpensEmpty(s) then TakeStream(0, s)
    else
      match TakeAuth(s)
      case Err(e) => Err(e)
      case Ok(((pairs, last), rest)) => Ok((Dictionary(pairs, last), rest))
  }

  /** The message after the opening tells a block's binds from an error. */
  function TakeSlots(kinds: seq<bool>, s: seq<byte>): Reading<Heard> {
    match ReadMessage(0, s)
    case Err(e) => Err(e)
    case Ok((_, s1)) =>
      if s1 != [] && s1[0] == MSG_ERROR then TakeStream(0, s)
      else
        match TakeBlock(kinds, s)
        case Err(e) => Err(e)
        case Ok(((slots, last), rest)) => Ok((Slots(slots, last), rest))
  }

  /** The first message tells returned values from an error. */
  function TakeCells(binds: nat, s: seq<byte>): Reading<Heard> {
    if s == [] || s[0] != MSG_ROW_DATA then TakeStream(0, s)
    else
      match TakeReturning(binds, s)
      case Err(e) => Err(e)
      case Ok(((cells, ms), rest)) => Ok((Cells(cells, ms), rest))
  }

  /** The reply at the front of what a client receives, knowing nothing but what it asked for. */
  function TakeReply(awaited: Awaited, s: seq<byte>): Reading<Heard> {
    match awaited
    case AStream(columns) => TakeStream(columns, s)
    case ALogin => TakeLogin(s)
    case ABlock(kinds) => TakeSlots(kinds, s)
    case AReturning(binds) => TakeCells(binds, s)
    case AGreeting(kind) =>
      match TakeGreeting(kind, s)
      case Err(e) => Err(e)
      case Ok((greeting, rest)) => Ok((Greeted(greeting), rest))
  }

  /** What a client makes of a reply on its own. */
  function Hear(awaited: Awaited, bytes: seq<byte>): Result<Heard, BufferError> { Whole(TakeReply(awaited, bytes)) }

  function Streamed(r: Result<seq<Message>, BufferError>): Result<Heard, BufferError> {
    match r
    case Ok(ms) => Ok(Stream(ms))
    case Err(e) => Err(e)
  }

  /** A reply on its own is read by the readers of whole responses. */
  lemma HearForms(awaited: Awaited, bytes: seq<byte>)
    ensures awaited.AStream? ==> Hear(awaited, bytes) == Streamed(ReadResponse(awaited.columns, bytes))
    ensures awaited.ALogin? ==>
      var r := ReadAuthResponse(bytes);
      Hear(awaited, bytes) == if OpensEmpty(bytes) then Streamed(ReadResponse(0, bytes))
                              else if r.Ok? then Ok(Dictionary(r.value.0, r.value.1))
                              else Err(r.error)
    ensures awaited.ABlock? ==>
      var opening, r := ReadMessage(0, bytes), ReadBlock(awaited.kinds, bytes);
      Hear(awaited, bytes) == if opening.Err? then Err(opening.error)
                              else if opening.value.1 != [] && opening.value.1[0] == MSG_ERROR then
                                Streamed(ReadResponse(0, bytes))
                              else if r.Ok? then Ok(Slots(r.value.0, r.value.1))
                              else Err(r.error)
    ensures awaited.AReturning? ==>
      var r := ReadReturning(awaited.binds, bytes);
      Hear(awaited, bytes) == if bytes == [] || bytes[0] != MSG_ROW_DATA then Streamed(ReadResponse(0, bytes))
                              else if r.Ok? then Ok(Cells(r.value.0, r.value.1))
                              else Err(r.error)
  {
    hide TakeMessages, TakeAuth, TakeBlock, TakeReturning, ReadMessage, TakeGreeting;
  }

  /** A reply that is read on its own is read the same in front of anything else. */
  lemma ReplyLocal(awaited: Awaited, s: seq<byte>, t: seq<byte>)
    requires TakeReply(awaited, s).Ok?
    ensures TakeReply(awaited, s + t) == Ok((TakeReply(awaited, s).value.0, TakeReply(awaited, s).value.1 + t))
  {
    hide TakeMessages, TakeAuth, TakeBlock, TakeReturning, TakeGreeting, ReadMessage;
    match awaited
    case AStream(columns) => MessagesLocal(columns, s, t);
    case ALogin =>
      AuthStarts(s);
      if OpensEmpty(s) { MessagesLocal(0, s, t); } else { AuthLocal(s, t); }
    case ABlock(kinds) =>
      MessageLocal(0, s, t);
      var rest := ReadMessage(0, s).value.1;
      if rest == [] { BlockStarts(kinds, s); }
      if rest != [] && rest[0] == MSG_ERROR { MessagesLocal(0, s, t); } else { BlockLocal(kinds, s, t); }
    case AReturning(binds) =>
      MessagesStart(0, s);
      if s[0] != MSG_ROW_DATA { MessagesLocal(0, s, t); } else { ReturningLocal(binds, s, t); }
    case AGreeting(kind) => GreetingLocal(kind, s, t);
  }

  lemma AuthStarts(s: seq<byte>)
    requires TakeLogin(s).Ok?
    ensures |s| >= 2
  {
    hide ReadPairs, TakeMessages, ReadFields;
    if OpensEmpty(s) { return; }
    TwoFields(s);
  }

  lemma TwoFields(s: seq<byte>)
    ensures ReadFields([AU8, AnUB(2)], s).Ok? ==> |s| >= 2
  {
    assert [AU8, AnUB(2)][1..] == [AnUB(2)];
    if s != [] {
      assert ReadField(AU8, s) == Ok((Number(s[0]), s[1..]));
      assert s[1..] == [] ==> ReadFields([AnUB(2)], s[1..]).Err?;
    }
  }

  lemma BlockStarts(kinds: seq<bool>, s: seq<byte>)
    requires ReadMessage(0, s).Ok? && TakeBlock(kinds, s).Ok?
    ensures ReadMessage(0, s).value.1 != []
  {
    hide ReadMessage, TakeRest;
    assert ReadFields(VECTOR_SHAPES, []).Err?;
  }

  lemma MessagesStart(columns: nat, s: seq<byte>)
    ensures TakeMessages(columns, []).Err?
  {
  }

  /** Exactly one ERROR or STATUS message, at the end. */
  predicate ClosesOnce(heard: Heard) {
    match heard
    case Stream(ms) => ClosedOnce(ms)
    case Dictionary(_, last) => Closes(last)
    case Slots(_, last) => Closes(last)
    case Cells(_, ms) => ClosedOnce(ms)
    case Greeted(_) => false
  }

  /** Whatever a client hears is closed exactly once, by an ERROR or STATUS message at its end, except for
      the two handshake messages, which are not. */
  lemma HeardClosesOnce(awaited: Awaited, bytes: seq<byte>)
    ensures Hear(awaited, bytes).Ok? ==> (ClosesOnce(Hear(awaited, bytes).value) <==> !awaited.AGreeting?)
  {
    hide ReadMessage, ReadPairs, ReadVector, ReadSlots, ReadAllReturned, ReadFields, TakeGreeting;
  }

  function CallAwaits(call: Call): Awaited {
    match call
    case Block(_, _, binds, _) => ABlock(Kinds(binds))
    case Returning(cells, _, _) => AReturning(|cells|)
    case _ => AStream(0)
  }

  function Awaits(s: State, fn: byte, body: seq<byte>, outside: Outside): Awaited {
    if fn == FUNC_AUTH_1 || fn == FUNC_AUTH_2 then ALogin
    else if fn == FUNC_EXECUTE then CallAwaits(CallOf(body, outside))
    else if fn == FUNC_FETCH then
      match ReadFetch(body)
      case Ok(((id, _), _)) => AStream(if id in s.cursors then |s.cursors[id].meta| else 0)
      case Err(_) => AStream(0)
    else AStream(0)
  }

  // ---------------------------------------------------------------------
  // What the session means
  // ---------------------------------------------------------------------

  function CursorMeant(s: State, op: Op): Heard
    requires Inv(s) && (op.Serve? || op.Fetch?)
  {
    var reply := Step(s, op).1;
    if reply.Rows? then
      Stream(SeenAll(CursorMessages(op.Serve?, s.cursors[op.id].meta, reply.batch, reply.code == END_OF_ROWS, reply.cursorId)))
    else Stream([])
  }

  function QueryMeant(s: State, meta: seq<Column>, rows: seq<Row>, numIters: int, rowcount: int): Heard
    requires Inv(s)
  {
    var reply := Step(s, Query(meta, rows, numIters)).1;
    if reply.Rows? then Stream(SeenAll(QueryMessages(meta, reply.batch, reply.cursorId)))
    else Stream(ErrorMessages(ErrorInfo(0, [], 0, 0, rowcount, 0), true))
  }

  function CallMeant(s: State, call: Call): Heard
    requires Inv(s)
  {
    match call
    case Queried(meta, rows, numIters, rowcount) => QueryMeant(s, meta, rows, numIters, rowcount)
    case NoText(id, numIters) => CursorMeant(s, Serve(id, numIters))
    case Block(results, _, binds, _) => Slots(SeenSlots(binds, LastChild(s, results)), Error(MoreRows(0)))
    case Returning(cells, count, eocs) => Cells(SeenReturned(cells), ReturningClose(count, eocs))
    case _ => Stream(ErrorMessages(MoreRows(0), true))
  }

  /** What a request that raised nothing is answered with. */
  function RequestMeant(s: State, fn: byte, body: seq<byte>, outside: Outside): Heard
    requires Inv(s)
  {
    if (fn == FUNC_AUTH_1 || fn == FUNC_AUTH_2) && LoginOf(body, outside).Accepted? then
      Dictionary(Collect(LoginOf(body, outside).params, map[]), Closing(fn == FUNC_AUTH_1))
    else if fn == FUNC_EXECUTE then CallMeant(s, CallOf(body, outside))
    else if fn == FUNC_FETCH then
      match ReadFetch(body)
      case Ok(((id, n), _)) => CursorMeant(s, Op.Fetch(id, n))
      case Err(_) => Stream([])
    else if fn == FUNC_COMMIT || fn == FUNC_ROLLBACK then Stream(ErrorMessages(MoreRows(0), false))
    else Stream([Status])
  }

  /** What the reply to a request says: its answer, or the error it raised. */
  function Meant(s: State, db: Database, fn: byte, body: seq<byte>, outside: Outside): Heard
    requires Inv(s)
  {
    var raised := RequestReply(s, db, fn, body, outside);
    if raised.Ok? then RequestMeant(s, fn, body, outside) else Stream(ErrorMessages(InfoOf(raised.error), true))
  }

  /** A block that states as many binds as it describes, and opened a cursor if any of them asks for one. */
  predicate BlockClear(call: Call)
    requires call.Block?
  {
    && call.stated == |call.binds|
    && (call.results != [] || forall i :: 0 <= i < |call.binds| ==> !call.binds[i].cursor)
  }

  /** What a client needs to make out an answer: a login with parameters, a block that is clear. */
  predicate Clear(fn: byte, body: seq<byte>, outside: Outside) {
    && ((fn == FUNC_AUTH_1 || fn == FUNC_AUTH_2) && LoginOf(body, outside).Accepted? ==> outside.auth.params != [])
    && (fn == FUNC_EXECUTE && CallOf(body, outside).Block? && CallOf(body, outside).failure.None? ==>
          BlockClear(CallOf(body, outside)))
  }

  // ---------------------------------------------------------------------
  // Errors are heard whatever was expected
  // ---------------------------------------------------------------------

  lemma ZeroPrint()
    ensures Varint(0, 2) == [0] && Printable(UB(0, 2))
  {
    ConstantsFit();
    assert ToBytes(0, 1) == [0] && ToBytes(0, 2) == [0, 0];
    assert DropZeros([0, 0][1..]) == DropZeros([]) == [];
  }

  lemma PrintFive(a: Field, z: Field)
    requires Printable(a) && Printable(z)
    ensures PrintAll([a, z, z, z, z]) == Print(a) + (Print(z) + (Print(z) + (Print(z) + Print(z))))
  {
    hide Print, Printable;
    OneField(a); OneField(z);
    PrintAppend([z], [z]);
    PrintAppend([z], [z, z]);
    PrintAppend([z], [z, z, z]);
    PrintAppend([a], [z, z, z, z]);
    assert [z] + [z] == [z, z] && [z] + [z, z] == [z, z, z] && [z] + [z, z, z] == [z, z, z, z];
    assert [a] + [z, z, z, z] == [a, z, z, z, z];
  }

  lemma OpeningPrint()
    ensures AllPrintable(MessageFields(OPENING)) && PrintAll(MessageFields(OPENING)) == [8, 0, 0, 0, 0]
  {
    var zero: Field := UB(0, 2);
    ZeroPrint();
    assert MessageFields(OPENING) == [U8(8), zero, zero, zero, zero];
    PrintFive(U8(8), zero);
  }

  /** The bytes of an opening followed by a message with some tag. */
  lemma AfterOpening(tail: seq<byte>)
    ensures AllPrintable(MessageFields(OPENING))
    ensures var bytes := PrintAll(MessageFields(OPENING)) + tail;
      && OpensEmpty(bytes) && bytes[0] == MSG_PARAMETER && ReadMessage(0, bytes) == Ok((OPENING, tail))
  {
    hide ReadMessage, PrintAll;
    OpeningPrint();
    ConstantsFit();
    MessageRead(0, OPENING, tail);
    assert Seen(OPENING) == OPENING;
  }

  lemma ErrorBytes(e: ErrorInfo)
    requires ErrorFits(e)
    ensures var ms := ErrorMessages(e, true);
      && Encoding(ms).Some? && AllPrintable(MessageFields(OPENING)) && AllPrintable(MessageFields(Error(e)))
      && Encoding(ms).value == PrintAll(MessageFields(OPENING)) + PrintAll(MessageFields(Error(e)))
      && PrintAll(MessageFields(Error(e))) != [] && PrintAll(MessageFields(Error(e)))[0] == MSG_ERROR
  {
    hide PrintAll, ErrorFits, MessageFields;
    ErrorMessagesFit(e, true);
    OpeningPrint();
    TwoMessages(OPENING, Error(e));
    TagPrint(Error(e), []);
    assert ErrorMessages(e, true) == [OPENING, Error(e)];
    PrintAppend(MessageFields(OPENING), MessageFields(Error(e)));
    assert PrintAll(MessageFields(Error(e))) + [] == PrintAll(MessageFields(Error(e)));
  }

  /** A reported error is heard as itself by a client that awaits the answer to any request at all. */
  lemma ErrorHeard(awaited: Awaited, e: ErrorInfo)
    requires ErrorFits(e) && !awaited.AGreeting?
    ensures var ms := ErrorMessages(e, true);
      Encoding(ms).Some? && Hear(awaited, Encoding(ms).value) == Ok(Stream(ms))
  {
    hide PrintAll, ErrorFits, MessageFields, ReadResponse, ReadMessage, Encoding;
    ErrorBytes(e);
    AfterOpening(PrintAll(MessageFields(Error(e))));
    ErrorRoundTrip(e, true, if awaited.AStream? then awaited.columns else 0);
    HearForms(awaited, Encoding(ErrorMessages(e, true)).value);
  }

  // ---------------------------------------------------------------------
  // Answers are heard as they are meant
  // ---------------------------------------------------------------------

  /** What the database driver guarantees of a result: every row has one value a column. */
  predicate Rectangular(meta: seq<Column>, rows: seq<Row>) {
    forall i :: 0 <= i < |rows| ==> |rows[i]| == |meta|
  }

  predicate RectangularState(s: State) {
    forall id :: id in s.cursors ==> Rectangular(s.cursors[id].meta, s.cursors[id].rows)
  }

  predicate RectangularCall(call: Call) {
    match call
    case Queried(meta, rows, _, _) => Rectangular(meta, rows)
    case Block(results, _, _, _) => forall i :: 0 <= i < |results| ==> Rectangular(results[i].0, results[i].1)
    case _ => true
  }

  /** The same of what a statement comes to. */
  predicate RectangularStatement(statement: Statement) {
    match statement
    case Sql(meta, rows, _, _) => Rectangular(meta, rows)
    case PlSql(results, _, _) => forall i :: 0 <= i < |results| ==> Rectangular(results[i].0, results[i].1)
    case _ => true
  }

  lemma RectangularRequest(body: seq<byte>, outside: Outside)
    requires RectangularStatement(outside.statement)
    ensures RectangularCall(CallOf(body, outside))
  {
    hide ReadExecute, Rectangular;
  }

  lemma BatchRectangular(c: Cursor, asked: int)
    requires Paged(c) && Rectangular(c.meta, c.rows)
    ensures Rectangular(c.meta, TakeBatch(c, asked))
  {
    var b := TakeBatch(c, asked);
    assert forall i :: 0 <= i < |b| ==> b[i] == c.rows[c.pos + i];
  }

  lemma CursorHeard(s: State, op: Op)
    requires Inv(s) && RectangularState(s) && (op.Serve? || op.Fetch?) && CursorReply(s, op).Ok?
    ensures op.id in s.cursors
    ensures Hear(AStream(|s.cursors[op.id].meta|), CursorReply(s, op).value) == Ok(CursorMeant(s, op))
    ensures op.Serve? ==> Hear(AStream(0), CursorReply(s, op).value) == Ok(CursorMeant(s, op))
  {
    hide ReadResponse, Encoding, CursorMessages, DescribeFits, VarintFits, TakeBatch, Encodes;
    var reply := Step(s, op).1;
    var c := s.cursors[op.id];
    BatchRectangular(c, Asked(op, c));
    CursorRoundTrip(op.Serve?, c.meta, reply.batch, reply.code == END_OF_ROWS, op.id);
    HearForms(AStream(|c.meta|), CursorReply(s, op).value);
    HearForms(AStream(0), CursorReply(s, op).value);
    if op.Serve? {
      ServeRoundTrip(c.meta, reply.batch, reply.code == END_OF_ROWS, op.id, 0);
    }
  }

  lemma QueryHeard(s: State, meta: seq<Column>, rows: seq<Row>, numIters: int, rowcount: int)
    requires Inv(s) && Rectangular(meta, rows) && QueryReply(s, meta, rows, numIters, rowcount).Ok?
    ensures Hear(AStream(0), QueryReply(s, meta, rows, numIters, rowcount).value)
         == Ok(QueryMeant(s, meta, rows, numIters, rowcount))
  {
    hide ReadResponse, Encoding, QueryMessages, ErrorMessages, DescribeFits, VarintFits, Encodes, ErrorFits;
    var reply := Step(s, Query(meta, rows, numIters)).1;
    ErrorRoundTrip(ErrorInfo(0, [], 0, 0, rowcount, 0), true, 0);
    HearForms(AStream(0), QueryReply(s, meta, rows, numIters, rowcount).value);
    if reply.Rows? {
      var first := FirstBatch(rows, numIters);
      assert forall i :: 0 <= i < |first| ==> first[i] == rows[i];
      QueryRoundTrip(meta, reply.batch, reply.cursorId, 0);
    }
  }

  lemma BlockBytes(stated: int, binds: seq<Bind>, child: Child)
    requires BlockFits(stated, binds, child)
    ensures var bytes := BlockEncoding(stated, binds, child).value;
      exists tail: seq<byte> :: bytes == PrintAll(MessageFields(OPENING)) + tail && tail != [] && tail[0] == MSG_IO_VECTOR
  {
    hide PrintAll, MessageFields, SlotsFields, SlotFits, VarintFits;
    BlockPrintable(stated, binds, child);
    OpeningPrint();
    var rest := (VectorHead(stated) + Directions(|binds|))
      + (SlotsFields(binds, child) + MessageFields(Error(MoreRows(0))));
    assert BlockFields(stated, binds, child) == MessageFields(OPENING) + rest;
    PrintableAppend(MessageFields(OPENING), rest);
    PrintAppend(MessageFields(OPENING), rest);
    FirstByte(rest);
    assert rest[0] == U8(MSG_IO_VECTOR);
  }

  lemma FirstByte(fs: seq<Field>)
    requires AllPrintable(fs) && fs != [] && fs[0].U8?
    ensures PrintAll(fs) != [] && PrintAll(fs)[0] == fs[0].v % 256
  {
    assert PrintAll(fs) == Print(fs[0]) + PrintAll(fs[1..]);
  }

  /** A client that awaits a block's binds hears them exactly when every cursor bind has a cursor and as many
      binds are stated as described. It never takes the answer for a stream of rows. */
  lemma BlockHeard(stated: int, binds: seq<Bind>, child: Child)
    requires BlockFits(stated, binds, child)
    ensures var r := Hear(ABlock(Kinds(binds)), BlockEncoding(stated, binds, child).value);
      && (r == Ok(Slots(SeenSlots(binds, child), Error(MoreRows(0)))) <==> Complete(binds, child) && stated == |binds|)
      && (r.Ok? ==> r.value.Slots?)
  {
    hide ReadMessage, ReadBlock, BlockEncoding, BlockFits, SeenSlots, Complete, PrintAll, Hear;
    BlockFitsIfEncoded(stated, binds, child);
    BlockBytes(stated, binds, child);
    BlockRoundTrip(stated, binds, child);
    var bytes := BlockEncoding(stated, binds, child).value;
    var tail: seq<byte> :| bytes == PrintAll(MessageFields(OPENING)) + tail && tail != [] && tail[0] == MSG_IO_VECTOR;
    AfterOpening(tail);
    HearForms(ABlock(Kinds(binds)), bytes);
  }

  lemma ReturningHeard(cells: seq<Row>, count: int, eocs: int)
    requires ReturningFits(cells, count, eocs)
    ensures Hear(AReturning(|cells|), ReturningEncoding(cells, count, eocs).value)
         == Ok(Cells(SeenReturned(cells), ReturningClose(count, eocs)))
  {
    hide ReadReturning, ReturningFits, SeenReturned, ReturningClose, AllReturned, ResponseFields, PrintAll, ReadResponse,
      Hear;
    ReturningRoundTrip(cells, count, eocs);
    HearForms(AReturning(|cells|), ReturningEncoding(cells, count, eocs).value);
    FirstByte(ReturningFields(cells, count, eocs));
  }

  lemma NonzeroPrint(v: nat, width: nat)
    requires width < 128 && VarintFits(v, width) && v > 0
    ensures Varint(v, width)[0] != 0
  {
    FromDropZeros(ToBytes(v, width));
    RoundTrip(v, width);
    assert FromBytes([]) == 0;
  }

  lemma LoginOpens(ps: seq<Param>, firstPhase: bool)
    requires ParamsFit(ps)
    ensures OpensEmpty(AuthEncoding(ps, firstPhase).value) <==> ps == []
  {
    hide PrintAll, ParamsFields, MessageFields, ReadFields, ParamMessage;
    AuthLayout(ps, Closing(firstPhase));
    var count: Field := UB(|ps|, 2);
    PrintAppend([U8(MSG_PARAMETER)], [count]);
    assert [U8(MSG_PARAMETER)] + [count] == [U8(MSG_PARAMETER), count];
    assert Printable(count);
    OneField(U8(MSG_PARAMETER)); OneField(count);
    if ps == [] { ZeroPrint(); } else { NonzeroPrint(|ps|, 2); }
  }

  lemma EmptyLoginBytes(firstPhase: bool)
    requires AuthEncoding([], firstPhase).Some?
    ensures var last := Closing(firstPhase);
      && AllPrintable(MessageFields(last)) && PrintAll(MessageFields(last)) != []
      && PrintAll(MessageFields(last))[0] == Tag(last)
      && AuthEncoding([], firstPhase).value == [8, 0] + PrintAll(MessageFields(last))
  {
    hide PrintAll, MessageFields, Closing;
    var last := Closing(firstPhase);
    AuthLayout([], last);
    EmptyPrint();
    ZeroPrint();
    var count: Field := UB(0, 2);
    PrintAppend([U8(MSG_PARAMETER)], [count]);
    assert [U8(MSG_PARAMETER)] + [count] == [U8(MSG_PARAMETER), count];
    OneField(U8(MSG_PARAMETER)); OneField(count);
    TagPrint(last, []);
    NothingAfter(PrintAll(MessageFields(last)));
    NothingBefore(PrintAll(MessageFields(last)));
  }

  /** Without parameters the tag of the closing message is taken for the length of a number. */
  lemma EmptyLogin(firstPhase: bool)
    ensures AuthEncoding([], firstPhase).Some? ==> ReadResponse(0, AuthEncoding([], firstPhase).value).Err?
  {
    hide PrintAll, MessageFields, AuthEncoding, ReadWords;
    if AuthEncoding([], firstPhase).Some? {
      EmptyLoginBytes(firstPhase);
      var tail := PrintAll(MessageFields(Closing(firstPhase)));
      WordsMisread(tail);
      var bytes := [8, 0] + tail;
      assert bytes[1..] == [0] + tail;
      assert ReadMessage(0, bytes).Err?;
    }
  }

  lemma WordsMisread(tail: seq<byte>)
    requires tail != [] && 2 < tail[0] < 128
    ensures ReadWords([0] + tail).Err?
  {
    hide ReadFixed;
    var s := [0] + tail;
    assert s[1..] == tail;
    assert ReadField(AnUB(2), s) == Ok((Number(0), tail));
    OneRead(AnUB(2), s);
    var shapes := seq(0, _ => AnUB(4)) + [AnUB(2), AnUB(2), AnUB(2)];
    assert shapes[0] == AnUB(2);
    assert ReadField(AnUB(2), tail).Err?;
    assert ReadFields(shapes, tail).Err?;
  }

  lemma OneRead(sh: Shape, s: seq<byte>)
    requires ReadField(sh, s).Ok?
    ensures ReadFields([sh], s) == Ok(([ReadField(sh, s).value.0], ReadField(sh, s).value.1))
  {
    hide ReadField;
    assert [sh][1..] == [];
    var (v, rest) := ReadField(sh, s).value;
    assert [v] + [] == [v];
  }

  /** A client that awaits a login hears its parameters exactly when there are any, and nothing otherwise. */
  lemma LoginHeard(ps: seq<Param>, firstPhase: bool)
    requires ParamsFit(ps)
    ensures var r := Hear(ALogin, AuthEncoding(ps, firstPhase).value);
      && (r == Ok(Dictionary(Collect(ps, map[]), Closing(firstPhase))) <==> ps != [])
      && (ps == [] ==> r.Err?)
  {
    hide ReadAuthResponse, ParamsFit, OpensEmpty, ReadResponse, Closing, ParamMessage, MessageFields, Hear;
    LoginOpens(ps, firstPhase);
    AuthRoundTrip(ps, Closing(firstPhase));
    HearForms(ALogin, AuthEncoding(ps, firstPhase).value);
    if ps == [] { EmptyLogin(firstPhase); }
  }

  lemma CallHeard(s: State, call: Call)
    requires Inv(s) && RectangularState(s) && RectangularCall(call) && CallReply(s, call).Ok?
    ensures Hear(CallAwaits(call), CallReply(s, call).value) == Ok(CallMeant(s, call))
       <==> (call.Block? ==> Complete(call.binds, LastChild(s, call.results)) && call.stated == |call.binds|)
  {
    hide Encoding, BlockEncoding, ReturningEncoding, CursorReply, QueryReply, Step, Hear, ErrorFits, ErrorMessages,
      BlockFits, ReturningFits, Complete, SeenSlots, SeenReturned, ReturningClose, Kinds, CursorMeant, QueryMeant, LastChild,
      RectangularState, RectangularCall;
    match call
    case Queried(meta, rows, numIters, rowcount) =>
      assert Rectangular(meta, rows) by { CallRows(call); }
      QueryHeard(s, meta, rows, numIters, rowcount);
    case NoText(id, numIters) =>
      CursorHeard(s, Serve(id, numIters));
    case Block(results, stated, binds, failure) =>
      BlockFitsIfEncoded(stated, binds, LastChild(s, results));
      BlockHeard(stated, binds, LastChild(s, results));
    case Returning(cells, count, eocs) =>
      ReturningFitsIfEncoded(cells, count, eocs);
      ReturningHeard(cells, count, eocs);
    case Acknowledged =>
      AcknowledgedHeard(AStream(0), MoreRows(0), true);
    case Raises(_) =>
  }

  lemma CallRows(call: Call)
    requires RectangularCall(call) && call.Queried?
    ensures Rectangular(call.meta, call.rows)
  {
  }

  lemma BlockFitsIfEncoded(stated: int, binds: seq<Bind>, child: Child)
    ensures BlockEncoding(stated, binds, child).Some? <==> BlockFits(stated, binds, child)
  {
    hide BlockFits;
  }

  lemma ReturningFitsIfEncoded(cells: seq<Row>, count: int, eocs: int)
    ensures ReturningEncoding(cells, count, eocs).Some? <==> ReturningFits(cells, count, eocs)
  {
    hide ReturningFits;
  }

  lemma AcknowledgedHeard(awaited: Awaited, e: ErrorInfo, withParams: bool)
    requires awaited.AStream? && Encoding(ErrorMessages(e, withParams)).Some?
    ensures Hear(awaited, Encoding(ErrorMessages(e, withParams)).value) == Ok(Stream(ErrorMessages(e, withParams)))
  {
    hide Encoding, ErrorMessages, ErrorFits, ReadResponse, Hear;
    ErrorRoundTrip(e, withParams, awaited.columns);
    HearForms(awaited, Encoding(ErrorMessages(e, withParams)).value);
  }

  lemma StatusHeard(columns: nat)
    ensures Encoding([Status]).Some? && Hear(AStream(columns), Encoding([Status]).value) == Ok(Stream([Status]))
  {
    hide Encoding, ReadResponse, Hear;
    StatusRoundTrip(columns);
    HearForms(AStream(columns), Encoding([Status]).value);
  }

  lemma FetchHeard(s: State, body: seq<byte>, outside: Outside)
    requires Inv(s) && RectangularState(s) && ReadFetch(body).Ok?
    requires CursorReply(s, Op.Fetch(ReadFetch(body).value.0.0, ReadFetch(body).value.0.1)).Ok?
    ensures var op := Op.Fetch(ReadFetch(body).value.0.0, ReadFetch(body).value.0.1);
      Hear(Awaits(s, FUNC_FETCH, body, outside), CursorReply(s, op).value) == Ok(CursorMeant(s, op))
  {
    hide Hear, CursorReply, CursorMeant, ReadFetch, RectangularState;
    CursorHeard(s, Op.Fetch(ReadFetch(body).value.0.0, ReadFetch(body).value.0.1));
  }

  /** An answer is heard as it is meant exactly when it is a clear one. */
  lemma AnswerHeard(s: State, db: Database, fn: byte, body: seq<byte>, outside: Outside)
    requires Inv(s) && RectangularState(s) && RectangularStatement(outside.statement)
    requires RequestReply(s, db, fn, body, outside).Ok?
    ensures Hear(Awaits(s, fn, body, outside), RequestReply(s, db, fn, body, outside).value)
            == Ok(RequestMeant(s, fn, body, outside))
       <==> Clear(fn, body, outside)
  {
    hide Encoding, AuthEncoding, CallReply, CursorReply, ReadFetch, Hear, CallMeant, CallAwaits, CursorMeant, ErrorMessages,
      ParamsFit, ErrorFits, Closing, RectangularState, RectangularCall, RectangularStatement, Complete, CallOf, LoginOf,
      BlockClear;
    if fn == FUNC_AUTH_1 || fn == FUNC_AUTH_2 {
      var ps := LoginOf(body, outside).params;
      ParamsFitIfEncoded(ps, fn == FUNC_AUTH_1);
      LoginHeard(ps, fn == FUNC_AUTH_1);
      AcceptedOutside(body, outside);
    } else if fn == FUNC_EXECUTE {
      RectangularRequest(body, outside);
      var call := CallOf(body, outside);
      CallHeard(s, call);
      if call.Block? { CompleteIfOpened(s, call); }
    } else if fn == FUNC_FETCH {
      FetchHeard(s, body, outside);
    } else if fn == FUNC_COMMIT || fn == FUNC_ROLLBACK {
      AcknowledgedHeard(AStream(0), MoreRows(0), false);
    } else {
      StatusHeard(0);
    }
  }

  lemma AcceptedOutside(body: seq<byte>, outside: Outside)
    ensures LoginOf(body, outside).Accepted? ==> LoginOf(body, outside) == outside.auth
  {
    hide ReadLogin;
  }

  lemma ParamsFitIfEncoded(ps: seq<Param>, firstPhase: bool)
    ensures AuthEncoding(ps, firstPhase).Some? <==> ParamsFit(ps)
  {
    hide ParamsFit;
  }

  lemma CompleteIfOpened(s: State, call: Call)
    requires Inv(s) && call.Block? && CallReply(s, call).Ok?
    ensures call.failure.None?
    ensures Complete(call.binds, LastChild(s, call.results)) && call.stated == |call.binds| <==> BlockClear(call)
  {
    hide BlockEncoding;
  }

  /** Every function request, failing ones included, is answered, unless it raises an error too wide to
      write. The client hears exactly what the session means, closed once; the one exception is an
      answer that is not clear: a login without parameters, or a block that states other binds than it
      describes, or has a cursor bind for which it opened no cursor. */
  lemma RequestAnswered(s: State, db: Database, fn: byte, body: seq<byte>, outside: Outside)
    requires Inv(s) && RectangularState(s) && RectangularStatement(outside.statement)
    ensures var raised := RequestReply(s, db, fn, body, outside);
      var r := Answered(raised);
      && (r.Ok? <==> raised.Ok? || Reportable(raised.error))
      && (r.Ok? ==> (Hear(Awaits(s, fn, body, outside), r.value) == Ok(Meant(s, db, fn, body, outside))
                     <==> raised.Err? || Clear(fn, body, outside)))
  {
    hide Encoding, RequestReply, ErrorMessages, ErrorFits, Reportable, Hear, RequestMeant, Clear, RectangularState,
      RectangularStatement, InfoOf, CallAwaits, CallOf, ReadFetch;
    var raised := RequestReply(s, db, fn, body, outside);
    ReportedExactly(raised);
    if raised.Ok? {
      AnswerHeard(s, db, fn, body, outside);
    } else {
      ReportFits(raised.error);
      NoGreeting(s, fn, body, outside);
      if Reportable(raised.error) {
        ErrorHeard(Awaits(s, fn, body, outside), InfoOf(raised.error));
      }
    }
  }

  lemma NoGreeting(s: State, fn: byte, body: seq<byte>, outside: Outside)
    ensures !Awaits(s, fn, body, outside).AGreeting?
  {
    hide ReadFetch, CallOf;
  }

  // ---------------------------------------------------------------------
  // Payloads
  // ---------------------------------------------------------------------

  predicate Greets(bytes: seq<byte>) { bytes != [] && (bytes[0] == MSG_PROTOCOL || bytes[0] == MSG_DATA_TYPES) }

  function MessageAwaits(s: State, bytes: seq<byte>, outside: Outside): Awaited {
    if Greets(bytes) then AGreeting(bytes[0])
    else if |bytes| < 3 || bytes[0] != MSG_FUNCTION then AStream(0)
    else Awaits(s, bytes[1], bytes[3..], outside)
  }

  function MessageMeant(s: State, db: Database, bytes: seq<byte>, outside: Outside): Heard
    requires Inv(s)
  {
    if Greets(bytes) then Greeted(GreetingMeant(bytes[0]))
    else if |bytes| < 3 || bytes[0] != MSG_FUNCTION then Stream([Status])
    else Meant(s, db, bytes[1], bytes[3..], outside)
  }

  /** The message of a payload is an answer the client can make out. */
  predicate MessageClear(s: State, db: Database, bytes: seq<byte>, outside: Outside)
    requires Inv(s)
  {
    |bytes| >= 3 && bytes[0] == MSG_FUNCTION ==>
      RequestReply(s, db, bytes[1], bytes[3..], outside).Err? || Clear(bytes[1], bytes[3..], outside)
  }

  lemma GreetingHeard(kind: byte)
    ensures Hear(AGreeting(kind), GreetingBytes(kind)) == Ok(Greeted(GreetingMeant(kind)))
  {
    hide TakeGreeting, GreetingBytes;
    GreetingRead(kind, []);
    NothingAfter(GreetingBytes(kind));
  }

  lemma MessageHeard(s: State, db: Database, bytes: seq<byte>, outside: Outside)
    requires Inv(s) && RectangularState(s) && RectangularStatement(outside.statement)
    ensures var r := MessageReply(s, db, bytes, outside);
      r.Ok? ==>
        (Hear(MessageAwaits(s, bytes, outside), r.value) == Ok(MessageMeant(s, db, bytes, outside))
         <==> MessageClear(s, db, bytes, outside))
  {
    hide Hear, RequestReply, Answered, StatusReply, Awaits, Meant, Clear, Reportable, RectangularState, RectangularStatement,
      Encoding, GreetingBytes, GreetingMeant;
    StatusReported();
    StatusHeard(0);
    if Greets(bytes) { GreetingHeard(bytes[0]); }
    if |bytes| >= 3 { RequestAnswered(s, db, bytes[1], bytes[3..], outside); }
  }

  /** An answer that is not clear is never taken for a stream of rows, and is not meant as one. */
  lemma UnclearAnswer(s: State, db: Database, fn: byte, body: seq<byte>, outside: Outside)
    requires Inv(s) && RequestReply(s, db, fn, body, outside).Ok? && !Clear(fn, body, outside)
    ensures !RequestMeant(s, fn, body, outside).Stream?
    ensures var r := Hear(Awaits(s, fn, body, outside), RequestReply(s, db, fn, body, outside).value);
      r.Ok? ==> !r.value.Stream?
  {
    hide AuthEncoding, BlockEncoding, Hear, ParamsFit, BlockFits, BlockClear, CallOf, LoginOf, SeenSlots, Closing, Complete,
      LastChild, Kinds;
    if fn == FUNC_EXECUTE {
      var call := CallOf(body, outside);
      BlockFitsIfEncoded(call.stated, call.binds, LastChild(s, call.results));
      BlockHeard(call.stated, call.binds, LastChild(s, call.results));
    } else {
      AcceptedOutside(body, outside);
      ParamsFitIfEncoded(outside.auth.params, fn == FUNC_AUTH_1);
      LoginHeard(outside.auth.params, fn == FUNC_AUTH_1);
    }
  }

  lemma UnclearMessage(s: State, db: Database, bytes: seq<byte>, outside: Outside)
    requires Inv(s) && MessageReply(s, db, bytes, outside).Ok? && !MessageClear(s, db, bytes, outside)
    ensures !MessageMeant(s, db, bytes, outside).Stream?
    ensures var r := Hear(MessageAwaits(s, bytes, outside), MessageReply(s, db, bytes, outside).value);
      r.Ok? ==> !r.value.Stream?
  {
    hide Hear, RequestReply, RequestMeant, Awaits, Clear, StatusReply, GreetingBytes;
    UnclearAnswer(s, db, bytes[1], bytes[3..], outside);
  }

  /** One exchange of a session: the reply, what the client awaits, what the session means. */
  datatype Turn = Turn(reply: Bytes, awaited: Awaited, meant: Heard) {
    /** The reply, if there is one, is heard as it is meant. */
    predicate Understood() { reply.Ok? ==> Hear(awaited, reply.value) == Ok(meant) }
  }

  /** The cursor table once the piggybacks of a payload are done with it. */
  function Cleared(s: State, payload: seq<byte>): (t: State)
    requires Inv(s)
    ensures Inv(t)
  {
    RunInv(s, AfterPiggybacks(payload).0);
    Run(s, AfterPiggybacks(payload).0)
  }

  function PayloadTurn(s: State, db: Database, payload: seq<byte>, outside: Outside): Turn
    requires Inv(s)
  {
    var t, rest := Cleared(s, payload), AfterPiggybacks(payload).1;
    Turn(PayloadReply(s, db, payload, outside),
         if rest.Ok? then MessageAwaits(t, rest.value, outside) else AStream(0),
         if rest.Ok? then MessageMeant(t, db, rest.value, outside) else Stream([]))
  }

  /** The answer to a payload is clear; errors always are. */
  predicate PayloadClear(s: State, db: Database, payload: seq<byte>, outside: Outside)
    requires Inv(s)
  {
    var rest := AfterPiggybacks(payload).1;
    rest.Ok? ==> MessageClear(Cleared(s, payload), db, rest.value, outside)
  }

  lemma {:induction false} ClosingOps(payload: seq<byte>)
    ensures forall i :: 0 <= i < |AfterPiggybacks(payload).0| ==> AfterPiggybacks(payload).0[i].Close?
    decreases |payload|
  {
    hide Piggyback;
    if IsPiggyback(payload) && Piggyback(payload).1.Ok? { ClosingOps(Piggyback(payload).1.value); }
  }

  /** The reply to a payload, when there is one, is heard as meant exactly when it is clear. */
  lemma PayloadHeard(s: State, db: Database, payload: seq<byte>, outside: Outside)
    requires Inv(s) && RectangularState(s) && RectangularStatement(outside.statement)
    ensures var turn := PayloadTurn(s, db, payload, outside);
      turn.reply.Ok? ==> (turn.Understood() <==> PayloadClear(s, db, payload, outside))
  {
    hide Hear, PayloadReply, MessageReply, MessageAwaits, MessageMeant, MessageClear, AfterPiggybacks, RectangularState,
      RectangularStatement, PayloadOps, PayloadDatabase, MessageOps;
    PayloadSplits(s, db, payload, outside);
    var (closes, rest) := AfterPiggybacks(payload);
    ClosingOps(payload);
    RunRectangular(s, closes);
    if rest.Ok? { MessageHeard(Cleared(s, payload), db, rest.value, outside); }
  }

  predicate RectangularOp(op: Op) {
    (op.Query? || op.OpenRef?) ==> Rectangular(op.meta, op.rows)
  }

  lemma StepRectangular(s: State, op: Op)
    requires Inv(s) && RectangularState(s) && RectangularOp(op)
    ensures RectangularState(Step(s, op).0)
  {
    if op.Query? {
      var first := FirstBatch(op.rows, op.numIters);
      assert forall i :: 0 <= i < |op.rows| - |first| ==> op.rows[|first|..][i] == op.rows[|first| + i];
    }
  }

  lemma {:induction false} RunRectangular(s: State, ops: seq<Op>)
    requires Inv(s) && RectangularState(s) && forall i :: 0 <= i < |ops| ==> RectangularOp(ops[i])
    ensures RectangularState(Run(s, ops))
    decreases |ops|
  {
    hide Step, RectangularOp, RectangularState;
    if ops != [] {
      StepInv(s, ops[0]);
      StepRectangular(s, ops[0]);
      RunRectangular(Step(s, ops[0]).0, ops[1..]);
    }
  }

  lemma {:induction false} PayloadRectangular(payload: seq<byte>, outside: Outside)
    requires RectangularStatement(outside.statement)
    ensures forall i :: 0 <= i < |PayloadOps(payload, outside)| ==> RectangularOp(PayloadOps(payload, outside)[i])
    decreases |payload|
  {
    hide Piggyback, ReadFetch, CallOf, RectangularStatement;
    if IsPiggyback(payload) {
      var (ids, rest) := Piggyback(payload);
      if rest.Ok? { PayloadRectangular(rest.value, outside); }
    } else if |payload| >= 3 {
      RectangularRequest(payload[3..], outside);
    }
  }
}
