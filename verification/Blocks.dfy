/** The responses to PL/SQL blocks and to RETURNING statements: values that go back through binds. */
module Blocks {
  import opened Basics
  import opened PlaceValue
  import opened Wire
  import opened Buffer
  import opened Messages
  import opened Responses

  const MSG_IO_VECTOR := 11
  const DIR_INOUT := 48

  /** A bind of a block: a cursor or a scalar, and the value it has. */
  datatype Bind = Bind(cursor: bool, value: Cell)

  /** The REF CURSOR a block opened last; id 0 when it opened none. */
  datatype Child = Child(columns: seq<Column>, id: int)

  /** What a client finds in a bind. */
  datatype Slot = Opened(columns: seq<Column>, id: int) | Given(value: Option<seq<byte>>)

  // ---------------------------------------------------------------------
  // What is written
  // ---------------------------------------------------------------------

  /** The number of binds the request states, and no iterations to speak of. */
  function VectorHead(stated: int): seq<Field> {
    [U8(MSG_IO_VECTOR), U8(0), UB(stated % 256, 2), UB(stated / 256, 4), UB(1, 4), UB(0, 2), UB(0, 2), UB(0, 2)]
  }

  function Directions(n: nat): seq<Field> { seq(n, _ => U8(DIR_INOUT)) }

  function SlotBody(b: Bind, child: Child): seq<Field> {
    if b.cursor && child.id != 0 then [U8(1)] + (DescribeFields(child.columns) + [UB(child.id, 2)])
    else [Octets(CellData(b.value))]
  }

  function SlotFields(b: Bind, child: Child): seq<Field> { [U8(MSG_ROW_DATA)] + (SlotBody(b, child) + [UB(0, 4)]) }

  function SlotsFields(binds: seq<Bind>, child: Child): seq<Field> {
    if binds == [] then [] else SlotFields(binds[0], child) + SlotsFields(binds[1..], child)
  }

  function BlockFields(stated: int, binds: seq<Bind>, child: Child): seq<Field> {
    MessageFields(OPENING) + (VectorHead(stated) + Directions(|binds|))
    + (SlotsFields(binds, child) + MessageFields(Error(MoreRows(0))))
  }

  predicate ChildFits(child: Child) { DescribeFits(child.columns) && VarintFits(child.id, 2) }

  predicate SlotFits(b: Bind, child: Child) { if b.cursor && child.id != 0 then ChildFits(child) else b.value.Encoded? }

  predicate BlockFits(stated: int, binds: seq<Bind>, child: Child) {
    VarintFits(stated / 256, 4) && forall i :: 0 <= i < |binds| ==> SlotFits(binds[i], child)
  }

  /** The rows one RETURNING bind gets back. */
  function ReturnedCells(cells: Row): seq<Field> {
    if cells == [] then [] else [Octets(CellData(cells[0])), UB(0, 4)] + ReturnedCells(cells[1..])
  }

  function ReturnedFields(cells: Row): seq<Field> { [UB(|cells|, 4)] + ReturnedCells(cells) }

  function AllReturned(binds: seq<Row>): seq<Field> {
    if binds == [] then [] else ReturnedFields(binds[0]) + AllReturned(binds[1..])
  }

  /** Scratch parameters and the closing ERROR(0) with its row count. */
  function ReturningClose(rowcount: int, eocs: int): seq<Message> {
    [Parameters([0, 0, 0, 0, 0, 0]), Error(ErrorInfo(0, [], 0, 0, rowcount, eocs))]
  }

  function ReturningFields(binds: seq<Row>, rowcount: int, eocs: int): seq<Field> {
    [U8(MSG_ROW_DATA)] + (AllReturned(binds) + ResponseFields(ReturningClose(rowcount, eocs)))
  }

  predicate ReturnedFits(cells: Row) { VarintFits(|cells|, 4) && RowEncodes(cells) }

  predicate ReturningFits(binds: seq<Row>, rowcount: int, eocs: int) {
    && VarintFits(rowcount, 8) && VarintFits(eocs, 4)
    && forall i :: 0 <= i < |binds| ==> ReturnedFits(binds[i])
  }

  // ---------------------------------------------------------------------
  // The writers
  // ---------------------------------------------------------------------

  method WriteVector(w: TTCWriter, stated: int, n: nat) returns (ok: Outcome)
    requires w.Valid()
    modifies w
    ensures w.Valid()
    ensures ok.Pass? <==> VarintFits(stated / 256, 4)
    ensures ok.Pass? ==> w.Fields() == old(w.Fields()) + (VectorHead(stated) + Directions(n))
  {
    hide TTCWriter.Valid, VarintFits;
    ConstantsFit();
    SmallFits(stated % 256);
    w.Group();
    w.U8(MSG_IO_VECTOR);
    w.U8(0);                            // flag
    var _ := w.UB(stated % 256, 2);         // num requests
    :- w.UB(stated / 256, 4);               // num iters
    var _ := w.UB(1, 4);                // iters this time
    w.Zero(2);                          // uac buffer length
    w.Zero(2);                          // bit vector size
    w.Zero(2);                          // rowid size
    assert w.group == VectorHead(stated);
    WriteDirections(w, n);
    return Pass;
  }

  method WriteDirections(w: TTCWriter, n: nat)
    requires w.Valid()
    modifies w
    ensures w.Valid() && w.closed == old(w.closed) && w.group == old(w.group) + Directions(n)
  {
    hide TTCWriter.Valid;
    for i := 0 to n
      invariant w.Valid() && w.closed == old(w.closed)
      invariant w.group == old(w.group) + Directions(n)[..i]
    {
      w.U8(DIR_INOUT);
    }
  }

  lemma SmallFits(v: int)
    requires 0 <= v < 65536
    ensures VarintFits(v, 2)
  {
    assert Pow(256, 2) == 65536;
  }

  /** A REF CURSOR in a bind: marker, description, id. */
  method WriteChild(w: TTCWriter, child: Child) returns (ok: Outcome)
    requires w.Valid()
    modifies w
    ensures w.Valid()
    ensures ok.Pass? <==> ChildFits(child)
    ensures ok.Pass? ==> w.Fields() == old(w.Fields()) + ([U8(1)] + (DescribeFields(child.columns) + [UB(child.id, 2)]))
  {
    hide TTCWriter.Valid, DescribeFits, DescribeFields, VarintFits;
    w.Group();
    ghost var f := w.closed;
    w.U8(1);
    :- WriteDescribeInfo(w, child.columns);
    w.Group();
    :- w.UB(child.id, 2);
    Associate(f + [U8(1)], DescribeFields(child.columns), [UB(child.id, 2)]);
    Associate(f, [U8(1)], DescribeFields(child.columns) + [UB(child.id, 2)]);
    return Pass;
  }

  method WriteSlot(w: TTCWriter, b: Bind, child: Child) returns (ok: Outcome)
    requires w.Valid()
    modifies w
    ensures w.Valid()
    ensures ok.Pass? <==> SlotFits(b, child)
    ensures ok.Pass? ==> w.Fields() == old(w.Fields()) + SlotFields(b, child)
  {
    hide TTCWriter.Valid, ChildFits, DescribeFields;
    w.Group();
    ghost var f := w.closed;
    w.U8(MSG_ROW_DATA);
    if b.cursor && child.id != 0 {
      :- WriteChild(w, child);
    } else if b.value.Encoded? {
      w.LengthPrefixed(CellData(b.value));
    } else {
      return Raise;
    }
    w.Group();
    assert w.closed == f + [U8(MSG_ROW_DATA)] + SlotBody(b, child);
    w.Zero(4);
    Associate(f + [U8(MSG_ROW_DATA)], SlotBody(b, child), [UB(0, 4)]);
    Associate(f, [U8(MSG_ROW_DATA)], SlotBody(b, child) + [UB(0, 4)]);
    return Pass;
  }

  lemma {:induction false} SlotsStep(binds: seq<Bind>, child: Child, i: nat)
    requires i < |binds|
    ensures SlotsFields(binds[..i + 1], child) == SlotsFields(binds[..i], child) + SlotFields(binds[i], child)
  {
    hide SlotFields;
    if i == 0 {
      assert binds[..1] == [binds[0]] && binds[..0] == [];
      assert SlotsFields([binds[0]], child) == SlotFields(binds[0], child) + SlotsFields([], child);
    } else {
      SlotsStep(binds[1..], child, i - 1);
      assert binds[..i + 1][1..] == binds[1..][..i] && binds[..i][1..] == binds[1..][..i - 1];
    }
  }

  method WriteSlots(w: TTCWriter, binds: seq<Bind>, child: Child) returns (ok: Outcome)
    requires w.Valid()
    modifies w
    ensures w.Valid()
    ensures ok.Pass? <==> forall i :: 0 <= i < |binds| ==> SlotFits(binds[i], child)
    ensures ok.Pass? ==> w.Fields() == old(w.Fields()) + SlotsFields(binds, child)
  {
    hide TTCWriter.Valid, TTCWriter.Fields, SlotFits, SlotFields;
    ghost var f := w.Fields();
    assert f + SlotsFields(binds[..0], child) == f;
    var i := 0;
    while i < |binds|
      invariant 0 <= i <= |binds| && w.Valid()
      invariant forall k :: 0 <= k < i ==> SlotFits(binds[k], child)
      invariant w.Fields() == f + SlotsFields(binds[..i], child)
    {
      :- WriteSlot(w, binds[i], child);
      SlotsStep(binds, child, i);
      Associate(f, SlotsFields(binds[..i], child), SlotFields(binds[i], child));
      i := i + 1;
    }
    assert binds[..i] == binds;
    return Pass;
  }

  /** The bytes of a block response, unless something in it does not fit. */
  function BlockEncoding(stated: int, binds: seq<Bind>, child: Child): Option<seq<byte>> {
    if BlockFits(stated, binds, child) then
      BlockPrintable(stated, binds, child);
      Some(PrintAll(BlockFields(stated, binds, child)))
    else None
  }

  function ReturningEncoding(binds: seq<Row>, rowcount: int, eocs: int): Option<seq<byte>> {
    if ReturningFits(binds, rowcount, eocs) then
      ReturningRoundTrip(binds, rowcount, eocs);
      Some(PrintAll(ReturningFields(binds, rowcount, eocs)))
    else None
  }

  lemma {:induction false} SlotsPrintable(binds: seq<Bind>, child: Child)
    requires forall i :: 0 <= i < |binds| ==> SlotFits(binds[i], child)
    ensures AllPrintable(SlotsFields(binds, child))
  {
    hide SlotFits, SlotFields;
    if binds != [] {
      SlotPrintable(binds[0], child);
      SlotsPrintable(binds[1..], child);
      PrintableAppend(SlotFields(binds[0], child), SlotsFields(binds[1..], child));
    }
  }

  lemma BlockPrintable(stated: int, binds: seq<Bind>, child: Child)
    requires BlockFits(stated, binds, child)
    ensures AllPrintable(BlockFields(stated, binds, child))
  {
    hide MessageFields, SlotsFields, VectorHead, Directions, SlotFits, VarintFits;
    ConstantsFit();
    var n, last := |binds|, Error(MoreRows(0));
    MessagePrintable(OPENING); MessagePrintable(last);
    VectorRead(stated, n, []);
    SlotsPrintable(binds, child);
    PrintableAppend(MessageFields(OPENING), VectorHead(stated) + Directions(n));
    PrintableAppend(SlotsFields(binds, child), MessageFields(last));
    PrintableAppend(MessageFields(OPENING) + (VectorHead(stated) + Directions(n)),
                    SlotsFields(binds, child) + MessageFields(last));
  }

  /** The response to a block: bind directions, bind values, ERROR(0). */
  method BlockResponse(stated: int, binds: seq<Bind>, child: Child) returns (r: Option<seq<byte>>)
    ensures r == BlockEncoding(stated, binds, child)
  {
    hide TTCWriter.Valid, SlotFits, SlotsFields, MessageFields, PrintAll, VectorHead, Directions, VarintFits;
    ConstantsFit();
    var w := new TTCWriter();
    WriteOpening(w);
    var ok := WriteVector(w, stated, |binds|);
    if ok.Raise? {
      return None;
    }
    ok := WriteSlots(w, binds, child);
    if ok.Raise? {
      return None;
    }
    var _ := WriteError(w, MoreRows(0));
    ghost var head := MessageFields(OPENING) + (VectorHead(stated) + Directions(|binds|));
    assert [] + MessageFields(OPENING) == MessageFields(OPENING);
    Associate(head, SlotsFields(binds, child), MessageFields(Error(MoreRows(0))));
    var bytes := w.GetValue();
    PrintableFields(w);
    r := Some(bytes);
  }

  /** The values of one RETURNING bind: how many, then each with its size. */
  method WriteReturned(w: TTCWriter, cells: Row) returns (ok: Outcome)
    requires w.Valid()
    modifies w
    ensures w.Valid()
    ensures ok.Pass? <==> ReturnedFits(cells)
    ensures ok.Pass? ==> w.Fields() == old(w.Fields()) + ReturnedFields(cells)
  {
    hide TTCWriter.Valid, VarintFits, RowEncodes;
    w.Group();
    :- w.UB(|cells|, 4);
    :- WriteCells(w, cells);
    return Pass;
  }

  method WriteCells(w: TTCWriter, cells: Row) returns (ok: Outcome)
    requires w.Valid()
    modifies w
    ensures w.Valid() && w.closed == old(w.closed)
    ensures ok.Pass? <==> RowEncodes(cells)
    ensures ok.Pass? ==> w.group == old(w.group) + ReturnedCells(cells)
  {
    hide TTCWriter.Valid, ReturnedCells;
    ghost var g := w.group;
    NoCells(g, cells);
    var i := 0;
    while i < |cells|
      invariant 0 <= i <= |cells| && w.Valid() && w.closed == old(w.closed)
      invariant forall k :: 0 <= k < i ==> cells[k].Encoded?
      invariant w.group == g + ReturnedCells(cells[..i])
    {
      if cells[i].Unencodable? {
        return Raise;
      }
      w.LengthPrefixed(CellData(cells[i]));
      w.Zero(4);
      ReturnedStep(cells, i);
      assert w.group == g + ReturnedCells(cells[..i]) + [Octets(CellData(cells[i])), UB(0, 4)];
      Associate(g, ReturnedCells(cells[..i]), [Octets(CellData(cells[i])), UB(0, 4)]);
      i := i + 1;
    }
    assert cells[..i] == cells;
    return Pass;
  }

  lemma NoCells(g: seq<Field>, cells: Row)
    ensures g + ReturnedCells(cells[..0]) == g
  {
  }

  lemma {:induction false} ReturnedStep(cells: Row, i: nat)
    requires i < |cells|
    ensures ReturnedCells(cells[..i + 1]) == ReturnedCells(cells[..i]) + [Octets(CellData(cells[i])), UB(0, 4)]
  {
    if i == 0 {
      assert cells[..1] == [cells[0]] && cells[..0] == [];
      assert ReturnedCells([cells[0]]) == [Octets(CellData(cells[0])), UB(0, 4)] + ReturnedCells([]);
    } else {
      ReturnedStep(cells[1..], i - 1);
      assert cells[..i + 1][1..] == cells[1..][..i] && cells[..i][1..] == cells[1..][..i - 1];
    }
  }

  lemma {:induction false} AllReturnedStep(binds: seq<Row>, i: nat)
    requires i < |binds|
    ensures AllReturned(binds[..i + 1]) == AllReturned(binds[..i]) + ReturnedFields(binds[i])
  {
    hide ReturnedFields;
    if i == 0 {
      assert binds[..1] == [binds[0]] && binds[..0] == [];
      assert AllReturned([binds[0]]) == ReturnedFields(binds[0]) + AllReturned([]);
    } else {
      AllReturnedStep(binds[1..], i - 1);
      assert binds[..i + 1][1..] == binds[1..][..i] && binds[..i][1..] == binds[1..][..i - 1];
    }
  }

  method WriteAllReturned(w: TTCWriter, binds: seq<Row>) returns (ok: Outcome)
    requires w.Valid()
    modifies w
    ensures w.Valid()
    ensures ok.Pass? <==> forall i :: 0 <= i < |binds| ==> ReturnedFits(binds[i])
    ensures ok.Pass? ==> w.Fields() == old(w.Fields()) + AllReturned(binds)
  {
    hide TTCWriter.Valid, TTCWriter.Fields, ReturnedFits, ReturnedFields;
    ghost var f := w.Fields();
    assert f + AllReturned(binds[..0]) == f;
    var i := 0;
    while i < |binds|
      invariant 0 <= i <= |binds| && w.Valid()
      invariant forall k :: 0 <= k < i ==> ReturnedFits(binds[k])
      invariant w.Fields() == f + AllReturned(binds[..i])
    {
      :- WriteReturned(w, binds[i]);
      AllReturnedStep(binds, i);
      Associate(f, AllReturned(binds[..i]), ReturnedFields(binds[i]));
      i := i + 1;
    }
    assert binds[..i] == binds;
    return Pass;
  }

  method WriteScratch(w: TTCWriter)
    requires w.Valid()
    modifies w
    ensures w.Valid() && w.Fields() == old(w.Fields()) + MessageFields(Parameters([0, 0, 0, 0, 0, 0]))
  {
    hide TTCWriter.Valid, VarintFits, MessageFields, WordFields;
    w.Group();
    w.U8(MSG_PARAMETER);
    SmallFits(6);
    var _ := w.UB(6, 2);
    WriteWords(w);
    w.Zero(2); w.Zero(2); w.Zero(2);
    ScratchFields();
  }

  method WriteWords(w: TTCWriter)
    requires w.Valid()
    modifies w
    ensures w.Valid() && w.closed == old(w.closed) && w.group == old(w.group) + WordFields([0, 0, 0, 0, 0, 0])
  {
    hide TTCWriter.Valid;
    ghost var words := WordFields([0, 0, 0, 0, 0, 0]);
    for i := 0 to 6
      invariant w.Valid() && w.closed == old(w.closed)
      invariant w.group == old(w.group) + words[..i]
    {
      w.Zero(4);
    }
  }

  lemma ScratchFields()
    ensures MessageFields(Parameters([0, 0, 0, 0, 0, 0]))
         == [U8(MSG_PARAMETER), UB(6, 2)] + WordFields([0, 0, 0, 0, 0, 0]) + [UB(0, 2), UB(0, 2), UB(0, 2)]
  {
  }

  /** The response to a RETURNING statement: every bind's values, then the closing messages. */
  method ReturningResponse(binds: seq<Row>, rowcount: int, eocs: int) returns (r: Option<seq<byte>>)
    ensures r == ReturningEncoding(binds, rowcount, eocs)
  {
    hide TTCWriter.Valid, VarintFits, MessageFields, PrintAll, AllReturned, ReturnedFits;
    ConstantsFit();
    var w := new TTCWriter();
    w.U8(MSG_ROW_DATA);
    var ok := WriteAllReturned(w, binds);
    if ok.Raise? {
      return None;
    }
    WriteScratch(w);
    var e := ErrorInfo(0, [], 0, 0, rowcount, eocs);
    ok := WriteError(w, e);
    if ok.Raise? {
      return None;
    }
    ghost var close := ReturningClose(rowcount, eocs);
    TwoMessages(close[0], close[1]);
    assert w.Fields() == [U8(MSG_ROW_DATA)] + AllReturned(binds) + MessageFields(close[0]) + MessageFields(close[1]);
    Associate([U8(MSG_ROW_DATA)] + AllReturned(binds), MessageFields(close[0]), MessageFields(close[1]));
    Associate([U8(MSG_ROW_DATA)], AllReturned(binds), ResponseFields(close));
    var bytes := w.GetValue();
    PrintableFields(w);
    r := Some(bytes);
  }

  // ---------------------------------------------------------------------
  // The client's side
  // ---------------------------------------------------------------------

  const VECTOR_SHAPES: seq<Shape> := [AU8, AU8, AnUB(2), AnUB(4), AnUB(4), AnUB(2), AnUB(2), AnUB(2)]

  /** The bind directions, of which there must be n. */
  function ReadVector(n: nat, s: seq<byte>): Reading<()> {
    match ReadFields(VECTOR_SHAPES, s)
    case Err(e) => Err(e)
    case Ok((vs, s1)) =>
      if Num(vs[0]) != MSG_IO_VECTOR || Num(vs[2]) + 256 * Num(vs[3]) != n then Err(Malformed)
      else
        match ReadFields(seq(n, _ => AU8), s1)
        case Err(e) => Err(e)
        case Ok((_, rest)) => Ok(((), rest))
  }

  /** One bind; the client knows which of its binds are cursors. */
  function ReadSlot(cursor: bool, s: seq<byte>): Reading<Slot> {
    match ReadFields(if cursor then [AU8, AU8] else [AU8], s)
    case Err(e) => Err(e)
    case Ok((head, s1)) =>
      if Num(head[0]) != MSG_ROW_DATA || (cursor && Num(head[1]) != 1) then Err(Malformed)
      else if cursor then
        match ReadDescribe(s1)
        case Err(e) => Err(e)
        case Ok((columns, s2)) =>
          match ReadFields([AnUB(2), AnUB(4)], s2)
          case Err(e) => Err(e)
          case Ok((vs, rest)) => Ok((Opened(columns, Num(vs[0])), rest))
      else
        match ReadFields([AnOctets, AnUB(4)], s1)
        case Err(e) => Err(e)
        case Ok((vs, rest)) => Ok((Given(Txt(vs[0])), rest))
  }

  function ReadSlots(kinds: seq<bool>, s: seq<byte>): Reading<seq<Slot>> {
    if kinds == [] then Ok(([], s))
    else
      match ReadSlot(kinds[0], s)
      case Err(e) => Err(e)
      case Ok((slot, s1)) =>
        match ReadSlots(kinds[1..], s1)
        case Err(e) => Err(e)
        case Ok((slots, rest)) => Ok(([slot] + slots, rest))
  }

  /** A block response, closed by the one message that ends it. */
  function TakeBlock(kinds: seq<bool>, s: seq<byte>): Reading<(seq<Slot>, Message)> {
    match ReadMessage(0, s)
    case Err(e) => Err(e)
    case Ok((opening, s1)) =>
      if opening != OPENING then Err(Malformed)
      else
        match ReadVector(|kinds|, s1)
        case Err(e) => Err(e)
        case Ok((_, s2)) => TakeRest(kinds, s2)
  }

  /** The binds, and the one message after them. */
  function TakeRest(kinds: seq<bool>, s: seq<byte>): Reading<(seq<Slot>, Message)> {
    match ReadSlots(kinds, s)
    case Err(e) => Err(e)
    case Ok((slots, s1)) =>
      match TakeMessages(0, s1)
      case Err(e) => Err(e)
      case Ok((ms, rest)) => if |ms| == 1 then Ok(((slots, ms[0]), rest)) else Err(Malformed)
  }

  function ReadBlock(kinds: seq<bool>, s: seq<byte>): Result<(seq<Slot>, Message), BufferError> {
    Whole(TakeBlock(kinds, s))
  }

  function ReadCells(n: nat, s: seq<byte>): Reading<seq<Option<seq<byte>>>> {
    if n == 0 then Ok(([], s))
    else
      match ReadFields([AnOctets, AnUB(4)], s)
      case Err(e) => Err(e)
      case Ok((vs, s1)) =>
        match ReadCells(n - 1, s1)
        case Err(e) => Err(e)
        case Ok((cells, rest)) => Ok(([Txt(vs[0])] + cells, rest))
  }

  function ReadReturned(s: seq<byte>): Reading<seq<Option<seq<byte>>>> {
    match ReadFields([AnUB(4)], s)
    case Err(e) => Err(e)
    case Ok((head, s1)) => if Num(head[0]) < 0 then Err(Malformed) else ReadCells(Num(head[0]), s1)
  }

  function ReadAllReturned(n: nat, s: seq<byte>): Reading<seq<seq<Option<seq<byte>>>>> {
    if n == 0 then Ok(([], s))
    else
      match ReadReturned(s)
      case Err(e) => Err(e)
      case Ok((cells, s1)) =>
        match ReadAllReturned(n - 1, s1)
        case Err(e) => Err(e)
        case Ok((more, rest)) => Ok(([cells] + more, rest))
  }

  /** A RETURNING response for n binds. */
  function TakeReturning(n: nat, s: seq<byte>): Reading<(seq<seq<Option<seq<byte>>>>, seq<Message>)> {
    match ReadFields([AU8], s)
    case Err(e) => Err(e)
    case Ok((head, s1)) =>
      if Num(head[0]) != MSG_ROW_DATA then Err(Malformed)
      else
        match ReadAllReturned(n, s1)
        case Err(e) => Err(e)
        case Ok((binds, s2)) =>
          match TakeMessages(0, s2)
          case Err(e) => Err(e)
          case Ok((ms, rest)) => Ok(((binds, ms), rest))
  }

  function ReadReturning(n: nat, s: seq<byte>): Result<(seq<seq<Option<seq<byte>>>>, seq<Message>), BufferError> {
    Whole(TakeReturning(n, s))
  }

  // ---------------------------------------------------------------------
  // Round trips
  // ---------------------------------------------------------------------

  function Kinds(binds: seq<Bind>): seq<bool> { seq(|binds|, i requires 0 <= i < |binds| => binds[i].cursor) }

  function SeenColumns(columns: seq<Column>): seq<Column> {
    seq(|columns|, i requires 0 <= i < |columns| => SeenColumn(columns[i]))
  }

  function SeenSlot(b: Bind, child: Child): Slot {
    if b.cursor && child.id != 0 then Opened(SeenColumns(child.columns), child.id)
    else Given(NonEmpty(CellData(b.value)))
  }

  function SeenSlots(binds: seq<Bind>, child: Child): seq<Slot> {
    seq(|binds|, i requires 0 <= i < |binds| => SeenSlot(binds[i], child))
  }

  lemma SlotPrintable(b: Bind, child: Child)
    requires SlotFits(b, child)
    ensures AllPrintable(SlotBody(b, child)) && AllPrintable(SlotFields(b, child))
  {
    hide DescribeFits, DescribeFields, VarintFits;
    ConstantsFit();
    if b.cursor && child.id != 0 {
      DescribePrintable(child.columns);
      PrintableAppend(DescribeFields(child.columns), [UB(child.id, 2)]);
      PrintableAppend([U8(1)], DescribeFields(child.columns) + [UB(child.id, 2)]);
    }
    PrintableAppend(SlotBody(b, child), [UB(0, 4)]);
    PrintableAppend([U8(MSG_ROW_DATA)], SlotBody(b, child) + [UB(0, 4)]);
  }

  lemma OpenedRead(b: Bind, child: Child, tail: seq<byte>)
    requires b.cursor && ChildFits(child) && child.id != 0
    ensures AllPrintable(SlotFields(b, child))
    ensures ReadSlot(true, PrintAll(SlotFields(b, child)) + tail)
         == Ok((Opened(SeenColumns(child.columns), child.id), tail))
  {
    hide DescribeFits, DescribeFields, VarintFits, ReadFields, ReadDescribe, PrintAll;
    ConstantsFit();
    SlotPrintable(b, child);
    DescribePrintable(child.columns);
    var first: seq<Field> := [U8(MSG_ROW_DATA), U8(1)];
    var last: seq<Field> := [UB(child.id, 2), UB(0, 4)];
    var body := DescribeFields(child.columns);
    assert SlotFields(b, child) == first + (body + last);
    PrintableAppend(body, last);
    PrintAppend(body, last);
    PrintAppend(first, body + last);
    var t2 := PrintAll(last) + tail;
    var t1 := PrintAll(body) + t2;
    assert PrintAll(SlotFields(b, child)) + tail == PrintAll(first) + t1;
    FieldsRead(first, t1);
    assert ShapesOf(first) == [AU8, AU8];
    DescribeRead(child.columns, t2);
    FieldsRead(last, tail);
    assert ShapesOf(last) == [AnUB(2), AnUB(4)];
  }

  lemma GivenRead(b: Bind, child: Child, tail: seq<byte>)
    requires !b.cursor && b.value.Encoded?
    ensures AllPrintable(SlotFields(b, child))
    ensures ReadSlot(false, PrintAll(SlotFields(b, child)) + tail) == Ok((Given(NonEmpty(CellData(b.value))), tail))
  {
    hide VarintFits, ReadFields, PrintAll;
    ConstantsFit();
    SlotPrintable(b, child);
    var first: seq<Field> := [U8(MSG_ROW_DATA)];
    var last: seq<Field> := [Octets(CellData(b.value)), UB(0, 4)];
    assert SlotFields(b, child) == first + last;
    PrintAppend(first, last);
    assert PrintAll(SlotFields(b, child)) + tail == PrintAll(first) + (PrintAll(last) + tail);
    FieldsRead(first, PrintAll(last) + tail);
    assert ShapesOf(first) == [AU8];
    FieldsRead(last, tail);
    assert ShapesOf(last) == [AnOctets, AnUB(4)];
  }

  /** A cursor bind for which no cursor was opened holds no marker, and cannot be read. */
  lemma MissingChild(b: Bind, child: Child, tail: seq<byte>)
    requires b.cursor && child.id == 0 && b.value == Encoded(None)
    ensures AllPrintable(SlotFields(b, child))
    ensures ReadSlot(true, PrintAll(SlotFields(b, child)) + tail).Err?
  {
    hide VarintFits, ReadFields, PrintAll;
    ConstantsFit();
    SlotPrintable(b, child);
    assert SlotFields(b, child) == [U8(MSG_ROW_DATA), Octets([])] + [UB(0, 4)];
    var first: seq<Field> := [U8(MSG_ROW_DATA), U8(0)];
    PrintAppend([U8(MSG_ROW_DATA), Octets([])], [UB(0, 4)]);
    EmptyIsZero();
    var t := PrintAll([UB(0, 4)]) + tail;
    assert PrintAll(SlotFields(b, child)) + tail == PrintAll(first) + t;
    FieldsRead(first, t);
    assert ShapesOf(first) == [AU8, AU8];
  }

  lemma EmptyIsZero()
    ensures PrintAll([U8(MSG_ROW_DATA), Octets([])]) == PrintAll([U8(MSG_ROW_DATA), U8(0)])
  {
    var a, b, c: Field := U8(MSG_ROW_DATA), Octets([]), U8(0);
    PrintAppend([a], [b]);
    PrintAppend([a], [c]);
    OneField(b);
    OneField(c);
    assert [a, b] == [a] + [b] && [a, c] == [a] + [c];
  }

  /** Every bind can be read: a cursor was opened if any bind asks for one. */
  predicate Complete(binds: seq<Bind>, child: Child) {
    child.id != 0 || forall i :: 0 <= i < |binds| ==> !binds[i].cursor
  }

  /** A cursor bind carries no value of its own. */
  predicate CursorsEmpty(binds: seq<Bind>) {
    forall i :: 0 <= i < |binds| && binds[i].cursor ==> binds[i].value == Encoded(None)
  }

  lemma SlotRead(b: Bind, child: Child, tail: seq<byte>)
    requires SlotFits(b, child) && (b.cursor && child.id == 0 ==> b.value == Encoded(None))
    ensures AllPrintable(SlotFields(b, child))
    ensures var r := ReadSlot(b.cursor, PrintAll(SlotFields(b, child)) + tail);
      if b.cursor && child.id == 0 then r.Err? else r == Ok((SeenSlot(b, child), tail))
  {
    hide SlotFields, ReadSlot, PrintAll;
    if b.cursor && child.id == 0 {
      MissingChild(b, child, tail);
    } else if b.cursor {
      OpenedRead(b, child, tail);
    } else {
      GivenRead(b, child, tail);
    }
  }

  lemma {:induction false} SlotsRead(binds: seq<Bind>, child: Child, tail: seq<byte>)
    requires Complete(binds, child) || CursorsEmpty(binds)
    requires forall i :: 0 <= i < |binds| ==> SlotFits(binds[i], child)
    ensures AllPrintable(SlotsFields(binds, child))
    ensures var r := ReadSlots(Kinds(binds), PrintAll(SlotsFields(binds, child)) + tail);
      if Complete(binds, child) then r == Ok((SeenSlots(binds, child), tail)) else r.Err?
  {
    hide SlotFits, SlotFields, ReadSlot, PrintAll, SeenSlot;
    if binds == [] {
      EmptyPrint();
      assert PrintAll([]) + tail == tail && SeenSlots(binds, child) == [];
    } else {
      var b, more := binds[0], binds[1..];
      SlotPrintable(b, child);
      SlotsRead(more, child, tail);
      PrintableAppend(SlotFields(b, child), SlotsFields(more, child));
      PrintAppend(SlotFields(b, child), SlotsFields(more, child));
      var rest := PrintAll(SlotsFields(more, child)) + tail;
      assert PrintAll(SlotsFields(binds, child)) + tail == PrintAll(SlotFields(b, child)) + rest;
      SlotRead(b, child, rest);
      assert Kinds(binds)[1..] == Kinds(more);
      assert SeenSlots(binds, child) == [SeenSlot(b, child)] + SeenSlots(more, child);
      assert Complete(binds, child) <==> (!b.cursor || child.id != 0) && Complete(more, child);
    }
  }

  lemma VectorRead(stated: int, n: nat, tail: seq<byte>)
    requires VarintFits(stated / 256, 4)
    ensures AllPrintable(VectorHead(stated) + Directions(n))
    ensures ReadVector(n, PrintAll(VectorHead(stated) + Directions(n)) + tail)
         == if stated == n then Ok(((), tail)) else Err(Malformed)
  {
    hide ReadFields, PrintAll;
    ConstantsFit();
    assert Pow(256, 2) == 65536;
    var head := VectorHead(stated);
    assert AllPrintable(head) && AllPrintable(Directions(n));
    PrintableAppend(head, Directions(n));
    PrintAppend(head, Directions(n));
    var t := PrintAll(Directions(n)) + tail;
    assert PrintAll(head + Directions(n)) + tail == PrintAll(head) + t;
    FieldsRead(head, t);
    assert ShapesOf(head) == VECTOR_SHAPES;
    FieldsRead(Directions(n), tail);
    assert ShapesOf(Directions(n)) == seq(n, _ => AU8);
  }

  /** A client makes of each bind what it takes it for. */
  lemma {:induction false} SlotsFollowKinds(kinds: seq<bool>, s: seq<byte>)
    ensures var r := ReadSlots(kinds, s);
      r.Ok? ==> |r.value.0| == |kinds| && forall i :: 0 <= i < |kinds| ==> (r.value.0[i].Opened? <==> kinds[i])
    decreases |kinds|
  {
    hide ReadFields, ReadDescribe;
    if kinds != [] {
      var r := ReadSlot(kinds[0], s);
      if r.Ok? { SlotsFollowKinds(kinds[1..], r.value.1); }
    }
  }

  lemma BlockLayout(stated: int, binds: seq<Bind>, child: Child)
    requires BlockFits(stated, binds, child)
    ensures AllPrintable(BlockFields(stated, binds, child)) && AllPrintable(SlotsFields(binds, child))
    ensures AllPrintable(MessageFields(Error(MoreRows(0))))
    ensures ReadBlock(Kinds(binds), PrintAll(BlockFields(stated, binds, child))) ==
      if stated == |binds| then
        Whole(TakeRest(Kinds(binds), PrintAll(SlotsFields(binds, child)) + PrintAll(MessageFields(Error(MoreRows(0))))))
      else Err(Malformed)
  {
    hide PrintAll, ReadMessage, ReadVector, TakeRest, MessageFields, SlotsFields, VectorHead, Directions, SlotFits, VarintFits;
    ConstantsFit();
    var n, last := |binds|, Error(MoreRows(0));
    var a, b, c, d := MessageFields(OPENING), VectorHead(stated) + Directions(n), SlotsFields(binds, child), MessageFields(last);
    MessagePrintable(OPENING); MessagePrintable(last);
    VectorRead(stated, n, []);
    SlotsPrintable(binds, child);
    PrintableAppend(a, b); PrintableAppend(c, d); PrintableAppend(a + b, c + d);
    PrintAppend(a, b); PrintAppend(c, d); PrintAppend(a + b, c + d);
    var t2 := PrintAll(c) + PrintAll(d);
    var t1 := PrintAll(b) + t2;
    assert PrintAll(BlockFields(stated, binds, child)) == PrintAll(a) + t1;
    MessageRead(0, OPENING, t1);
    VectorRead(stated, n, t2);
    assert |Kinds(binds)| == n;
  }

  /** A block response is read back, bind by bind and closed once, exactly when every cursor bind has a
      cursor to carry and the request states as many binds as it describes; a cursor bind without a
      cursor and without a value cannot be read at all. */
  lemma BlockRoundTrip(stated: int, binds: seq<Bind>, child: Child)
    requires BlockFits(stated, binds, child)
    ensures var r := ReadBlock(Kinds(binds), BlockEncoding(stated, binds, child).value);
      && (r == Ok((SeenSlots(binds, child), Error(MoreRows(0)))) <==> Complete(binds, child) && stated == |binds|)
      && (stated != |binds| || (!Complete(binds, child) && CursorsEmpty(binds)) ==> r.Err?)
  {
    hide PrintAll, ReadBlock, ReadSlots, TakeMessages, MessageFields, SlotsFields, SlotFits, Complete, CursorsEmpty, SeenSlots,
      BlockFields;
    ConstantsFit();
    var last := Error(MoreRows(0));
    BlockLayout(stated, binds, child);
    var tail := PrintAll(MessageFields(last));
    OneMessage(last);
    MessagesRead(0, [last], []);
    NothingAfter(tail);
    assert SeenAll([last]) == [last];
    if Complete(binds, child) || CursorsEmpty(binds) {
      SlotsRead(binds, child, tail);
    }
    if !Complete(binds, child) {
      SlotsFollowKinds(Kinds(binds), PrintAll(SlotsFields(binds, child)) + tail);
      Unopened(binds, child);
    }
  }

  lemma Unopened(binds: seq<Bind>, child: Child)
    requires !Complete(binds, child)
    ensures exists i :: 0 <= i < |binds| && Kinds(binds)[i] && !SeenSlots(binds, child)[i].Opened?
  {
    var i :| 0 <= i < |binds| && binds[i].cursor;
    assert Kinds(binds)[i] && !SeenSlots(binds, child)[i].Opened?;
  }

  /** A lone cursor bind for which nothing was opened: the response goes out, and cannot be read. */
  lemma LoneCursorBind()
    ensures var binds, child := [Bind(true, Encoded(None))], Child([], 0);
      BlockEncoding(1, binds, child).Some? && ReadBlock([true], BlockEncoding(1, binds, child).value).Err?
  {
    hide PrintAll, ReadBlock;
    ConstantsFit();
    var binds := [Bind(true, Encoded(None))];
    assert !Complete(binds, Child([], 0)) by { assert binds[0].cursor; }
    BlockRoundTrip(1, binds, Child([], 0));
    assert Kinds(binds) == [true];
  }

  /** Binds that are stated and not described: the response cannot be read either. */
  lemma StatedBinds()
    ensures BlockEncoding(5, [], Child([], 0)).Some? && ReadBlock([], BlockEncoding(5, [], Child([], 0)).value).Err?
  {
    hide PrintAll, ReadBlock;
    ConstantsFit();
    BlockRoundTrip(5, [], Child([], 0));
    assert Kinds([]) == [];
  }

  function SeenCells(cells: Row): seq<Option<seq<byte>>> {
    seq(|cells|, i requires 0 <= i < |cells| => NonEmpty(CellData(cells[i])))
  }

  lemma {:induction false} CellsRead(cells: Row, tail: seq<byte>)
    ensures AllPrintable(ReturnedCells(cells))
    ensures ReadCells(|cells|, PrintAll(ReturnedCells(cells)) + tail) == Ok((SeenCells(cells), tail))
  {
    hide ReadFields, PrintAll;
    ConstantsFit();
    if cells == [] {
      EmptyPrint();
      assert PrintAll([]) + tail == tail && SeenCells(cells) == [];
    } else {
      var first: seq<Field> := [Octets(CellData(cells[0])), UB(0, 4)];
      CellsRead(cells[1..], tail);
      PrintableAppend(first, ReturnedCells(cells[1..]));
      PrintAppend(first, ReturnedCells(cells[1..]));
      var rest := PrintAll(ReturnedCells(cells[1..])) + tail;
      assert PrintAll(ReturnedCells(cells)) + tail == PrintAll(first) + rest;
      FieldsRead(first, rest);
      assert ShapesOf(first) == [AnOctets, AnUB(4)];
      assert SeenCells(cells) == [NonEmpty(CellData(cells[0]))] + SeenCells(cells[1..]);
    }
  }

  lemma ReturnedRead(cells: Row, tail: seq<byte>)
    requires ReturnedFits(cells)
    ensures AllPrintable(ReturnedFields(cells))
    ensures ReadReturned(PrintAll(ReturnedFields(cells)) + tail) == Ok((SeenCells(cells), tail))
  {
    hide ReadFields, PrintAll, ReturnedCells, ReadCells, VarintFits;
    var head: seq<Field> := [UB(|cells|, 4)];
    CellsRead(cells, tail);
    PrintableAppend(head, ReturnedCells(cells));
    PrintAppend(head, ReturnedCells(cells));
    assert PrintAll(ReturnedFields(cells)) + tail == PrintAll(head) + (PrintAll(ReturnedCells(cells)) + tail);
    FieldsRead(head, PrintAll(ReturnedCells(cells)) + tail);
    assert ShapesOf(head) == [AnUB(4)];
  }

  function SeenReturned(binds: seq<Row>): seq<seq<Option<seq<byte>>>> {
    seq(|binds|, i requires 0 <= i < |binds| => SeenCells(binds[i]))
  }

  lemma {:induction false} AllReturnedRead(binds: seq<Row>, tail: seq<byte>)
    requires forall i :: 0 <= i < |binds| ==> ReturnedFits(binds[i])
    ensures AllPrintable(AllReturned(binds))
    ensures ReadAllReturned(|binds|, PrintAll(AllReturned(binds)) + tail) == Ok((SeenReturned(binds), tail))
  {
    hide ReadReturned, PrintAll, ReturnedFields, SeenCells, ReturnedFits;
    if binds == [] {
      EmptyPrint();
      assert PrintAll([]) + tail == tail && SeenReturned(binds) == [];
    } else {
      AllReturnedRead(binds[1..], tail);
      var rest := PrintAll(AllReturned(binds[1..])) + tail;
      ReturnedRead(binds[0], rest);
      PrintableAppend(ReturnedFields(binds[0]), AllReturned(binds[1..]));
      PrintAppend(ReturnedFields(binds[0]), AllReturned(binds[1..]));
      assert PrintAll(AllReturned(binds)) + tail == PrintAll(ReturnedFields(binds[0])) + rest;
      assert SeenReturned(binds) == [SeenCells(binds[0])] + SeenReturned(binds[1..]);
    }
  }

  lemma CloseFits(rowcount: int, eocs: int)
    requires VarintFits(rowcount, 8) && VarintFits(eocs, 4)
    ensures WellFormed(0, ReturningClose(rowcount, eocs))
    ensures SeenAll(ReturningClose(rowcount, eocs)) == ReturningClose(rowcount, eocs)
  {
    ConstantsFit();
    assert Pow(256, 2) == 65536;
    var ms := ReturningClose(rowcount, eocs);
    BatchWellFormed(0, [], ms[1].info);
    assert [] + [ms[1]] == [ms[1]] && ms == [ms[0]] + [ms[1]];
    Prepend(0, ms[0], [ms[1]]);
  }

  /** A RETURNING response is read back: every bind's values in order, then the row count. */
  lemma ReturningRoundTrip(binds: seq<Row>, rowcount: int, eocs: int)
    requires ReturningFits(binds, rowcount, eocs)
    ensures AllPrintable(ReturningFields(binds, rowcount, eocs))
    ensures ReadReturning(|binds|, PrintAll(ReturningFields(binds, rowcount, eocs)))
         == Ok((SeenReturned(binds), ReturningClose(rowcount, eocs)))
  {
    hide PrintAll, ReadFields, ReadAllReturned, TakeMessages, ResponseFields, AllReturned, ReturningClose, SeenReturned,
      VarintFits, ReturnedFits;
    var head: seq<Field> := [U8(MSG_ROW_DATA)];
    var body, close := AllReturned(binds), ResponseFields(ReturningClose(rowcount, eocs));
    CloseFits(rowcount, eocs);
    MessagesRead(0, ReturningClose(rowcount, eocs), []);
    NothingAfter(PrintAll(close));
    AllReturnedRead(binds, PrintAll(close));
    PrintableAppend(body, close); PrintableAppend(head, body + close);
    PrintAppend(body, close); PrintAppend(head, body + close);
    var t := PrintAll(body) + PrintAll(close);
    FieldsRead(head, t);
    assert ShapesOf(head) == [AU8];
  }
}
