/** TTC response messages: what each one writes, and the client-side parser that mirrors it. */
module Messages {
  import opened Basics
  import opened PlaceValue
  import opened Wire

  const MSG_ERROR := 4
  const MSG_ROW_HEADER := 6
  const MSG_ROW_DATA := 7
  const MSG_PARAMETER := 8
  const MSG_STATUS := 9
  const MSG_DESCRIBE_INFO := 16

  /** The error number that says a cursor has no more rows. */
  const END_OF_ROWS := 1403

  /** One described column. */
  datatype Column = Column(name: seq<byte>, oraType: int, precision: int, scale: int, bufferSize: int,
                           maxSize: int, csid: int, csfrm: int, nullsAllowed: int)

  /** What a column value comes to: bytes, where None and the empty string are both NULL on the wire,
      or an exception other than those its writer catches. */
  datatype Cell = Encoded(data: Option<seq<byte>>) | Unencodable

  type Row = seq<Cell>

  predicate RowEncodes(row: Row) { forall i :: 0 <= i < |row| ==> row[i].Encoded? }

  predicate Encodes(rows: seq<Row>) { forall i :: 0 <= i < |rows| ==> RowEncodes(rows[i]) }

  /** The body of an ERROR message. */
  datatype ErrorInfo = ErrorInfo(num: int, message: seq<byte>, pos: int, cursorId: int, rowcount: int, eocs: int)

  datatype Message =
    | Parameters(words: seq<int>)
    | DescribeInfo(columns: seq<Column>)
    | RowHeader
    | RowData(row: Row)
    | Error(info: ErrorInfo)
    | Status

  // ---------------------------------------------------------------------
  // What is written
  // ---------------------------------------------------------------------

  function ColumnType(m: Column): seq<Field> {
    [U8(m.oraType), U8(0), SB1(m.precision), SB1(m.scale), UB(m.bufferSize, 4), UB(0, 4), UB(0, 8), UB(0, 4), UB(0, 2)]
  }

  function ColumnText(m: Column): seq<Field> {
    [UB(m.csid, 2), U8(m.csfrm), UB(m.maxSize, 4), U8(m.nullsAllowed), U8(0),
     Sized(Some(m.name)), Sized(None), Sized(Some(m.name)), UB(0, 2), UB(0, 4)]
  }

  function ColumnFields(m: Column): seq<Field> { ColumnType(m) + ColumnText(m) }

  function ColumnsFields(columns: seq<Column>): seq<Field> {
    if columns == [] then [] else ColumnFields(columns[0]) + ColumnsFields(columns[1..])
  }

  function BufferTotal(columns: seq<Column>): int {
    if columns == [] then 0 else columns[0].bufferSize + BufferTotal(columns[1..])
  }

  function DescribeHead(columns: seq<Column>): seq<Field> {
    [UB(BufferTotal(columns), 4), UB(|columns|, 4)] + if columns != [] then [U8(0)] else []
  }

  const DESCRIBE_TAIL: seq<Field> := [UB(0, 4), UB(0, 4), UB(0, 4), UB(0, 4), UB(0, 4), UB(0, 4)]

  function DescribeFields(columns: seq<Column>): seq<Field> {
    DescribeHead(columns) + ColumnsFields(columns) + DESCRIBE_TAIL
  }

  const ROW_HEADER: seq<Field> := [U8(0), UB(1, 2), UB(0, 4), UB(1, 4), UB(0, 2), UB(0, 4), UB(0, 4)]

  function Plain(v: Option<seq<byte>>): seq<byte> { if v.Some? then v.value else [] }

  function CellData(c: Cell): seq<byte> { if c.Encoded? then Plain(c.data) else [] }

  function RowFields(row: Row): seq<Field> {
    seq(|row|, i requires 0 <= i < |row| => Octets(CellData(row[i])))
  }

  /** Call status, cursor and position. */
  function ErrorHead(e: ErrorInfo): seq<Field> {
    [UB(e.eocs, 4), UB(0, 2), UB(0, 4), UB(0, 2), UB(0, 2), UB(0, 2), UB(e.cursorId, 2), UB(e.pos, 2)]
  }

  const ERROR_FLAGS: seq<Field> := [U8(0), U8(0), U8(0), U8(0), U8(0), U8(0)]

  const ERROR_ROWID: seq<Field> := [UB(0, 4), UB(0, 2), U8(0), UB(0, 4), UB(0, 2), UB(0, 4)]

  const ERROR_BATCH: seq<Field> := [U8(0), U8(0), UB(0, 2), UB(0, 4), UB(0, 4), UB(0, 2), UB(0, 4), UB(0, 2)]

  /** Error number, row count and text. */
  function ErrorTail(e: ErrorInfo): seq<Field> { [UB(e.num, 4), UB(e.rowcount, 8), Octets(e.message)] }

  function ErrorFields(e: ErrorInfo): seq<Field> {
    ErrorHead(e) + ERROR_FLAGS + ERROR_ROWID + ERROR_BATCH + ErrorTail(e)
  }

  const STATUS: seq<Field> := [UB(0, 4), UB(0, 2)]

  function WordFields(words: seq<int>): seq<Field> {
    seq(|words|, i requires 0 <= i < |words| => UB(words[i], 4))
  }

  function ParameterFields(words: seq<int>): seq<Field> {
    [UB(|words|, 2)] + WordFields(words) + [UB(0, 2), UB(0, 2), UB(0, 2)]
  }

  function Tag(m: Message): byte {
    match m
    case Parameters(_) => MSG_PARAMETER
    case DescribeInfo(_) => MSG_DESCRIBE_INFO
    case RowHeader => MSG_ROW_HEADER
    case RowData(_) => MSG_ROW_DATA
    case Error(_) => MSG_ERROR
    case Status => MSG_STATUS
  }

  function BodyFields(m: Message): seq<Field> {
    match m
    case Parameters(words) => ParameterFields(words)
    case DescribeInfo(columns) => [U8(0)] + DescribeFields(columns)
    case RowHeader => ROW_HEADER
    case RowData(row) => RowFields(row)
    case Error(info) => ErrorFields(info)
    case Status => STATUS
  }

  function MessageFields(m: Message): seq<Field> { [U8(Tag(m))] + BodyFields(m) }

  function ResponseFields(ms: seq<Message>): seq<Field> {
    if ms == [] then [] else MessageFields(ms[0]) + ResponseFields(ms[1..])
  }

  lemma {:induction false} ResponseAppend(xs: seq<Message>, ys: seq<Message>)
    ensures ResponseFields(xs + ys) == ResponseFields(xs) + ResponseFields(ys)
  {
    if xs == [] {
      assert xs + ys == ys;
    } else {
      assert (xs + ys)[1..] == xs[1..] + ys;
      ResponseAppend(xs[1..], ys);
    }
  }

  // ---------------------------------------------------------------------
  // What can be written: every integer fits its width
  // ---------------------------------------------------------------------

  predicate ColumnFits(m: Column) {
    VarintFits(m.bufferSize, 4) && VarintFits(m.csid, 2) && VarintFits(m.maxSize, 4) && |m.name| < 0x1_0000_0000
  }

  predicate DescribeFits(columns: seq<Column>) {
    && VarintFits(BufferTotal(columns), 4) && VarintFits(|columns|, 4)
    && forall i :: 0 <= i < |columns| ==> ColumnFits(columns[i])
  }

  predicate ErrorFits(e: ErrorInfo) {
    VarintFits(e.eocs, 4) && VarintFits(e.cursorId, 2) && VarintFits(e.pos, 2) && VarintFits(e.num, 4)
    && VarintFits(e.rowcount, 8)
  }

  predicate MessageFits(m: Message) {
    match m
    case Parameters(words) =>
      VarintFits(|words|, 2) && forall i :: 0 <= i < |words| ==> VarintFits(words[i], 4)
    case DescribeInfo(columns) => DescribeFits(columns)
    case RowData(row) => RowEncodes(row)
    case Error(info) => ErrorFits(info)
    case _ => true
  }

  lemma ConstantsFit()
    ensures VarintFits(0, 2) && VarintFits(0, 4) && VarintFits(0, 8) && VarintFits(1, 2) && VarintFits(1, 4)
  {
    PowPositive(256, 8);
    assert Pow(256, 2) == 65536;
    assert Pow(256, 4) == 0x1_0000_0000;
  }

  lemma ColumnPrintable(m: Column)
    ensures AllPrintable(ColumnFields(m)) <==> ColumnFits(m)
  {
    ConstantsFit();
    var fs := ColumnFields(m);
    assert Printable(fs[4]) <==> VarintFits(m.bufferSize, 4);
    assert Printable(fs[9]) <==> VarintFits(m.csid, 2);
    assert Printable(fs[11]) <==> VarintFits(m.maxSize, 4);
    assert Printable(fs[14]) <==> |m.name| < 0x1_0000_0000;
  }

  lemma {:induction false} ColumnsPrintable(columns: seq<Column>)
    ensures AllPrintable(ColumnsFields(columns)) <==> forall i :: 0 <= i < |columns| ==> ColumnFits(columns[i])
  {
    if columns != [] {
      ColumnPrintable(columns[0]);
      ColumnsPrintable(columns[1..]);
      PrintableAppend(ColumnFields(columns[0]), ColumnsFields(columns[1..]));
    }
  }

  lemma PrintableAppend(fs: seq<Field>, gs: seq<Field>)
    ensures AllPrintable(fs + gs) <==> AllPrintable(fs) && AllPrintable(gs)
  {
    if AllPrintable(fs + gs) {
      assert forall i :: 0 <= i < |fs| ==> fs[i] == (fs + gs)[i];
      assert forall i :: 0 <= i < |gs| ==> gs[i] == (fs + gs)[|fs| + i];
    }
  }

  lemma DescribePrintable(columns: seq<Column>)
    ensures AllPrintable(DescribeFields(columns)) <==> DescribeFits(columns)
  {
    ConstantsFit();
    ColumnsPrintable(columns);
    var head := DescribeHead(columns);
    assert Printable(head[0]) <==> VarintFits(BufferTotal(columns), 4);
    assert Printable(head[1]) <==> VarintFits(|columns|, 4);
    PrintableAppend(head, ColumnsFields(columns));
    PrintableAppend(head + ColumnsFields(columns), DESCRIBE_TAIL);
  }

  lemma ErrorPrintable(e: ErrorInfo)
    ensures AllPrintable(ErrorFields(e)) <==> ErrorFits(e)
  {
    ConstantsFit();
    var fs := ErrorFields(e);
    assert Printable(fs[0]) <==> VarintFits(e.eocs, 4);
    assert Printable(fs[6]) <==> VarintFits(e.cursorId, 2);
    assert Printable(fs[7]) <==> VarintFits(e.pos, 2);
    assert Printable(fs[28]) <==> VarintFits(e.num, 4);
    assert Printable(fs[29]) <==> VarintFits(e.rowcount, 8);
  }

  lemma ParametersPrintable(words: seq<int>)
    requires VarintFits(|words|, 2) && forall i :: 0 <= i < |words| ==> VarintFits(words[i], 4)
    ensures AllPrintable(ParameterFields(words))
  {
    ConstantsFit();
  }

  lemma MessagePrintable(m: Message)
    requires MessageFits(m)
    ensures AllPrintable(BodyFields(m)) && AllPrintable(MessageFields(m))
  {
    ConstantsFit();
    match m
    case Parameters(words) => ParametersPrintable(words);
    case DescribeInfo(columns) => DescribePrintable(columns);
    case Error(info) => ErrorPrintable(info);
    case _ =>
  }

  predicate AllFit(ms: seq<Message>) { forall i :: 0 <= i < |ms| ==> MessageFits(ms[i]) }

  lemma {:induction false} ResponsePrintable(ms: seq<Message>)
    requires AllFit(ms)
    ensures AllPrintable(ResponseFields(ms))
  {
    if ms != [] {
      MessagePrintable(ms[0]);
      ResponsePrintable(ms[1..]);
    }
  }

  // ---------------------------------------------------------------------
  // The client's side: a parser made of the reader's operations
  // ---------------------------------------------------------------------

  const COLUMN_SHAPES: seq<Shape> :=
    [AU8, AU8, ASB1, ASB1, AnUB(4), AnUB(4), AnUB(8), AnUB(4), AnUB(2), AnUB(2), AU8, AnUB(4), AU8, AU8,
     ASized, ASized, ASized, AnUB(2), AnUB(4)]

  const DESCRIBE_TAIL_SHAPES: seq<Shape> := [AnUB(4), AnUB(4), AnUB(4), AnUB(4), AnUB(4), AnUB(4)]

  const ROW_HEADER_SHAPES: seq<Shape> := [AU8, AnUB(2), AnUB(4), AnUB(4), AnUB(2), AnUB(4), AnUB(4)]

  const ERROR_HEAD_SHAPES: seq<Shape> := [AnUB(4), AnUB(2), AnUB(4), AnUB(2), AnUB(2), AnUB(2), AnUB(2), AnUB(2)]

  const ERROR_MIDDLE_SHAPES: seq<Shape> :=
    [AU8, AU8, AU8, AU8, AU8, AU8, AnUB(4), AnUB(2), AU8, AnUB(4), AnUB(2), AnUB(4),
     AU8, AU8, AnUB(2), AnUB(4), AnUB(4), AnUB(2), AnUB(4), AnUB(2)]

  const ERROR_SHAPES: seq<Shape> := ERROR_HEAD_SHAPES + ERROR_MIDDLE_SHAPES + [AnUB(4), AnUB(8), AnOctets]

  const STATUS_SHAPES: seq<Shape> := [AnUB(4), AnUB(2)]

  function Num(v: Value): int { if v.Number? then v.n else 0 }

  function Txt(v: Value): Option<seq<byte>> { if v.Text? then v.t else None }

  function ReadColumn(s: seq<byte>): (r: Reading<Column>)
    ensures r.Ok? ==> |r.value.1| <= |s|
  {
    match ReadFields(COLUMN_SHAPES, s)
    case Err(e) => Err(e)
    case Ok((vs, rest)) =>
      Ok((Column(Plain(Txt(vs[14])), Num(vs[0]), Num(vs[2]), Num(vs[3]), Num(vs[4]), Num(vs[11]), Num(vs[9]),
                 Num(vs[10]), Num(vs[12])), rest))
  }

  function ReadColumns(n: nat, s: seq<byte>): (r: Reading<seq<Column>>)
    ensures r.Ok? ==> |r.value.1| <= |s|
  {
    if n == 0 then Ok(([], s))
    else
      match ReadColumn(s)
      case Err(e) => Err(e)
      case Ok((c, s1)) =>
        match ReadColumns(n - 1, s1)
        case Err(e) => Err(e)
        case Ok((cs, rest)) => Ok(([c] + cs, rest))
  }

  /** The describe block: totals, columns, trailer. */
  function ReadDescribe(s: seq<byte>): (r: Reading<seq<Column>>)
    ensures r.Ok? ==> |r.value.1| <= |s|
  {
    match ReadFields([AnUB(4), AnUB(4)], s)
    case Err(e) => Err(e)
    case Ok((head, s1)) =>
      var n := Num(head[1]);
      if n < 0 then Err(Malformed)
      else
        match ReadFields(if n > 0 then [AU8] else [], s1)
        case Err(e) => Err(e)
        case Ok((_, s2)) =>
          match ReadColumns(n, s2)
          case Err(e) => Err(e)
          case Ok((columns, s3)) =>
            match ReadFields(DESCRIBE_TAIL_SHAPES, s3)
            case Err(e) => Err(e)
            case Ok((_, rest)) => Ok((columns, rest))
  }

  function ReadRow(n: nat, s: seq<byte>): (r: Reading<Row>)
    ensures r.Ok? ==> |r.value.1| <= |s|
  {
    match ReadFields(seq(n, _ => AnOctets), s)
    case Err(e) => Err(e)
    case Ok((vs, rest)) => Ok((seq(|vs|, i requires 0 <= i < |vs| => Encoded(Txt(vs[i]))), rest))
  }

  function ReadWords(s: seq<byte>): (r: Reading<seq<int>>)
    ensures r.Ok? ==> |r.value.1| <= |s|
  {
    match ReadFields([AnUB(2)], s)
    case Err(e) => Err(e)
    case Ok((head, s1)) =>
      var n := Num(head[0]);
      if n < 0 then Err(Malformed)
      else
        match ReadFields(seq(n, _ => AnUB(4)) + [AnUB(2), AnUB(2), AnUB(2)], s1)
        case Err(e) => Err(e)
        case Ok((vs, rest)) => Ok((seq(n, i requires 0 <= i < n => Num(vs[i])), rest))
  }

  function ReadError(s: seq<byte>): (r: Reading<ErrorInfo>)
    ensures r.Ok? ==> |r.value.1| <= |s|
  {
    match ReadFields(ERROR_SHAPES, s)
    case Err(e) => Err(e)
    case Ok((vs, rest)) =>
      Ok((ErrorInfo(Num(vs[28]), Plain(Txt(vs[30])), Num(vs[7]), Num(vs[6]), Num(vs[29]), Num(vs[0])), rest))
  }

  /** One message, for a row width of columns. */
  function ReadMessage(columns: nat, s: seq<byte>): (r: Reading<Message>)
    ensures r.Ok? ==> |r.value.1| < |s|
  {
    if s == [] then Err(Underrun)
    else
      var body := s[1..];
      if s[0] == MSG_PARAMETER then
        (match ReadWords(body) case Ok((words, rest)) => Ok((Parameters(words), rest)) case Err(e) => Err(e))
      else if s[0] == MSG_DESCRIBE_INFO then
        (match ReadFields([AU8], body)
         case Err(e) => Err(e)
         case Ok((_, s1)) =>
           match ReadDescribe(s1) case Ok((cs, rest)) => Ok((DescribeInfo(cs), rest)) case Err(e) => Err(e))
      else if s[0] == MSG_ROW_HEADER then
        (match ReadFields(ROW_HEADER_SHAPES, body) case Ok((_, rest)) => Ok((RowHeader, rest)) case Err(e) => Err(e))
      else if s[0] == MSG_ROW_DATA then
        (match ReadRow(columns, body) case Ok((row, rest)) => Ok((RowData(row), rest)) case Err(e) => Err(e))
      else if s[0] == MSG_ERROR then
        (match ReadError(body) case Ok((info, rest)) => Ok((Error(info), rest)) case Err(e) => Err(e))
      else if s[0] == MSG_STATUS then
        (match ReadFields(STATUS_SHAPES, body) case Ok((_, rest)) => Ok((Status, rest)) case Err(e) => Err(e))
      else Err(Malformed)
  }

  predicate Closes(m: Message) { m.Error? || m.Status? }

  function Width(columns: nat, m: Message): nat { if m.DescribeInfo? then |m.columns| else columns }

  /** Messages up to the first ERROR or STATUS, where a client stops reading. */
  function TakeMessages(columns: nat, s: seq<byte>): (r: Reading<seq<Message>>)
    ensures r.Ok? ==> ClosedOnce(r.value.0) && |r.value.1| < |s|
    decreases |s|
  {
    match ReadMessage(columns, s)
    case Err(e) => Err(e)
    case Ok((m, s1)) =>
      if Closes(m) then Ok(([m], s1))
      else
        match TakeMessages(Width(columns, m), s1)
        case Err(e) => Err(e)
        case Ok((ms, rest)) => Ok(([m] + ms, rest))
  }

  /** A whole response: its closing message ends the input. */
  function ReadResponse(columns: nat, s: seq<byte>): (r: Result<seq<Message>, BufferError>)
    ensures r.Ok? ==> ClosedOnce(r.value)
  {
    Whole(TakeMessages(columns, s))
  }

  /** Exactly one ERROR or STATUS message, and it is the last. */
  predicate ClosedOnce(ms: seq<Message>) {
    ms != [] && Closes(ms[|ms| - 1]) && forall i :: 0 <= i < |ms| - 1 ==> !Closes(ms[i])
  }

  /** Every row has as many values as the last described columns. */
  predicate RowsMatch(columns: nat, ms: seq<Message>)
    decreases |ms|
  {
    ms == [] || ((ms[0].RowData? ==> |ms[0].row| == columns) && RowsMatch(Width(columns, ms[0]), ms[1..]))
  }

  // ---------------------------------------------------------------------
  // What the parser sees of what was written
  // ---------------------------------------------------------------------

  function SeenColumn(m: Column): Column {
    Column(m.name, m.oraType % 256, Clamp(m.precision), Clamp(m.scale), m.bufferSize, m.maxSize, m.csid,
           m.csfrm % 256, m.nullsAllowed % 256)
  }

  function SeenCell(c: Cell): Cell { Encoded(NonEmpty(CellData(c))) }

  function SeenRow(row: Row): Row { seq(|row|, i requires 0 <= i < |row| => SeenCell(row[i])) }

  function Seen(m: Message): Message {
    match m
    case DescribeInfo(columns) => DescribeInfo(seq(|columns|, i requires 0 <= i < |columns| => SeenColumn(columns[i])))
    case RowData(row) => RowData(SeenRow(row))
    case _ => m
  }

  function SeenAll(ms: seq<Message>): seq<Message> { seq(|ms|, i requires 0 <= i < |ms| => Seen(ms[i])) }

  lemma ColumnRead(m: Column, tail: seq<byte>)
    requires ColumnFits(m)
    ensures AllPrintable(ColumnFields(m))
    ensures ReadColumn(PrintAll(ColumnFields(m)) + tail) == Ok((SeenColumn(m), tail))
  {
    hide ReadFields, PrintAll;
    ColumnPrintable(m);
    FieldsRead(ColumnFields(m), tail);
    assert ShapesOf(ColumnFields(m)) == COLUMN_SHAPES;
  }

  lemma {:induction false} ColumnsRead(columns: seq<Column>, tail: seq<byte>)
    requires forall i :: 0 <= i < |columns| ==> ColumnFits(columns[i])
    ensures AllPrintable(ColumnsFields(columns))
    ensures ReadColumns(|columns|, PrintAll(ColumnsFields(columns)) + tail)
      == Ok((seq(|columns|, i requires 0 <= i < |columns| => SeenColumn(columns[i])), tail))
  {
    hide PrintAll, ReadColumn, ColumnFields, ColumnFits, SeenColumn;
    ColumnsPrintable(columns);
    if columns == [] {
      EmptyPrint();
      assert PrintAll(ColumnsFields(columns)) + tail == tail;
      assert seq(|columns|, i requires 0 <= i < |columns| => SeenColumn(columns[i])) == [];
    } else {
      var c, cs := columns[0], columns[1..];
      ColumnsPrintable(cs); ColumnPrintable(c);
      PrintAppend(ColumnFields(c), ColumnsFields(cs));
      var more := PrintAll(ColumnsFields(cs)) + tail;
      assert PrintAll(ColumnsFields(columns)) + tail == PrintAll(ColumnFields(c)) + more;
      ColumnRead(c, more);
      ColumnsRead(cs, tail);
      var seen := seq(|cs|, i requires 0 <= i < |cs| => SeenColumn(cs[i]));
      assert seq(|columns|, i requires 0 <= i < |columns| => SeenColumn(columns[i])) == [SeenColumn(c)] + seen;
    }
  }

  lemma DescribeRead(columns: seq<Column>, tail: seq<byte>)
    requires DescribeFits(columns)
    ensures AllPrintable(DescribeFields(columns))
    ensures ReadDescribe(PrintAll(DescribeFields(columns)) + tail)
      == Ok((seq(|columns|, i requires 0 <= i < |columns| => SeenColumn(columns[i])), tail))
  {
    hide ReadFields, PrintAll, ReadColumns, SeenColumn, BufferTotal, ColumnsFields;
    DescribePrintable(columns);
    var first: seq<Field> := [UB(BufferTotal(columns), 4), UB(|columns|, 4)];
    var mark: seq<Field> := if columns != [] then [U8(0)] else [];
    var body := ColumnsFields(columns);
    PrintableAppend(first, mark);
    PrintableAppend(first + mark, body);
    PrintableAppend(first + mark + body, DESCRIBE_TAIL);
    PrintAppend(first, mark);
    PrintAppend(first + mark, body);
    PrintAppend(first + mark + body, DESCRIBE_TAIL);
    var t3 := PrintAll(DESCRIBE_TAIL) + tail;
    var t2 := PrintAll(body) + t3;
    var t1 := PrintAll(mark) + t2;
    assert PrintAll(DescribeFields(columns)) + tail == PrintAll(first) + t1;
    FieldsRead(first, t1);
    assert ShapesOf(first) == [AnUB(4), AnUB(4)];
    FieldsRead(mark, t2);
    assert ShapesOf(mark) == if columns != [] then [AU8] else [];
    ColumnsRead(columns, t3);
    FieldsRead(DESCRIBE_TAIL, tail);
    assert ShapesOf(DESCRIBE_TAIL) == DESCRIBE_TAIL_SHAPES;
  }

  lemma RowRead(row: Row, tail: seq<byte>)
    ensures AllPrintable(RowFields(row))
    ensures ReadRow(|row|, PrintAll(RowFields(row)) + tail) == Ok((SeenRow(row), tail))
  {
    hide ReadFields, PrintAll;
    FieldsRead(RowFields(row), tail);
    assert ShapesOf(RowFields(row)) == seq(|row|, _ => AnOctets);
    var vs := ValuesOf(RowFields(row));
    assert seq(|vs|, i requires 0 <= i < |vs| => Encoded(Txt(vs[i]))) == SeenRow(row);
  }

  lemma WordsRead(words: seq<int>, tail: seq<byte>)
    requires MessageFits(Parameters(words))
    ensures AllPrintable(ParameterFields(words))
    ensures ReadWords(PrintAll(ParameterFields(words)) + tail) == Ok((words, tail))
  {
    hide ReadFields, PrintAll;
    ParametersPrintable(words);
    var head: seq<Field> := [UB(|words|, 2)];
    var body: seq<Field> := WordFields(words) + [UB(0, 2), UB(0, 2), UB(0, 2)];
    assert ParameterFields(words) == head + body;
    PrintableAppend(head, body);
    PrintAppend(head, body);
    assert PrintAll(ParameterFields(words)) + tail == PrintAll(head) + (PrintAll(body) + tail);
    FieldsRead(head, PrintAll(body) + tail);
    assert ShapesOf(head) == [AnUB(2)];
    FieldsRead(body, tail);
    assert ShapesOf(body) == seq(|words|, _ => AnUB(4)) + [AnUB(2), AnUB(2), AnUB(2)];
    var vs := ValuesOf(body);
    assert forall i :: 0 <= i < |words| ==> Num(vs[i]) == words[i];
    assert seq(|words|, i requires 0 <= i < |words| => Num(vs[i])) == words;
  }

  lemma ErrorRead(e: ErrorInfo, tail: seq<byte>)
    requires ErrorFits(e)
    ensures AllPrintable(ErrorFields(e))
    ensures ReadError(PrintAll(ErrorFields(e)) + tail) == Ok((e, tail))
  {
    hide ReadFields, PrintAll;
    ErrorPrintable(e);
    FieldsRead(ErrorFields(e), tail);
    ErrorShapes(e);
  }

  lemma ShapesAppend(fs: seq<Field>, gs: seq<Field>)
    ensures ShapesOf(fs + gs) == ShapesOf(fs) + ShapesOf(gs)
  {
  }

  lemma ErrorShapes(e: ErrorInfo)
    ensures ShapesOf(ErrorFields(e)) == ERROR_SHAPES
  {
    hide ShapesOf;
    ShapesAppend(ErrorHead(e) + ERROR_FLAGS + ERROR_ROWID + ERROR_BATCH, ErrorTail(e));
    ShapesAppend(ErrorHead(e) + ERROR_FLAGS + ERROR_ROWID, ERROR_BATCH);
    ShapesAppend(ErrorHead(e) + ERROR_FLAGS, ERROR_ROWID);
    ShapesAppend(ErrorHead(e), ERROR_FLAGS);
    ErrorHeadShapes(e);
    ErrorMiddleShapes();
  }

  lemma ErrorHeadShapes(e: ErrorInfo)
    ensures ShapesOf(ErrorHead(e)) == ERROR_HEAD_SHAPES
    ensures ShapesOf(ErrorTail(e)) == [AnUB(4), AnUB(8), AnOctets]
  {
  }

  lemma ErrorMiddleShapes()
    ensures ShapesOf(ERROR_FLAGS) + ShapesOf(ERROR_ROWID) + ShapesOf(ERROR_BATCH) == ERROR_MIDDLE_SHAPES
  {
  }

  lemma TagPrint(m: Message, tail: seq<byte>)
    requires MessageFits(m)
    ensures AllPrintable(BodyFields(m)) && AllPrintable(MessageFields(m))
    ensures PrintAll(MessageFields(m)) + tail == [Tag(m)] + (PrintAll(BodyFields(m)) + tail)
  {
    hide BodyFields, MessageFits, PrintAll;
    MessagePrintable(m);
    PrintAppend([U8(Tag(m))], BodyFields(m));
    OneField(U8(Tag(m)));
    assert ([Tag(m)] + PrintAll(BodyFields(m))) + tail == [Tag(m)] + (PrintAll(BodyFields(m)) + tail);
  }

  lemma MessageRead(columns: nat, m: Message, tail: seq<byte>)
    requires MessageFits(m) && (m.RowData? ==> |m.row| == columns)
    ensures AllPrintable(MessageFields(m))
    ensures ReadMessage(columns, PrintAll(MessageFields(m)) + tail) == Ok((Seen(m), tail))
  {
    hide ReadFields, PrintAll, ReadWords, ReadDescribe, ReadRow, ReadError, SeenRow, SeenColumn,
      ParameterFields, DescribeFields, RowFields, ErrorFields, MessageFields;
    TagPrint(m, tail);
    var s := PrintAll(MessageFields(m)) + tail;
    assert s[1..] == PrintAll(BodyFields(m)) + tail;
    match m
    case Parameters(words) => WordsRead(words, tail);
    case DescribeInfo(columns) =>
      DescribePrintable(columns);
      var t := PrintAll(DescribeFields(columns)) + tail;
      PrintAppend([U8(0)], DescribeFields(columns));
      assert s[1..] == PrintAll([U8(0)]) + t;
      FieldsRead([U8(0)], t);
      assert ShapesOf([U8(0)]) == [AU8];
      DescribeRead(columns, tail);
    case RowHeader =>
      FieldsRead(ROW_HEADER, tail);
      assert ShapesOf(ROW_HEADER) == ROW_HEADER_SHAPES;
    case RowData(row) => RowRead(row, tail);
    case Error(info) => ErrorRead(info, tail);
    case Status =>
      FieldsRead(STATUS, tail);
      assert ShapesOf(STATUS) == STATUS_SHAPES;
  }

  /** A response closed once is read back message by message, up to any tail. */
  lemma {:induction false} MessagesRead(columns: nat, ms: seq<Message>, tail: seq<byte>)
    requires AllFit(ms) && ClosedOnce(ms) && RowsMatch(columns, ms)
    ensures AllPrintable(ResponseFields(ms))
    ensures TakeMessages(columns, PrintAll(ResponseFields(ms)) + tail) == Ok((SeenAll(ms), tail))
    decreases |ms|
  {
    hide ReadMessage, PrintAll, MessageFields, MessageFits;
    ResponsePrintable(ms);
    ResponsePrintable(ms[1..]);
    MessagePrintable(ms[0]);
    PrintAppend(MessageFields(ms[0]), ResponseFields(ms[1..]));
    var head, later := PrintAll(MessageFields(ms[0])), PrintAll(ResponseFields(ms[1..]));
    MessageRead(columns, ms[0], later + tail);
    Associate(head, later, tail);
    if |ms| == 1 {
      assert later == [] by { EmptyPrint(); }
      NothingBefore(tail);
      assert SeenAll(ms) == [Seen(ms[0])];
    } else {
      MessagesRead(Width(columns, ms[0]), ms[1..], tail);
      assert SeenAll(ms) == [Seen(ms[0])] + SeenAll(ms[1..]);
    }
  }

  /** And consuming every byte when nothing follows. */
  lemma ResponseRead(columns: nat, ms: seq<Message>)
    requires AllFit(ms) && ClosedOnce(ms) && RowsMatch(columns, ms)
    ensures AllPrintable(ResponseFields(ms))
    ensures ReadResponse(columns, PrintAll(ResponseFields(ms))) == Ok(SeenAll(ms))
  {
    hide TakeMessages, PrintAll, ResponseFields;
    MessagesRead(columns, ms, []);
    NothingAfter(PrintAll(ResponseFields(ms)));
  }

  lemma NothingAfter(bytes: seq<byte>)
    ensures bytes + [] == bytes
  {
  }

  lemma EmptyPrint()
    ensures PrintAll([]) == []
  {
  }
}
