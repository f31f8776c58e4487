/** Values and messages with the bytes they have on the wire. */
module Samples {
  import opened Basics
  import opened Text
  import opened PlaceValue
  import opened BigEndian
  import opened Numeral
  import opened Notation
  import opened NumberCodec
  import opened Dates
  import opened Intervals
  import opened Wire
  import opened Messages
  import opened Responses
  import Params
  import opened Blocks
  import opened Greetings
  import opened Cursors
  import opened Execution
  import opened Requests
  import NumberDecode
  import Utf8

  // ---------------------------------------------------------------------
  // Numbers
  // ---------------------------------------------------------------------

  /** The wire form of a number of one pair. */
  lemma OnePair(n: Literal, a: int, b: int)
    requires n.Valid() && 0 <= a < 10 && 0 <= b < 10 && Aligned(n) == [a, b] && InRange(n)
    ensures WireForm(n) == if n.neg then [Lead(n), 101 - (10 * a + b), 102] else [Lead(n), 10 * a + b + 1]
  {
    assert NumberCodec.Pairs(n) == [10 * a + b];
    assert Body(n) == [if n.neg then 101 - (10 * a + b) else 10 * a + b + 1];
  }

  /** The numbers that the encoder's own description gives: 1, 10, 100, 0.001 and -1. */
  lemma SmallNumbers()
    ensures WireForm(Literal(false, [1], 1)) == [0xC1, 0x02]
    ensures WireForm(Literal(false, [1], 2)) == [0xC1, 0x0B]
    ensures WireForm(Literal(false, [1], 3)) == [0xC2, 0x02]
    ensures WireForm(Literal(false, [1], -2)) == [0xBF, 0x0B]
    ensures WireForm(Literal(true, [1], 1)) == [0x3E, 0x64, 0x66]
  {
    hide WireForm, NumberCodec.Pairs, Body;
    OnePair(Literal(false, [1], 1), 0, 1);
    OnePair(Literal(false, [1], 2), 1, 0);
    OnePair(Literal(false, [1], 3), 0, 1);
    OnePair(Literal(false, [1], -2), 1, 0);
    OnePair(Literal(true, [1], 1), 0, 1);
  }

  /** And 123.45. */
  lemma LargerNumber()
    ensures WireForm(Literal(false, [1, 2, 3, 4, 5], 3)) == [0xC2, 0x02, 0x18, 0x2E]
  {
    var n := Literal(false, [1, 2, 3, 4, 5], 3);
    assert Aligned(n) == [0, 1, 2, 3, 4, 5];
    assert NumberCodec.Pairs(n) == [1, 23, 45];
    assert Body(n) == [2, 24, 46];
  }

  /** A number is accepted up to 40 significant digits, none of them more than 126 places before the point,
      nor the first more than 129 behind it. */
  lemma AcceptedNumbers(text: string)
    ensures Encode(text).Ok? <==>
      Read(text).Ok? && var n := Normalize(Read(text).value);
        n.digits == [] || (|n.digits| <= 40 && -129 <= n.point <= 126)
  {
    hide Read, Normalize, WireForm;
  }

  // ---------------------------------------------------------------------
  // Dates and intervals
  // ---------------------------------------------------------------------

  /** The last second but one of a leap day, and a microsecond count. */
  lemma DateBytes()
    ensures var d := DateTime(2024, 2, 29, 23, 59, 58, 123456);
      && d.Valid() && EncodeDate(d) == [120, 124, 2, 29, 24, 60, 59]
      && EncodeTimestamp(d, false) == [120, 124, 2, 29, 24, 60, 59, 7, 91, 202, 0]
      && EncodeTimestamp(d, true) == [120, 124, 2, 29, 24, 60, 59, 7, 91, 202, 0, 20, 60]
  {
    FourBytes(7, 91, 202, 0);
  }

  lemma FourBytes(a: byte, b: byte, c: byte, d: byte)
    ensures ToBytes(((a * 256 + b) * 256 + c) * 256 + d, 4) == [a, b, c, d]
  {
    var x: nat := a as int * 256 + b;
    var y: nat := x * 256 + c;
    var z: nat := y * 256 + d;
    assert z / 256 == y && z % 256 == d && y / 256 == x && y % 256 == c && x / 256 == a && x % 256 == b;
    assert ToBytes(z, 4) == ToBytes(y, 3) + [d];
    assert ToBytes(y, 3) == ToBytes(x, 2) + [c];
    assert ToBytes(x, 2) == ToBytes(a, 1) + [b];
    assert ToBytes(a, 1) == [a];
  }

  /** One day, one hour, one minute, one second and a half. */
  lemma IntervalBytes()
    ensures var t := Duration(1, 3661, 500_000);
      t.Valid() && EncodeInterval(t) == [128, 0, 0, 1, 61, 61, 61, 157, 205, 101, 0]
  {
    hide Quotient, RoundsUp, ToBytes;
    var t := Duration(1, 3661, 500_000);
    var s := 90061;
    WholeSecondsOf(t);
    ExactBelow(t.Total());
    assert WholeSeconds(t) == s;
    hide WholeSeconds;
    FourBytes(128, 0, 0, 1);
    FourBytes(157, 205, 101, 0);
    assert Mask32(1 + DURATION_MID) == 0x8000_0001 && Mask32(500_000_000 + DURATION_MID) == 0x9DCD_6500;
  }

  // ---------------------------------------------------------------------
  // Primitives
  // ---------------------------------------------------------------------

  lemma TwoBytes(a: byte, b: byte)
    ensures ToBytes(a as int * 256 + b, 2) == [a, b]
  {
    var x: nat := a as int * 256 + b;
    assert x / 256 == a && x % 256 == b;
    assert ToBytes(x, 2) == ToBytes(a, 1) + [b];
    assert ToBytes(a, 1) == ToBytes(0, 0) + [a];
  }

  /** A thousand, minus a thousand and nothing as two-byte integers. */
  lemma IntegerBytes()
    ensures Varint(1000, 2) == [2, 3, 232] && Varint(-1000, 2) == [130, 3, 232]
    ensures forall width: nat :: width < 128 ==> Varint(0, width) == [0]
  {
    TwoBytes(3, 232);
    forall width: nat | width < 128 ensures Varint(0, width) == [0] { ZeroBytes(width); }
  }

  lemma ZeroBytes(width: nat)
    requires width < 128
    ensures Varint(0, width) == [0]
  {
    hide ToBytes, FromBytes;
    FromDropZeros(ToBytes(0, width));
    PowPositive(256, width);
    BigEndian.RoundTrip(0, width);
  }

  lemma ThreeBytes()
    ensures Varint(3, 4) == [1, 3]
  {
    assert ToBytes(3, 4) == [0, 0, 0, 3] by { FourBytes(0, 0, 0, 3); }
    assert [0, 0, 0, 3][1..] == [0, 0, 3] && [0, 0, 3][1..] == [0, 3] && [0, 3][1..] == [3];
    assert DropZeros([0, 0, 0, 3]) == [3];
  }

  /** Short byte strings follow their length; two lengths where a text may be NULL. */
  lemma StringBytes()
    ensures ByteString([65, 66, 67]) == [3, 65, 66, 67] && ByteString([]) == [0]
    ensures TwoLengths(Some([65, 66, 67])) == [1, 3, 3, 65, 66, 67] && TwoLengths(None) == [0] && TwoLengths(Some([])) == [0]
  {
    ThreeBytes();
    ZeroBytes(4);
    hide Varint;
  }

  /** The euro sign, and a character beyond the first plane. */
  lemma TextBytes()
    ensures Utf8.CharBytes(0x20AC) == [0xE2, 0x82, 0xAC] && Utf8.CharBytes(0x1F600) == [0xF0, 0x9F, 0x98, 0x80]
  {
  }

  /** The blanks that trimming cuts off: tab to carriage return, the four separators, and the space. */
  lemma Blanks(c: char)
    ensures IsSpace(c) <==> c as int in {9, 10, 11, 12, 13, 28, 29, 30, 31, 32}
  {
  }

  // ---------------------------------------------------------------------
  // Messages
  // ---------------------------------------------------------------------

  /** Fields that are printed as one zero byte: zeros, empty texts and NULL. */
  predicate PrintsZero(f: Field) {
    match f
    case UB(v, width) => v == 0 && width < 128
    case U8(v) => v == 0
    case SB1(v) => v == 0
    case Octets(data) => data == []
    case Sized(text) => text == None || text == Some([])
  }

  function Zeros(n: nat): seq<byte> { seq(n, _ => 0) }

  lemma ZeroField(f: Field)
    requires PrintsZero(f)
    ensures Printable(f) && Print(f) == [0]
  {
    hide ToBytes, DropZeros;
    match f
    case UB(v, width) => ZeroBytes(width); PowPositive(256, width);
    case Sized(_) => ZeroBytes(4);
    case _ =>
  }

  lemma {:induction false} ZeroFields(fs: seq<Field>)
    requires forall i :: 0 <= i < |fs| ==> PrintsZero(fs[i])
    ensures AllPrintable(fs) && PrintAll(fs) == Zeros(|fs|)
  {
    hide Print, Printable, PrintsZero;
    if fs != [] {
      ZeroField(fs[0]);
      ZeroFields(fs[1..]);
      assert AllPrintable(fs) by {
        forall i | 0 <= i < |fs| ensures Printable(fs[i]) { if i > 0 { assert fs[i] == fs[1..][i - 1]; } }
      }
      assert [0] + Zeros(|fs| - 1) == Zeros(|fs|);
    }
  }

  /** A message tag and fields that print as zeros. */
  lemma TagAndZeros(tag: byte, fs: seq<Field>)
    requires forall i :: 0 <= i < |fs| ==> PrintsZero(fs[i])
    ensures AllPrintable([U8(tag)] + fs) && PrintAll([U8(tag)] + fs) == [tag] + Zeros(|fs|)
  {
    hide PrintsZero, Printable, Print;
    ZeroFields(fs);
    TagOnly(tag);
    PrintableAppend([U8(tag)], fs);
    PrintAppend([U8(tag)], fs);
  }

  lemma TagOnly(tag: byte)
    ensures AllPrintable([U8(tag)]) && PrintAll([U8(tag)]) == [tag]
  {
    OneField(U8(tag));
  }

  /** A status, an empty opening, and an acknowledgement: a tag and zeros. */
  lemma PlainMessages()
    ensures AllPrintable(MessageFields(Status)) && PrintAll(MessageFields(Status)) == [9, 0, 0]
    ensures AllPrintable(MessageFields(Parameters([]))) && PrintAll(MessageFields(Parameters([]))) == [8, 0, 0, 0, 0]
    ensures var fs := MessageFields(Error(ErrorInfo(0, [], 0, 0, 0, 0)));
      AllPrintable(fs) && PrintAll(fs) == [4] + Zeros(31)
  {
    hide PrintAll;
    TagAndZeros(9, STATUS);
    TagAndZeros(8, ParameterFields([]));
    assert Zeros(2) == [0, 0] && Zeros(4) == [0, 0, 0, 0];
    ErrorZeros();
    TagAndZeros(4, ErrorFields(ErrorInfo(0, [], 0, 0, 0, 0)));
  }

  lemma ErrorZeros()
    ensures var fs := ErrorFields(ErrorInfo(0, [], 0, 0, 0, 0));
      |fs| == 31 && forall i :: 0 <= i < |fs| ==> PrintsZero(fs[i])
  {
    var e := ErrorInfo(0, [], 0, 0, 0, 0);
    BothZero(ErrorHead(e), ERROR_FLAGS);
    BothZero(ErrorHead(e) + ERROR_FLAGS, ERROR_ROWID);
    BothZero(ErrorHead(e) + ERROR_FLAGS + ERROR_ROWID, ERROR_BATCH);
    BothZero(ErrorHead(e) + ERROR_FLAGS + ERROR_ROWID + ERROR_BATCH, ErrorTail(e));
  }

  lemma BothZero(xs: seq<Field>, ys: seq<Field>)
    requires (forall i :: 0 <= i < |xs| ==> PrintsZero(xs[i])) && (forall i :: 0 <= i < |ys| ==> PrintsZero(ys[i]))
    ensures forall i :: 0 <= i < |xs + ys| ==> PrintsZero((xs + ys)[i])
  {
    hide PrintsZero;
  }

  lemma OneAndZeros(f: Field, bytes: seq<byte>, fs: seq<Field>)
    requires Printable(f) && Print(f) == bytes && forall i :: 0 <= i < |fs| ==> PrintsZero(fs[i])
    ensures AllPrintable([f] + fs) && PrintAll([f] + fs) == bytes + Zeros(|fs|)
  {
    hide PrintsZero, Printable, Print, PrintAll;
    ZeroFields(fs);
    OneField(f);
    PrintableAppend([f], fs);
    PrintAppend([f], fs);
  }

  lemma OneIsOne(width: nat)
    requires 0 < width < 5
    ensures Printable(UB(1, width)) && Print(UB(1, width)) == [1, 1]
  {
    hide DropZeros;
    PowPositive(256, width - 1);
    assert 256 <= Pow(256, width) by { assert Pow(256, width) == 256 * Pow(256, width - 1); }
    OneRaw(width);
  }

  lemma {:induction false} OneRaw(width: nat)
    requires 0 < width
    ensures DropZeros(ToBytes(1, width)) == [1]
  {
    LowestByte(width - 1);
  }

  lemma {:induction false} LowestByte(zeros: nat)
    ensures ToBytes(1, zeros + 1) == Zeros(zeros) + [1] && DropZeros(Zeros(zeros) + [1]) == [1]
  {
    assert ToBytes(1, zeros + 1) == ToBytes(0, zeros) + [1];
    NothingIn(zeros);
    if zeros > 0 {
      LowestByte(zeros - 1);
      assert (Zeros(zeros) + [1])[1..] == Zeros(zeros - 1) + [1];
    }
  }

  lemma {:induction false} NothingIn(n: nat)
    ensures ToBytes(0, n) == Zeros(n)
  {
    if n > 0 { NothingIn(n - 1); }
  }

  /** The row header, with one request and one iteration. */
  lemma RowHeaderBytes()
    ensures AllPrintable(MessageFields(RowHeader)) && PrintAll(MessageFields(RowHeader)) == [6, 0, 1, 1, 0, 1, 1, 0, 0, 0]
  {
    hide PrintAll, Print, Printable;
    var a: seq<Field> := [U8(6), U8(0)];
    OneIsOne(2); OneIsOne(4);
    OneAndZeros(UB(1, 4), [1, 1], [UB(0, 2), UB(0, 4), UB(0, 4)]);
    OneAndZeros(UB(1, 2), [1, 1], [UB(0, 4)]);
    TagAndZeros(6, [U8(0)]);
    var b: seq<Field> := [UB(1, 2)] + [UB(0, 4)];
    var c: seq<Field> := [UB(1, 4)] + [UB(0, 2), UB(0, 4), UB(0, 4)];
    assert [U8(6)] + [U8(0)] == a;
    PrintableAppend(b, c); PrintAppend(b, c);
    PrintableAppend(a, b + c); PrintAppend(a, b + c);
    assert MessageFields(RowHeader) == a + (b + c);
    assert Zeros(1) == [0] && Zeros(3) == [0, 0, 0];
  }

  /** A row of NULL, an empty text and one letter. */
  lemma RowBytes()
    ensures var row := [Encoded(None), Encoded(Some([])), Encoded(Some([65]))];
      AllPrintable(MessageFields(RowData(row))) && PrintAll(MessageFields(RowData(row))) == [7, 0, 0, 1, 65]
  {
    hide PrintAll, Print, Printable;
    var row := [Encoded(None), Encoded(Some([])), Encoded(Some([65]))];
    TagAndZeros(7, [Octets([]), Octets([])]);
    var a: seq<Field> := [U8(7)] + [Octets([]), Octets([])];
    LetterPrinted();
    OneField(Octets([65]));
    PrintableAppend(a, [Octets([65])]); PrintAppend(a, [Octets([65])]);
    assert MessageFields(RowData(row)) == a + [Octets([65])];
    assert Zeros(2) == [0, 0];
  }

  lemma LetterPrinted()
    ensures Printable(Octets([65])) && Print(Octets([65])) == [1, 65]
  {
  }

  /** A description without columns, and of one column of zeros. */
  lemma DescriptionBytes()
    ensures AllPrintable(MessageFields(DescribeInfo([]))) && PrintAll(MessageFields(DescribeInfo([]))) == [16] + Zeros(9)
    ensures var fs := ColumnFields(Column([], 0, 0, 0, 0, 0, 0, 0, 0));
      AllPrintable(fs) && PrintAll(fs) == Zeros(19)
  {
    hide PrintAll, Print, Printable;
    var none := [U8(0)] + DescribeFields([]);
    assert DescribeFields([]) == [UB(0, 4), UB(0, 4)] + DESCRIBE_TAIL;
    assert none == [U8(0), UB(0, 4), UB(0, 4)] + DESCRIBE_TAIL;
    BothZero([U8(0), UB(0, 4), UB(0, 4)], DESCRIBE_TAIL);
    TagAndZeros(16, none);
    var m := Column([], 0, 0, 0, 0, 0, 0, 0, 0);
    BothZero(ColumnType(m), ColumnText(m));
    ZeroFields(ColumnFields(m));
  }

  /** The head of a block response with one bind: one request, one iteration, direction in and out. */
  lemma BlockHeadBytes()
    ensures var fs := VectorHead(1) + Directions(1);
      AllPrintable(fs) && PrintAll(fs) == [11, 0, 1, 1, 0, 1, 1, 0, 0, 0, 48]
  {
    hide PrintAll, Print, Printable;
    OneIsOne(2); OneIsOne(4);
    var a, b, c: seq<Field> := [U8(11)] + [U8(0)], [UB(1, 2)] + [UB(0, 4)], [UB(1, 4)] + [UB(0, 2), UB(0, 2), UB(0, 2)];
    TagAndZeros(11, [U8(0)]);
    OneAndZeros(UB(1, 2), [1, 1], [UB(0, 4)]);
    OneAndZeros(UB(1, 4), [1, 1], [UB(0, 2), UB(0, 2), UB(0, 2)]);
    TagOnly(48);
    var d: seq<Field> := [U8(48)];
    PrintableAppend(c, d); PrintAppend(c, d);
    PrintableAppend(b, c + d); PrintAppend(b, c + d);
    PrintableAppend(a, b + (c + d)); PrintAppend(a, b + (c + d));
    assert VectorHead(1) + Directions(1) == a + (b + (c + d));
    assert Zeros(1) == [0] && Zeros(3) == [0, 0, 0];
  }

  /** The bind of a block: a row of one value, or a marker, a description and an id; then its size. */
  lemma SlotLayout(b: Bind, child: Child)
    ensures SlotFields(b, child) ==
      if b.cursor && child.id != 0 then [U8(7), U8(1)] + DescribeFields(child.columns) + [UB(child.id, 2), UB(0, 4)]
      else [U8(7), Octets(CellData(b.value)), UB(0, 4)]
  {
    hide DescribeFields;
  }

  /** How a RETURNING response ends: six words of scratch, then an error body with the count of rows. */
  lemma ReturningEnd(count: int, eocs: int)
    ensures ReturningClose(count, eocs) == [Parameters([0, 0, 0, 0, 0, 0]), Error(ErrorInfo(0, [], 0, 0, count, eocs))]
  {
  }

  /** The errors that go with cursors, and the login phases' closing messages. */
  lemma CursorErrors(id: int)
    ensures EndOfRows(id) == ErrorInfo(1403, AsciiBytes("ORA-01403: no data found"), 0, id, 0, 0)
    ensures MoreRows(id) == ErrorInfo(0, [], 0, id, 0, 0)
    ensures UnknownCursor() == Ora(1007, AsciiBytes("ORA-01007: variable not in select list"), 0)
    ensures Params.Closing(true) == Error(ErrorInfo(0, [], 0, 0, 0, 0)) && Params.Closing(false) == Status
  {
  }

  /** ASCII texts as bytes. */
  lemma AsciiLetters()
    ensures AsciiBytes("ORA-1") == [79, 82, 65, 45, 49]
  {
  }

  /** What the server says of itself in the handshake. */
  lemma ServerCapabilities()
    ensures var g := GreetingMeant(1);
      && g.Protocol? && g.version == 6 && g.charset == 873 && |g.descriptor| == 16
      && g.banner == AsciiBytes("OracleBridge" + (" Proxy " + ("(compatibile " + "Oracle 26ai)")))
      && g.descriptor[9] == 3 && g.descriptor[10] == 105
      && g.compiled.Some? && |g.compiled.value| == 55 && g.compiled.value[7] == 6
      && g.running.Some? && |g.running.value| == 11 && g.running.value[6] == 4
      && (forall i :: 0 <= i < 55 && i != 7 ==> g.compiled.value[i] == 0)
      && (forall i :: 0 <= i < 11 && i != 6 ==> g.running.value[i] == 0)
      && (forall i :: 0 <= i < 16 && i != 9 && i != 10 ==> g.descriptor[i] == 0)
    ensures GreetingBytes(2) == [2, 0, 0]
  {
    hide AsciiBytes;
  }

  // ---------------------------------------------------------------------
  // Layouts
  // ---------------------------------------------------------------------

  /** A response with rows: their description, if there is one, a row header in front of them, if there are any,
      and the error body that closes it. */
  lemma RowsLayout(meta: seq<Column>, rows: seq<Row>, id: int, done: bool)
    requires rows != []
    ensures var data := seq(|rows|, i requires 0 <= i < |rows| => RowData(rows[i]));
      && CursorMessages(false, meta, rows, done, id)
         == [RowHeader] + data + [Error(if done then EndOfRows(id) else MoreRows(id))]
      && CursorMessages(true, meta, rows, done, id)
         == [Parameters([]), DescribeInfo(meta), RowHeader] + data + [Error(if done then EndOfRows(id) else MoreRows(id))]
      && QueryMessages(meta, rows, id)
         == [Parameters([]), DescribeInfo(meta), RowHeader] + data + [Error(if id != 0 then MoreRows(id) else EndOfRows(0))]
  {
    var data := seq(|rows|, i requires 0 <= i < |rows| => RowData(rows[i]));
    assert RowMessages(rows) == data;
    assert [Parameters([]), DescribeInfo(meta)] + ([RowHeader] + data) == [Parameters([]), DescribeInfo(meta), RowHeader] + data;
  }

  lemma NoRowsLayout(meta: seq<Column>, id: int, done: bool)
    ensures CursorMessages(false, meta, [], done, id) == [Error(if done then EndOfRows(id) else MoreRows(id))]
    ensures CursorMessages(true, meta, [], done, id)
         == [Parameters([]), DescribeInfo(meta), Error(if done then EndOfRows(id) else MoreRows(id))]
    ensures QueryMessages(meta, [], id)
         == [Parameters([]), DescribeInfo(meta), Error(if id != 0 then MoreRows(id) else EndOfRows(0))]
  {
  }

  /** A description starts with the sum of the buffer sizes and the number of columns. */
  lemma {:induction false} DescriptionHead(a: seq<Column>, m: Column)
    ensures BufferTotal([]) == 0 && BufferTotal(a + [m]) == BufferTotal(a) + m.bufferSize
    ensures DescribeHead(a + [m]) == [UB(BufferTotal(a) + m.bufferSize, 4), UB(|a| + 1, 4), U8(0)]
    ensures DescribeHead([]) == [UB(0, 4), UB(0, 4)]
    decreases |a|
  {
    if a == [] {
      assert [] + [m] == [m] && [m][1..] == [];
    } else {
      assert (a + [m])[1..] == a[1..] + [m];
      DescriptionHead(a[1..], m);
    }
  }

  lemma ChunkUnfold(data: seq<byte>)
    requires data != []
    ensures var n := if |data| < 32767 then |data| else 32767;
      ChunkList(data) == ToBytes(n, 4) + data[..n] + ChunkList(data[n..])
  {
    hide ToBytes;
  }

  lemma LastChunk()
    ensures ChunkList([]) == [0, 0, 0, 0]
  {
    FourBytes(0, 0, 0, 0);
  }

  /** A byte string of up to 252 bytes stands behind its length. */
  lemma ShortString(data: seq<byte>)
    requires |data| <= 252
    ensures ByteString(data) == [|data|] + data
  {
  }

  /** A byte string of more than 252 bytes is cut into chunks of 32767, each behind its length, up to an empty one. */
  lemma LongString(data: seq<byte>)
    requires |data| > 252
    ensures ByteString(data) == [254] + ChunkList(data)
    ensures |data| <= 32767 ==> ChunkList(data) == ToBytes(|data|, 4) + data + [0, 0, 0, 0]
    ensures |data| > 32767 ==> ChunkList(data) == ToBytes(32767, 4) + data[..32767] + ChunkList(data[32767..])
  {
    hide ToBytes, ChunkList;
    ChunkUnfold(data);
    LastChunk();
    assert data[..|data|] == data && data[|data|..] == [];
  }

  // ---------------------------------------------------------------------
  // The calendar
  // ---------------------------------------------------------------------

  /** The lengths of the months; every fourth year is a leap year, but every hundredth, but not every four
      hundredth. */
  lemma Months(year: int)
    ensures DaysInMonth(year, 1) == DaysInMonth(year, 3) == DaysInMonth(year, 5) == DaysInMonth(year, 7) == 31
    ensures DaysInMonth(year, 8) == DaysInMonth(year, 10) == DaysInMonth(year, 12) == 31
    ensures DaysInMonth(year, 4) == DaysInMonth(year, 6) == DaysInMonth(year, 9) == DaysInMonth(year, 11) == 30
    ensures year % 4 != 0 ==> DaysInMonth(year, 2) == 28
    ensures year % 4 == 0 && year % 100 != 0 ==> DaysInMonth(year, 2) == 29
    ensures year % 100 == 0 && year % 400 != 0 ==> DaysInMonth(year, 2) == 28
    ensures year % 400 == 0 ==> DaysInMonth(year, 2) == 29
  {
    Centuries(year);
  }

  lemma Centuries(year: int)
    ensures year % 100 == 0 ==> year % 4 == 0
    ensures year % 400 == 0 ==> year % 100 == 0
  {
    var c, f := year / 100, year / 400;
    assert year == 100 * c + year % 100 && year == 400 * f + year % 400;
    if year % 100 == 0 { assert year == 4 * (25 * c); }
    if year % 400 == 0 { assert year == 100 * (4 * f); }
  }

  /** Days are counted one after the other, over the ends of months and years. */
  lemma NextDay(year: int, month: int, day: int)
    requires 1 <= month <= 12
    ensures var today := DateTime(year, month, day, 0, 0, 0, 0);
      && DayNumber(today.(day := day + 1)) == DayNumber(today) + 1
      && (day == DaysInMonth(year, month) && month < 12 ==>
            DayNumber(DateTime(year, month + 1, 1, 0, 0, 0, 0)) == DayNumber(today) + 1)
      && (day == 31 && month == 12 ==> DayNumber(DateTime(year + 1, 1, 1, 0, 0, 0, 0)) == DayNumber(today) + 1)
    ensures DayNumber(DateTime(1, 1, 1, 0, 0, 0, 0)) == 0
  {
    YearDays(year);
    YearSteps(year);
    hide DaysInMonth;
  }

  lemma YearDays(year: int)
    ensures DaysBeforeMonth(year, 12) + 31 == if IsLeap(year) then 366 else 365
  {
    assert DaysBeforeMonth(year, 4) == 31 + DaysInMonth(year, 2) + 31;
    assert DaysBeforeMonth(year, 8) == DaysBeforeMonth(year, 4) + 122;
    assert DaysBeforeMonth(year, 12) == DaysBeforeMonth(year, 8) + 122;
  }

  lemma YearSteps(year: int)
    ensures DaysBeforeYear(year + 1) == DaysBeforeYear(year) + if IsLeap(year) then 366 else 365
  {
    DivisionSteps(year - 1);
  }

  // ---------------------------------------------------------------------
  // Binds that do not decode
  // ---------------------------------------------------------------------

  /** Numbers, dates, timestamps and intervals must decode; anything else is taken as it is, and NULL always is. */
  lemma BindsThatDecode(raw: seq<byte>)
    ensures Decodes(2, Some(raw)) <==> NumberDecode.DecodeNumber(raw).Ok? && Scalable(raw)
    ensures Decodes(12, Some(raw)) <==> DecodeDate(raw).Ok?
    ensures Decodes(180, Some(raw)) <==> DecodeTimestamp(raw).Ok?
    ensures Decodes(181, Some(raw)) <==> DecodeTimestamp(raw).Ok?
    ensures Decodes(183, Some(raw)) <==> DecodeInterval(raw).Ok?
    ensures forall oraType: int :: oraType !in {2, 12, 180, 181, 183} ==> Decodes(oraType, Some(raw))
    ensures forall oraType: int :: Decodes(oraType, None)
  {
    hide NumberDecode.DecodeNumber, DecodeDate, DecodeTimestamp, DecodeInterval;
  }

  /** Six bytes are no date, timestamp or interval. The decimal arithmetic can scale by the exponent of a number up to
      about a million bytes. */
  lemma ShortBinds(raw: seq<byte>)
    ensures |raw| == 6 ==> !Decodes(12, Some(raw)) && !Decodes(180, Some(raw)) && !Decodes(183, Some(raw))
    ensures |raw| <= 999_900 ==> Scalable(raw)
    ensures |raw| > 1_000_300 && raw[0] != 0x80 ==> !Scalable(raw)
  {
    if |raw| == 6 { assert raw[..6] == raw; }
  }

  // ---------------------------------------------------------------------
  // Texts
  // ---------------------------------------------------------------------

  /** What an unsupported function is told. */
  lemma UnsupportedText()
    ensures UnknownFunction(93) == Ora(900, AsciiBytes("ORA-00900: TTC function " + "93" + " not supported by the proxy"), 0)
  {
    hide AsciiBytes;
    assert Printed(9) == "9";
    assert Printed(93) == "93";
  }

  /** The cursor a block sends back is the last it opened, on the rows of its last result. */
  lemma {:induction false} LastOpened(s: State, results: seq<ResultSet>)
    requires Inv(s) && results != []
    ensures var t, last := Run(s, OpenOps(results)), results[|results| - 1];
      && Inv(t) && t.nextId == s.nextId + |results|
      && LastChild(s, results) == Child(last.0, t.nextId - 1)
      && t.nextId - 1 in t.cursors && t.cursors[t.nextId - 1] == Cursor(last.0, last.1, 0)
    decreases |results|
  {
    var front, last := results[..|results| - 1], results[|results| - 1];
    var op := OpenRef(last.0, last.1);
    assert OpenOps(results) == OpenOps(front) + [op];
    RunAppend(s, OpenOps(front), [op], 0);
    RunOne(Run(s, OpenOps(front)), op, 0);
    RunInv(s, OpenOps(results));
    hide Run;
    if front != [] {
      LastOpened(s, front);
    } else {
      assert OpenOps(front) == [];
      NothingOpened(s);
    }
  }

  lemma NothingOpened(s: State)
    requires Inv(s)
    ensures Run(s, []) == s
  {
  }
}
