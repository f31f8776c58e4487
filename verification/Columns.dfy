/** From the values a query returns to the cells of its rows: which have an encoding, and what becomes of a
    cursor over those that have none. */
module Columns {
  import opened Basics
  import opened PlaceValue
  import opened Text
  import opened BigEndian
  import opened Numeral
  import opened Notation
  import opened NumberCodec
  import opened NumberOrder
  import opened NumberDecode
  import opened Dates
  import opened Intervals
  import opened Messages
  import opened Cursors
  import Utf8

  const VARCHAR := 1
  const NUMBER := 2
  const LONG := 8
  const DATE := 12
  const RAW := 23
  const CHAR := 96
  const CLOB := 112
  const BLOB := 113
  const TIMESTAMP := 180
  const TIMESTAMP_TZ := 181
  const INTERVAL_DS := 183

  /** How a conversion can fail: with an error that the cell writer catches, or with another one. */
  datatype Failure = Caught | Uncaught

  type Conversion = Result<Option<seq<byte>>, Failure>

  /** What the driver makes of a PostgreSQL value: text, bytes, a date with or without a time of day, a
      time difference, or some other object, with what its conversion to bytes gives. */
  datatype Kind =
    | Chars
    | Binary(bytes: seq<byte>)
    | Moment(at: DateTime)
    | Day
    | Span(length: Duration)
    | Object(asBytes: Conversion)

  /** A value is also known by the text it is encoded from as a number, and by the text it prints as, which
      for text is the value itself. */
  datatype SqlValue = Null | Value(kind: Kind, numeral: string, printed: seq<Utf8.Code>) {
    /** Dates, times and differences are those the host language can hold. */
    predicate Valid() {
      this.Value? ==> (kind.Moment? ==> kind.at.Valid()) && (kind.Span? ==> kind.length.Valid())
    }
  }

  function EncodeNumeral(numeral: string): Conversion {
    match Encode(numeral)
    case Ok(bytes) => Ok(Some(bytes))
    case Err(_) => Err(Caught)
  }

  /** Text in UTF-8; a surrogate is an error of a kind that is caught. */
  function EncodeText(text: seq<Utf8.Code>): Conversion {
    match Utf8.Encode(text)
    case Some(bytes) => Ok(Some(bytes))
    case None => Err(Caught)
  }

  function EncodeRaw(kind: Kind, printed: seq<Utf8.Code>): Conversion {
    match kind
    case Chars => EncodeText(printed)
    case Binary(bytes) => Ok(Some(bytes))
    case Object(asBytes) => asBytes
    case _ => Err(Uncaught)
  }

  /** The bytes of a value for a column of some type. */
  function EncodeColumn(oraType: int, v: SqlValue): Conversion
    requires v.Valid()
  {
    if v.Null? then Ok(None)
    else if oraType == NUMBER then EncodeNumeral(v.numeral)
    else if oraType in {VARCHAR, CHAR, LONG, CLOB} then
      if v.kind.Binary? then Ok(Some(v.kind.bytes)) else EncodeText(v.printed)
    else if oraType in {RAW, BLOB} then EncodeRaw(v.kind, v.printed)
    else if oraType == DATE then if v.kind.Moment? then Ok(Some(EncodeDate(v.kind.at))) else Err(Uncaught)
    else if oraType == TIMESTAMP || oraType == TIMESTAMP_TZ then
      if v.kind.Moment? then Ok(Some(EncodeTimestamp(v.kind.at, oraType == TIMESTAMP_TZ))) else Err(Uncaught)
    else if oraType == INTERVAL_DS then if v.kind.Span? then Ok(Some(EncodeInterval(v.kind.length))) else Err(Uncaught)
    else Err(Caught)
  }

  /** A cell made of what the value prints as. */
  function PrintedCell(printed: seq<Utf8.Code>): Cell {
    match EncodeText(printed)
    case Ok(data) => Encoded(data)
    case Err(_) => Unencodable
  }

  /** The cell of a value: its bytes, or its printed form when the encoder fails in a way that is caught;
      nothing catches a second failure. */
  function CellOf(oraType: int, v: SqlValue): Cell
    requires v.Valid()
  {
    match EncodeColumn(oraType, v)
    case Ok(data) => Encoded(data)
    case Err(Caught) => PrintedCell(if v.Value? then v.printed else [])
    case Err(Uncaught) => Unencodable
  }

  /** Values no cell can hold: anything but a date with its time of day in a date column, anything but a
      time difference in an interval column, objects without bytes in a binary one; and values whose printed
      form has a surrogate in it, where the cell would be made of that form. */
  predicate Stray(oraType: int, v: SqlValue)
    requires v.Value?
  {
    var kind := v.kind;
    if oraType in {DATE, TIMESTAMP, TIMESTAMP_TZ} then !kind.Moment?
    else if oraType == INTERVAL_DS then !kind.Span?
    else if oraType in {RAW, BLOB} && (kind.Moment? || kind.Day? || kind.Span? || kind == Object(Err(Uncaught))) then true
    else FromPrinted(oraType, v) && !Utf8.Encodable(v.printed)
  }

  /** The cell of the value is made of what it prints as: a text or an object in a character column, a text in
      a binary one, what is no number in a NUMBER column, and anything the encoder gives up on. */
  predicate FromPrinted(oraType: int, v: SqlValue)
    requires v.Value?
  {
    if oraType == NUMBER then Encode(v.numeral).Err?
    else if oraType in {VARCHAR, CHAR, LONG, CLOB} then !v.kind.Binary?
    else if oraType in {RAW, BLOB} then v.kind.Chars? || v.kind == Object(Err(Caught))
    else oraType !in {DATE, TIMESTAMP, TIMESTAMP_TZ, INTERVAL_DS}
  }

  /** NULL always has a cell; another value has one exactly when it is not a stray. */
  lemma CellExists(oraType: int, v: SqlValue)
    requires v.Valid()
    ensures CellOf(oraType, v).Encoded? <==> v.Null? || !Stray(oraType, v)
  {
    hide Encode, EncodeDate, EncodeTimestamp, EncodeInterval, Utf8.Bytes, Utf8.Encodable;
  }

  // ---------------------------------------------------------------------
  // Cells carry their values
  // ---------------------------------------------------------------------

  lemma NullCell(oraType: int)
    ensures CellOf(oraType, Null) == Encoded(None)
  {
  }

  /** A number in a NUMBER column, type 2, decodes to its value: at most 28 significant digits come back, but
      for the smallest positive numbers, which read as zero. */
  lemma NumberCell(v: SqlValue, scale: nat)
    requires v.Value? && v.Valid() && scale >= 170 && Encode(v.numeral).Ok? && Fits(Read(v.numeral).value, scale)
    ensures CellOf(2, v).Encoded? && CellOf(2, v).data.Some?
    ensures var n, r := NormalOf(v.numeral), DecodeNumber(CellOf(2, v).data.value);
      && r.Ok? && DecimalFits(r.value, scale)
      && (DecimalScaled(r.value, scale) == Scaled(Read(v.numeral).value, scale)
          <==> n.digits == [] || (|n.digits| <= PRECISION && !ReadAsZero(n)))
  {
    hide Encode, DecodeNumber, Scaled, DecimalScaled, DecimalFits, NormalOf, Read, Fits;
    NumberDecode.RoundTrip(v.numeral, scale);
  }

  /** The same from the number as it is written down. */
  lemma WrittenNumberCell(n: Written, kind: Kind, printed: seq<Utf8.Code>, scale: nat)
    requires n.Valid() && scale >= 170 && scale + n.Exponent() - |n.Decimals()| >= 0
    requires Value(kind, Show(n), printed).Valid() && Encode(Show(n)).Ok?
    requires var m := NormalOf(Show(n)); |m.digits| <= 28 && !ReadAsZero(m)
    ensures var cell, shift := CellOf(2, Value(kind, Show(n), printed)), scale + n.Exponent() - |n.Decimals()|;
      && cell.Encoded? && cell.data.Some?
      && DecodeNumber(cell.data.value).Ok? && DecimalFits(DecodeNumber(cell.data.value).value, scale)
      && DecimalScaled(DecodeNumber(cell.data.value).value, scale)
         == Signed(n.sign == "-", Horner(n.Digits()) * Pow(10, shift))
  {
    hide Encode, DecodeNumber, Scaled, DecimalScaled, DecimalFits, NormalOf, Read, Fits, Show, Horner, Pow, CellOf;
    ShownValue(n, scale);
    NumberCell(Value(kind, Show(n), printed), scale);
  }

  /** A date with its time of day comes back to the second from a DATE column, type 12, and to the microsecond
      from a timestamp column, types 180 and 181, the latter with two zone bytes. */
  lemma MomentCell(v: SqlValue)
    requires v.Value? && v.Valid() && v.kind.Moment?
    ensures var day, stamp, zoned := CellOf(12, v), CellOf(180, v), CellOf(181, v);
      && day.Encoded? && day.data.Some? && |day.data.value| == 7
      && DecodeDate(day.data.value) == Ok(v.kind.at.(microsecond := 0))
      && stamp.Encoded? && stamp.data.Some? && |stamp.data.value| == 11
      && DecodeTimestamp(stamp.data.value) == Ok(v.kind.at)
      && zoned.Encoded? && zoned.data.Some? && |zoned.data.value| == 13
      && DecodeTimestamp(zoned.data.value) == Ok(v.kind.at)
  {
    hide DecodeDate, DecodeTimestamp;
    DateRoundTrip(v.kind.at);
    TimestampRoundTrip(v.kind.at, false);
    TimestampRoundTrip(v.kind.at, true);
  }

  /** A time difference comes back from an interval column, type 183, exactly when it is not negative and its
      seconds are not rounded up. */
  lemma SpanCell(v: SqlValue)
    requires v.Value? && v.Valid() && v.kind.Span?
    ensures var cell, t := CellOf(183, v), v.kind.length;
      && cell.Encoded? && cell.data.Some?
      && (DecodeInterval(cell.data.value) == Ok(t) <==> t.days >= 0 && !RoundsUp(t.Total()))
  {
    hide EncodeInterval, DecodeInterval, RoundsUp;
    IntervalRoundTrip(v.kind.length);
  }

  /** Character columns, types 1, 8, 96 and 112, carry bytes as they are and anything else as the UTF-8 form of
      what it prints as. */
  lemma CharacterCell(oraType: int, v: SqlValue)
    requires oraType in {1, 8, 96, 112} && v.Value? && v.Valid()
    ensures v.kind.Binary? ==> CellOf(oraType, v) == Encoded(Some(v.kind.bytes))
    ensures !v.kind.Binary? ==> Prints(CellOf(oraType, v), v)
  {
    hide Utf8.Decode, Utf8.Bytes, Utf8.Encodable;
    if Utf8.Encodable(v.printed) { Utf8.EncodeDecode(v.printed); }
  }

  /** A cell that decodes as UTF-8 to what the value prints as, if that has a UTF-8 form at all. */
  predicate Prints(cell: Cell, v: SqlValue)
    requires v.Value?
  {
    if Utf8.Encodable(v.printed) then cell.Encoded? && cell.data.Some? && Utf8.Decode(cell.data.value) == Some(v.printed)
    else cell.Unencodable?
  }

  /** Binary columns, types 23 and 113, carry bytes as they are, text in UTF-8, and what another object converts
      to. */
  lemma BinaryCell(oraType: int, v: SqlValue)
    requires oraType in {23, 113} && v.Value? && v.Valid()
    ensures v.kind.Binary? ==> CellOf(oraType, v) == Encoded(Some(v.kind.bytes))
    ensures v.kind.Chars? ==> Prints(CellOf(oraType, v), v)
    ensures v.kind.Object? && v.kind.asBytes.Ok? ==> CellOf(oraType, v) == Encoded(v.kind.asBytes.value)
  {
    hide Utf8.Decode, Utf8.Bytes, Utf8.Encodable;
    if Utf8.Encodable(v.printed) { Utf8.EncodeDecode(v.printed); }
  }

  /** What is no number in a NUMBER column, and anything in a column of another type, goes out as it prints. */
  lemma PrintedCells(oraType: int, v: SqlValue)
    requires v.Value? && v.Valid()
    requires (oraType == 2 && Encode(v.numeral).Err?) || oraType !in {1, 2, 8, 12, 23, 96, 112, 113, 180, 181, 183}
    ensures Prints(CellOf(oraType, v), v)
  {
    hide Encode, Utf8.Decode, Utf8.Bytes, Utf8.Encodable;
    if Utf8.Encodable(v.printed) { Utf8.EncodeDecode(v.printed); }
  }

  // ---------------------------------------------------------------------
  // Announced sizes
  // ---------------------------------------------------------------------

  /** The buffer size that column metadata announces for the types of fixed shape. */
  function AnnouncedSize(oraType: int): Option<nat> {
    if oraType == NUMBER then Some(22)
    else if oraType == DATE then Some(7)
    else if oraType == TIMESTAMP || oraType == INTERVAL_DS then Some(11)
    else None
  }

  /** No encoded number, date, timestamp or interval is longer than announced. */
  lemma CellsFitTheirBuffers(oraType: int, v: SqlValue)
    requires v.Valid()
    ensures var size, r := AnnouncedSize(oraType), EncodeColumn(oraType, v);
      size.Some? && r.Ok? && r.value.Some? ==> |r.value.value| <= size.value
  {
    hide Encode, EncodeInterval;
    if v.Value? {
      if oraType == NUMBER { SizeBound(v.numeral); }
      if oraType == INTERVAL_DS && v.kind.Span? { IntervalDecoded(v.kind.length); }
    }
  }

  // ---------------------------------------------------------------------
  // Values that go astray
  // ---------------------------------------------------------------------

  const TRUE_TEXT: seq<Utf8.Code> := [84, 114, 117, 101]

  lemma TrueIsNoNumeral()
    ensures Encode("True").Err?
  {
    var text := "True";
    assert Strip(text) == text;
    assert !IsDigit(text[0]) && text[0] !in ".eE";
    assert !Numerals(text[..Until(text, ".eE")]) by {
      assert Until(text, ".eE") > 0;
      assert text[..Until(text, ".eE")][0] == 'T';
    }
  }

  lemma TrueDecodes()
    ensures DecodeNumber(TRUE_TEXT).Err?
  {
    assert ComplementRead([114, 117, 101])[0] == -13;
    assert TRUE_TEXT[1..] == [114, 117, 101];
  }

  /** What is no number goes out under a NUMBER column as what it prints as. */
  lemma PrintedNumber(v: SqlValue)
    requires v.Value? && v.Valid() && Encode(v.numeral).Err? && Utf8.Encodable(v.printed)
    ensures CellOf(NUMBER, v) == Encoded(Some(Utf8.Bytes(v.printed)))
  {
    hide Encode, Utf8.Bytes, Utf8.Encodable;
  }

  const TRUE := Value(Object(Err(Uncaught)), "True", TRUE_TEXT)

  /** So does a PostgreSQL boolean, and no client reads that as a number. */
  lemma BooleanIsNoNumber()
    ensures CellOf(NUMBER, TRUE) == Encoded(Some(TRUE_TEXT)) && DecodeNumber(TRUE_TEXT).Err?
  {
    hide Encode, DecodeNumber, CellOf;
    TrueIsNoNumeral();
    TrueDecodes();
    Utf8.AsciiForm(TRUE_TEXT);
    PrintedNumber(TRUE);
  }

  /** A JSON text of one surrogate has no cell either, under its RAW column or any other it could come in. */
  lemma SurrogateHasNoCell(oraType: int)
    requires oraType in {VARCHAR, CHAR, LONG, CLOB, RAW, BLOB}
    ensures CellOf(oraType, Value(Chars, "", [34, 0xD800, 34])) == Unencodable
  {
    var text: seq<Utf8.Code> := [34, 0xD800, 34];
    assert !Utf8.Encodable(text) by { assert Utf8.Surrogate(text[1]); }
  }

  /** A day of a PostgreSQL DATE column has no cell: the driver returns it without a time of day. */
  lemma DayHasNoCell(numeral: string, printed: seq<Utf8.Code>)
    ensures CellOf(DATE, Value(Day, numeral, printed)) == Unencodable
  {
  }

  /** A cursor with one row holding such a day: fetching it fails, and the next fetch says that everything
      has been delivered. */
  lemma DayIsLost(meta: seq<Column>, numeral: string, printed: seq<Utf8.Code>)
    ensures var s := State(map[1 := Cursor(meta, [[CellOf(DATE, Value(Day, numeral, printed))]], 0)], 2);
      && Inv(s)
      && Step(s, Fetch(1, 1)).1 == Failed(BROKEN)
      && Inv(Step(s, Fetch(1, 1)).0)
      && Step(Step(s, Fetch(1, 1)).0, Fetch(1, 1)).1 == Rows(1, [], END_OF_ROWS)
      && !NothingLost(s, [Fetch(1, 1)], 1)
  {
    DayHasNoCell(numeral, printed);
    var row := [Unencodable];
    var s := State(map[1 := Cursor(meta, [row], 0)], 2);
    assert Taken(s, Fetch(1, 1), 1) == [row];
    assert !RowEncodes(row) by { assert row[0].Unencodable?; }
    assert !Encodes([row]) by { assert !RowEncodes([row][0]); }
    ReadAnswers(s, Fetch(1, 1), 1);
    OneLost(s, Fetch(1, 1), 1);
    StepInv(s, Fetch(1, 1));
    var t := Step(s, Fetch(1, 1)).0;
    assert Taken(t, Fetch(1, 1), 1) == [];
    ReadAnswers(t, Fetch(1, 1), 1);
  }

  /** A cursor loses nothing in any run if its id and columns fit and none of its values goes astray. */
  lemma NoStraysNothingLost(s: State, ops: seq<Op>, id: int, values: seq<seq<SqlValue>>)
    requires Inv(s) && id in s.cursors && id < 65536 && DescribeFits(s.cursors[id].meta)
    requires var c := s.cursors[id];
      && |values| == |Remaining(c)|
      && forall i :: 0 <= i < |values| ==> Holds(c.meta, values[i], Remaining(c)[i]) && NoStrays(c.meta, values[i])
    ensures NothingLost(s, ops, id)
  {
    hide DescribeFits, CellOf, Stray, Remaining, NoStrays, Holds;
    var c := s.cursors[id];
    assert Pow(256, 2) == 65536;
    forall i | 0 <= i < |values| ensures RowEncodes(Remaining(c)[i]) { RowHasCells(c.meta, values[i], Remaining(c)[i]); }
    WritableKeepsAll(s, ops, id);
  }

  /** A row holds the cells of its values, column by column. */
  predicate Holds(meta: seq<Column>, values: seq<SqlValue>, row: Row) {
    && |values| == |row| == |meta|
    && forall i :: 0 <= i < |row| ==> values[i].Valid() && row[i] == CellOf(meta[i].oraType, values[i])
  }

  predicate NoStrays(meta: seq<Column>, values: seq<SqlValue>) {
    && |values| == |meta|
    && forall i :: 0 <= i < |meta| ==> values[i].Null? || !Stray(meta[i].oraType, values[i])
  }

  lemma RowHasCells(meta: seq<Column>, values: seq<SqlValue>, row: Row)
    requires Holds(meta, values, row)
    ensures RowEncodes(row) <==> NoStrays(meta, values)
  {
    hide CellOf, Stray;
    forall i | 0 <= i < |row| ensures row[i].Encoded? <==> values[i].Null? || !Stray(meta[i].oraType, values[i]) {
      CellExists(meta[i].oraType, values[i]);
    }
  }
}
