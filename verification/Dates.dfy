/** DATE, TIMESTAMP and INTERVAL DAY TO SECOND on the wire. */
module Dates {
  import opened Basics
  import opened PlaceValue
  import opened BigEndian

  datatype DateError = TooShort | InvalidField | Overflow

  datatype DateTime = DateTime(year: int, month: int, day: int, hour: int, minute: int, second: int, microsecond: int) {
    /** The fields the host language accepts for a date and time. */
    predicate Valid() {
      && 1 <= year <= 9999 && 1 <= month <= 12 && 1 <= day <= DaysInMonth(year, month)
      && 0 <= hour < 24 && 0 <= minute < 60 && 0 <= second < 60 && 0 <= microsecond < 1_000_000
    }
  }

  predicate IsLeap(year: int) { year % 4 == 0 && (year % 100 != 0 || year % 400 == 0) }

  function DaysInMonth(year: int, month: int): int {
    if month == 2 then (if IsLeap(year) then 29 else 28)
    else if month in {4, 6, 9, 11} then 30
    else 31
  }

  // ---------------------------------------------------------------------
  // The calendar: microseconds since the start of year 1
  // ---------------------------------------------------------------------

  function DaysBeforeYear(year: int): int {
    var y := year - 1;
    365 * y + y / 4 - y / 100 + y / 400
  }

  function DaysBeforeMonth(year: int, month: int): int
    decreases month
  {
    if month <= 1 then 0 else DaysBeforeMonth(year, month - 1) + DaysInMonth(year, month - 1)
  }

  function DayNumber(d: DateTime): int {
    DaysBeforeYear(d.year) + DaysBeforeMonth(d.year, d.month) + d.day - 1
  }

  function SecondOfDay(d: DateTime): int { d.hour * 3600 + d.minute * 60 + d.second }

  function Instant(d: DateTime): int {
    (DayNumber(d) * 86400 + SecondOfDay(d)) * 1_000_000 + d.microsecond
  }

  lemma {:induction false} MonthsGrow(year: int, m: int, n: int)
    requires 1 <= m < n <= 13
    ensures DaysBeforeMonth(year, m) + DaysInMonth(year, m) <= DaysBeforeMonth(year, n)
    decreases n
  {
    if m < n - 1 { MonthsGrow(year, m, n - 1); }
  }

  lemma DivisionSteps(y: int)
    ensures (y + 1) / 4 == y / 4 + if (y + 1) % 4 == 0 then 1 else 0
    ensures (y + 1) / 100 == y / 100 + if (y + 1) % 100 == 0 then 1 else 0
    ensures (y + 1) / 400 == y / 400 + if (y + 1) % 400 == 0 then 1 else 0
    ensures (y + 1) % 400 == 0 ==> (y + 1) % 100 == 0
    ensures (y + 1) % 100 == 0 ==> (y + 1) % 4 == 0
  {
  }

  lemma YearLength(year: int)
    ensures DaysBeforeYear(year + 1) == DaysBeforeYear(year) + if IsLeap(year) then 366 else 365
  {
    DivisionSteps(year - 1);
  }

  lemma MonthsFillYear(year: int)
    ensures DaysBeforeMonth(year, 13) == if IsLeap(year) then 366 else 365
  {
    assert DaysBeforeMonth(year, 3) == 31 + DaysInMonth(year, 2);
    assert DaysBeforeMonth(year, 5) == DaysBeforeMonth(year, 3) + 61;
    assert DaysBeforeMonth(year, 7) == DaysBeforeMonth(year, 5) + 61;
    assert DaysBeforeMonth(year, 9) == DaysBeforeMonth(year, 7) + 62;
    assert DaysBeforeMonth(year, 11) == DaysBeforeMonth(year, 9) + 61;
    assert DaysBeforeMonth(year, 13) == DaysBeforeMonth(year, 11) + 61;
  }

  lemma {:induction false} YearsGrow(y: int, z: int)
    requires y < z
    ensures DaysBeforeYear(y) + (if IsLeap(y) then 366 else 365) <= DaysBeforeYear(z)
    decreases z - y
  {
    YearLength(y);
    if y + 1 < z { YearsGrow(y + 1, z); }
  }

  /** A later calendar date has a larger day number. */
  lemma DatesGrow(a: DateTime, b: DateTime)
    requires a.Valid() && b.Valid()
    requires LexLess([a.year, a.month, a.day], [b.year, b.month, b.day])
    ensures DayNumber(a) < DayNumber(b)
  {
    LexThree(a.year, a.month, a.day, b.year, b.month, b.day);
    if a.year < b.year {
      YearsGrow(a.year, b.year);
      MonthsFillYear(a.year);
      MonthsGrow(a.year, a.month, 13);
      if b.month > 1 { MonthsGrow(b.year, 1, b.month); }
    } else if a.month < b.month {
      MonthsGrow(a.year, a.month, b.month);
    }
  }

  function Fields(d: DateTime): seq<int> { [d.year, d.month, d.day, d.hour, d.minute, d.second] }

  /** Chronological order is the order of the fields, most significant first. */
  lemma FieldOrder(a: DateTime, b: DateTime)
    requires a.Valid() && b.Valid()
    ensures LexLess(Fields(a) + [a.microsecond], Fields(b) + [b.microsecond]) <==> Instant(a) < Instant(b)
  {
    var da, db := [a.year, a.month, a.day], [b.year, b.month, b.day];
    var ta, tb := [a.hour, a.minute, a.second, a.microsecond], [b.hour, b.minute, b.second, b.microsecond];
    assert Fields(a) + [a.microsecond] == da + ta && Fields(b) + [b.microsecond] == db + tb;
    LexAppend(da, db, ta, tb);
    LexTrichotomy(da, db);
    TimeOrder(a, b);
    if LexLess(da, db) { DatesGrow(a, b); } else if LexLess(db, da) { DatesGrow(b, a); }
  }

  lemma TimeOrder(a: DateTime, b: DateTime)
    requires a.Valid() && b.Valid()
    ensures LexLess([a.hour, a.minute, a.second, a.microsecond], [b.hour, b.minute, b.second, b.microsecond])
       <==> SecondOfDay(a) * 1_000_000 + a.microsecond < SecondOfDay(b) * 1_000_000 + b.microsecond
  {
    var ta, tb := [a.minute, a.second, a.microsecond], [b.minute, b.second, b.microsecond];
    LexCons(a.hour, ta, b.hour, tb);
    assert [a.hour, a.minute, a.second, a.microsecond] == [a.hour] + ta;
    assert [b.hour, b.minute, b.second, b.microsecond] == [b.hour] + tb;
    LexThree(a.minute, a.second, a.microsecond, b.minute, b.second, b.microsecond);
  }

  // ---------------------------------------------------------------------
  // DATE and TIMESTAMP
  // ---------------------------------------------------------------------

  function EncodeDate(d: DateTime): seq<byte>
    requires d.Valid()
  {
    [d.year / 100 + 100, d.year % 100 + 100, d.month, d.day, d.hour + 1, d.minute + 1, d.second + 1]
  }

  function EncodeTimestamp(d: DateTime, withTz: bool): seq<byte>
    requires d.Valid()
  {
    EncodeDate(d) + ToBytes(d.microsecond * 1000, 4) + if withTz then [20, 60] else []
  }

  function Checked(d: DateTime): Result<DateTime, DateError> {
    if d.Valid() then Ok(d) else Err(InvalidField)
  }

  function DecodeDate(data: seq<byte>): Result<DateTime, DateError> {
    if |data| < 7 then Err(TooShort)
    else
      Checked(DateTime((data[0] as int - 100) * 100 + (data[1] as int - 100), data[2], data[3],
                       data[4] as int - 1, data[5] as int - 1, data[6] as int - 1, 0))
  }

  function DecodeTimestamp(data: seq<byte>): Result<DateTime, DateError> {
    match DecodeDate(data[..Min(7, |data|)])
    case Err(e) => Err(e)
    case Ok(base) =>
      if |data| >= 11 then Checked(base.(microsecond := FromBytes(data[7..11]) / 1000)) else Ok(base)
  }

  /** Every date comes back, to the second. */
  lemma DateRoundTrip(d: DateTime)
    requires d.Valid()
    ensures DecodeDate(EncodeDate(d)) == Ok(d.(microsecond := 0))
  {
  }

  /** Every timestamp comes back, to the microsecond, with or without the time zone bytes. */
  lemma TimestampRoundTrip(d: DateTime, withTz: bool)
    requires d.Valid()
    ensures DecodeTimestamp(EncodeTimestamp(d, withTz)) == Ok(d)
    ensures |EncodeTimestamp(d, withTz)| == if withTz then 13 else 11
  {
    var w := EncodeTimestamp(d, withTz);
    assert w[..7] == EncodeDate(d) && w[7..11] == ToBytes(d.microsecond * 1000, 4);
    DateRoundTrip(d);
    assert Pow(256, 4) == 0x1_0000_0000;
    RoundTrip(d.microsecond * 1000, 4);
  }

  lemma YearBytesOrder(a: DateTime, b: DateTime)
    requires a.Valid() && b.Valid()
    ensures LexLess([a.year / 100 + 100, a.year % 100 + 100, a.month, a.day],
                    [b.year / 100 + 100, b.year % 100 + 100, b.month, b.day])
       <==> LexLess([a.year, a.month, a.day], [b.year, b.month, b.day])
  {
    var ta, tb := [a.year % 100 + 100, a.month, a.day], [b.year % 100 + 100, b.month, b.day];
    LexCons(a.year / 100 + 100, ta, b.year / 100 + 100, tb);
    assert [a.year / 100 + 100] + ta == [a.year / 100 + 100, a.year % 100 + 100, a.month, a.day];
    assert [b.year / 100 + 100] + tb == [b.year / 100 + 100, b.year % 100 + 100, b.month, b.day];
    LexThree(a.year % 100 + 100, a.month, a.day, b.year % 100 + 100, b.month, b.day);
    LexThree(a.year, a.month, a.day, b.year, b.month, b.day);
  }

  lemma DateBytesOrder(a: DateTime, b: DateTime)
    requires a.Valid() && b.Valid()
    ensures LexLess(EncodeDate(a), EncodeDate(b)) <==> LexLess(Fields(a), Fields(b))
    ensures EncodeDate(a) == EncodeDate(b) <==> Fields(a) == Fields(b)
  {
    var ya := [a.year / 100 + 100, a.year % 100 + 100, a.month, a.day];
    var yb := [b.year / 100 + 100, b.year % 100 + 100, b.month, b.day];
    var ta, tb := [a.hour + 1, a.minute + 1, a.second + 1], [b.hour + 1, b.minute + 1, b.second + 1];
    assert EncodeDate(a) == ya + ta && EncodeDate(b) == yb + tb;
    LexAppend(ya, yb, ta, tb);
    YearBytesOrder(a, b);
    TimeBytesOrder(a, b);
    var da, db := [a.year, a.month, a.day], [b.year, b.month, b.day];
    assert Fields(a) == da + [a.hour, a.minute, a.second] && Fields(b) == db + [b.hour, b.minute, b.second];
    LexAppend(da, db, [a.hour, a.minute, a.second], [b.hour, b.minute, b.second]);
    assert ya == yb <==> da == db by {
      assert da == [(ya[0] - 100) * 100 + (ya[1] - 100), ya[2], ya[3]];
      assert db == [(yb[0] - 100) * 100 + (yb[1] - 100), yb[2], yb[3]];
    }
  }

  lemma TimeBytesOrder(a: DateTime, b: DateTime)
    ensures LexLess([a.hour + 1, a.minute + 1, a.second + 1], [b.hour + 1, b.minute + 1, b.second + 1])
       <==> LexLess([a.hour, a.minute, a.second], [b.hour, b.minute, b.second])
  {
    LexThree(a.hour + 1, a.minute + 1, a.second + 1, b.hour + 1, b.minute + 1, b.second + 1);
    LexThree(a.hour, a.minute, a.second, b.hour, b.minute, b.second);
  }

  /** Timestamps sort byte by byte in chronological order, whatever the time zone flag. */
  lemma TimestampOrder(a: DateTime, b: DateTime, withTz: bool)
    requires a.Valid() && b.Valid()
    ensures LexLess(EncodeTimestamp(a, withTz), EncodeTimestamp(b, withTz)) <==> Instant(a) < Instant(b)
  {
    var fa, fb := ToBytes(a.microsecond * 1000, 4), ToBytes(b.microsecond * 1000, 4);
    var tz := if withTz then [20, 60] else [];
    LexAppend(EncodeDate(a) + fa, EncodeDate(b) + fb, tz, tz);
    LexTrichotomy(tz, tz);
    LexAppend(EncodeDate(a), EncodeDate(b), fa, fb);
    assert Pow(256, 4) == 0x1_0000_0000;
    Order(a.microsecond * 1000, b.microsecond * 1000, 4);
    DateBytesOrder(a, b);
    LexAppend(Fields(a), Fields(b), [a.microsecond], [b.microsecond]);
    FieldOrder(a, b);
  }

  /** Dates sort in chronological order, to the second. */
  lemma DateOrder(a: DateTime, b: DateTime)
    requires a.Valid() && b.Valid()
    ensures LexLess(EncodeDate(a), EncodeDate(b)) <==> Instant(a) / 1_000_000 < Instant(b) / 1_000_000
  {
    var a0, b0 := a.(microsecond := 0), b.(microsecond := 0);
    assert EncodeDate(a) == EncodeDate(a0) && EncodeDate(b) == EncodeDate(b0);
    hide EncodeDate, Instant;
    DateBytesOrder(a0, b0);
    LexAppend(Fields(a0), Fields(b0), [0], [0]);
    LexTrichotomy([0], [0]);
    hide Fields, LexLess;
    FieldOrder(a0, b0);
    WholeInstant(a); WholeInstant(b);
  }

  lemma WholeInstant(a: DateTime)
    requires a.Valid()
    ensures Instant(a) / 1_000_000 * 1_000_000 == Instant(a.(microsecond := 0))
  {
    assert DayNumber(a.(microsecond := 0)) == DayNumber(a) && SecondOfDay(a.(microsecond := 0)) == SecondOfDay(a);
    hide DayNumber, SecondOfDay;
  }
}
