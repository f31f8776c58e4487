/** INTERVAL DAY TO SECOND on the wire, double-precision seconds included. */
module Intervals {
  import opened Basics
  import opened PlaceValue
  import opened BigEndian
  import opened Dates

  const DURATION_MID := 0x8000_0000
  const DURATION_OFFSET := 60
  const MAX_DAYS := 999_999_999

  /** A time difference in the host language's normal form: only days may be negative. */
  datatype Duration = Duration(days: int, seconds: int, microseconds: int) {
    predicate Valid() {
      -MAX_DAYS <= days <= MAX_DAYS && 0 <= seconds < 86400 && 0 <= microseconds < 1_000_000
    }

    function Total(): int { (days * 86400 + seconds) * 1_000_000 + microseconds }
  }

  // ---------------------------------------------------------------------
  // total_seconds(): a quotient rounded to a double
  // ---------------------------------------------------------------------

  /** A double holds 53 binary digits: at its own scale, a number between these two. */
  const DOUBLE_LOW := 0x10_0000_0000_0000
  const DOUBLE_HIGH := 0x20_0000_0000_0000

  /** The binary places a double has for us / 10^6. */
  function BinaryPlaces(us: nat, from: nat): (f: nat)
    requires 0 < us && us * Pow(2, from) < DOUBLE_HIGH * 1_000_000
    ensures DOUBLE_LOW * 1_000_000 <= us * Pow(2, f) < DOUBLE_HIGH * 1_000_000 && from <= f
    decreases DOUBLE_LOW * 1_000_000 - us * Pow(2, from)
  {
    Doubling(us, from);
    if us * Pow(2, from) >= DOUBLE_LOW * 1_000_000 then from else BinaryPlaces(us, from + 1)
  }

  lemma Doubling(us: nat, f: nat)
    ensures us * Pow(2, f + 1) == 2 * (us * Pow(2, f)) && (us > 0 ==> us * Pow(2, f) > 0)
  {
    PowPositive(2, f);
    Associative(us, 2, Pow(2, f));
  }

  lemma Associative(a: int, b: int, c: int)
    ensures a * (b * c) == b * (a * c)
  {
  }

  /** Microsecond counts of a duration are far below the doubles without binary places. */
  predicate Countable(us: int) { 0 <= us < DOUBLE_LOW * 1_000_000 }

  function Places(us: nat): (f: nat)
    requires 0 < us && Countable(us)
  {
    assert Pow(2, 0) == 1;
    BinaryPlaces(us, 0)
  }

  /** The integer part of the double nearest to us / 10^6, ties to even. */
  function Quotient(us: nat): int
    requires Countable(us)
  {
    if us == 0 then 0 else Rounded(us, Pow(2, Places(us)))
  }

  /** us / 10^6 rounded to a multiple of 1/unit, and then toward zero. */
  function Rounded(us: nat, unit: int): int {
    if unit > 0 then
      assert us * unit >= 0;
      Nearest(us * unit, 1_000_000) / unit
    else 0
  }

  /** The fraction is so close to the next second that its double is that second: the gap takes at most
      half a unit in the last binary place. */
  predicate RoundsUp(us: int) {
    0 < us && Countable(us) && 2 * ((1_000_000 - us % 1_000_000) * Pow(2, Places(us))) <= 1_000_000
  }

  lemma PlacesRange(us: nat)
    requires 0 < us && Countable(us)
    ensures DOUBLE_LOW * 1_000_000 <= us * Pow(2, Places(us)) < DOUBLE_HIGH * 1_000_000
  {
    assert Pow(2, 0) == 1;
  }

  lemma DividesInto(m: int, s: int, p: int)
    requires p > 0 && s * p <= m < s * p + p
    ensures m / p == s
  {
    var q := m / p;
    assert m == q * p + m % p;
    if q < s { MulStep(q, s, p); } else if s < q { MulStep(s, q, p); }
  }

  /** Rounding us * p / 10^6 when the next whole second, x units of 1/p, is g microsecond-units away. */
  lemma NearestBelow(n: nat, x: int, g: int)
    requires n == x * 1_000_000 - g && g > 0 && x % 2 == 0
    ensures Nearest(n, 1_000_000) <= x
    ensures Nearest(n, 1_000_000) == x <==> 2 * g <= 1_000_000
  {
  }

  lemma NearestAtLeast(n: nat, y: int)
    requires n >= y * 1_000_000
    ensures Nearest(n, 1_000_000) >= y
  {
  }

  lemma Doubled(x: int)
    ensures (2 * x) % 2 == 0
  {
  }

  lemma EvenMultiple(s: int, f: nat)
    requires f > 0
    ensures (s * Pow(2, f)) % 2 == 0
  {
    var h := Pow(2, f - 1);
    assert Pow(2, f) == 2 * h;
    hide Pow;
    Associative(s, 2, h);
    Doubled(s * h);
  }

  lemma Spread(s: int, u: int, p: int)
    ensures (s * 1_000_000 + u) * p == (s * p) * 1_000_000 + u * p
    ensures (s * 1_000_000 + u) * p == (s * p + p) * 1_000_000 - (1_000_000 - u) * p
  {
    assert (s * 1_000_000 + u) * p == (s * 1_000_000) * p + u * p;
    assert (1_000_000 - u) * p == 1_000_000 * p - u * p;
    assert (s * 1_000_000) * p == (s * p) * 1_000_000;
  }

  lemma RoundedQuotient(s: nat, u: nat, p: int)
    requires u < 1_000_000 && p > 0 && (s * p + p) % 2 == 0
    ensures (s * 1_000_000 + u) * p >= 0
    ensures Nearest((s * 1_000_000 + u) * p, 1_000_000) / p == if 2 * ((1_000_000 - u) * p) <= 1_000_000 then s + 1 else s
  {
    hide Nearest;
    Spread(s, u, p);
    var n, gap := (s * 1_000_000 + u) * p, (1_000_000 - u) * p;
    MulNonNegative(s, p); MulNonNegative(u, p); MulStep(0, 1_000_000 - u, p);
    var m := Nearest(n, 1_000_000);
    NearestBelow(n, s * p + p, gap);
    NearestAtLeast(n, s * p);
    if 2 * gap <= 1_000_000 {
      assert (s + 1) * p == s * p + p;
      DividesInto(m, s + 1, p);
    } else {
      DividesInto(m, s, p);
    }
  }

  /** The whole seconds of a duration, up to the rounding of its double. */
  lemma QuotientExact(us: nat)
    requires Countable(us)
    ensures Quotient(us) == us / 1_000_000 + if RoundsUp(us) then 1 else 0
  {
    if us > 0 {
      var s, u, f := us / 1_000_000, us % 1_000_000, Places(us);
      assert us == s * 1_000_000 + u;
      PowPositive(2, f);
      assert f > 0 by { assert Pow(2, 0) == 1; }
      EvenMultiple(s + 1, f);
      hide Pow, Places, Nearest;
      assert (s + 1) * Pow(2, f) == s * Pow(2, f) + Pow(2, f);
      RoundedQuotient(s, u, Pow(2, f));
    }
  }

  /** Below 2^34 seconds no duration is rounded up to the next one. */
  lemma ExactBelow(us: nat)
    requires us < 0x4_0000_0000 * 1_000_000
    ensures !RoundsUp(us)
  {
    if us > 0 {
      var f := Places(us);
      assert Pow(2, 18) == 0x4_0000 && Pow(2, 19) == 0x8_0000 by { SmallPowers(); }
      if f <= 18 {
        PowMonotone(2, f, 18);
        Product(us, Pow(2, f), 0x4_0000_0000 * 1_000_000, 0x4_0000);
      } else {
        PowMonotone(2, 19, f);
        Product(1, Pow(2, f), 1_000_000 - us % 1_000_000, Pow(2, f));
      }
    }
  }

  lemma SmallPowers()
    ensures Pow(2, 18) == 0x4_0000 && Pow(2, 19) == 0x8_0000
  {
    assert Pow(2, 4) == 16;
    PowAdd(2, 4, 4); PowAdd(2, 8, 8); PowAdd(2, 16, 2);
    assert Pow(2, 2) == 4;
  }

  lemma Product(a: int, b: int, c: int, d: int)
    requires 0 <= a <= c && 0 <= b <= d
    ensures a * b <= c * d
  {
    assert a * b <= c * b;
    assert c * b <= c * d;
  }

  lemma TotalCountable(t: Duration)
    requires t.Valid()
    ensures t.days >= 0 ==> t.Total() >= 0
    ensures t.days < 0 ==> -MAX_DAYS * 86400 * 1_000_000 <= t.Total() < 0
    ensures if t.Total() >= 0 then Countable(t.Total()) else Countable(-t.Total())
  {
  }

  /** Whole seconds as the host counts them: of the double, toward zero. */
  function WholeSeconds(t: Duration): int
    requires t.Valid()
  {
    TotalCountable(t);
    var us := t.Total();
    if us >= 0 then Quotient(us) else -Quotient(-us)
  }

  function Days(s: int): int { s / 86400 }
  function Hours(s: int): (h: int) ensures 0 <= h < 24 { s % 86400 / 3600 }
  function Minutes(s: int): (m: int) ensures 0 <= m < 60 { s % 3600 / 60 }
  function Seconds(s: int): (c: int) ensures 0 <= c < 60 { s % 60 }

  /** The number of seconds in so many days, hours, minutes and seconds. */
  function Recombine(days: int, hours: int, minutes: int, seconds: int): int {
    ((days * 24 + hours) * 60 + minutes) * 60 + seconds
  }

  function Mask32(v: int): nat { v % 0x1_0000_0000 }

  function EncodeFields(days: int, hours: int, minutes: int, seconds: int, fseconds: int): seq<byte>
    requires -60 <= hours < 196 && -60 <= minutes < 196 && -60 <= seconds < 196
  {
    ToBytes(Mask32(days + DURATION_MID), 4)
    + [hours + DURATION_OFFSET, minutes + DURATION_OFFSET, seconds + DURATION_OFFSET]
    + ToBytes(Mask32(fseconds + DURATION_MID), 4)
  }

  function EncodeInterval(t: Duration): seq<byte>
    requires t.Valid()
  {
    var s := WholeSeconds(t);
    var fseconds := t.microseconds * 1000;
    if t.days < 0 then EncodeFields(-Days(s), -Hours(s), -Minutes(s), -Seconds(s), -fseconds)
    else EncodeFields(Days(s), Hours(s), Minutes(s), Seconds(s), fseconds)
  }

  function FromMicroseconds(us: int): Result<Duration, DateError> {
    var s := us / 1_000_000;
    var d := Duration(s / 86400, s % 86400, us % 1_000_000);
    if d.Valid() then Ok(d) else Err(Overflow)
  }

  function DecodeInterval(data: seq<byte>): Result<Duration, DateError> {
    if |data| < 7 then Err(TooShort)
    else
      var days := FromBytes(data[..4]) - DURATION_MID;
      var hours, minutes, seconds := data[4] as int - 60, data[5] as int - 60, data[6] as int - 60;
      var fseconds := FromBytes(data[7..Min(11, |data|)]) - DURATION_MID;
      var micros := (if fseconds < 0 then -fseconds else fseconds) / 1000;
      FromMicroseconds(Recombine(days, hours, minutes, seconds) * 1_000_000 + micros)
  }

  /** Days, hours, minutes and seconds recombine to the seconds they were split from. */
  lemma SplitSeconds(s: int)
    ensures Recombine(Days(s), Hours(s), Minutes(s), Seconds(s)) == s
    ensures Recombine(-Days(s), -Hours(s), -Minutes(s), -Seconds(s)) == -s
  {
    assert s % 86400 % 3600 == s % 3600 by { ModMod(s, 24, 3600); }
    assert s % 3600 % 60 == s % 60 by { ModMod(s, 60, 60); }
  }

  function ClockBytes(s: int): (bs: seq<byte>)
    ensures |bs| == 3
  {
    [Hours(s) + 60, Minutes(s) + 60, Seconds(s) + 60]
  }

  lemma SplitOrder(s: int, r: int)
    ensures s < r <==> (Days(s) < Days(r) || (Days(s) == Days(r) && LexLess(ClockBytes(s), ClockBytes(r))))
    ensures s == r <==> (Days(s) == Days(r) && ClockBytes(s) == ClockBytes(r))
  {
    SplitSeconds(s); SplitSeconds(r);
    LexThree(Hours(s) + 60, Minutes(s) + 60, Seconds(s) + 60, Hours(r) + 60, Minutes(r) + 60, Seconds(r) + 60);
    var hs, hr := ClockBytes(s), ClockBytes(r);
    assert hs == hr <==> hs[0] == hr[0] && hs[1] == hr[1] && hs[2] == hr[2];
    hide Days, Hours, Minutes, Seconds;
  }

  lemma ModMod(s: int, a: int, b: int)
    requires a > 0 && b > 0 && a * b > 0
    ensures s % (a * b) % b == s % b
  {
    var q, r := s / (a * b), s % (a * b);
    assert s == q * (a * b) + r && q * (a * b) == (q * a) * b;
    assert s == (q * a + r / b) * b + r % b by {
      assert (q * a + r / b) * b == (q * a) * b + r / b * b;
    }
    EuclidUnique(s, b, q * a + r / b, r % b);
  }

  lemma EuclidUnique(s: int, b: int, q: int, r: int)
    requires b > 0 && s == q * b + r && 0 <= r < b
    ensures s % b == r
  {
    var q', r' := s / b, s % b;
    assert s == q' * b + r';
    if q < q' { MulStep(q, q', b); } else if q' < q { MulStep(q', q, b); }
  }

  lemma MaskedRoundTrip(v: int)
    requires -DURATION_MID <= v < DURATION_MID
    ensures FromBytes(ToBytes(Mask32(v + DURATION_MID), 4)) == v + DURATION_MID
  {
    assert Pow(256, 4) == 0x1_0000_0000;
    RoundTrip(Mask32(v + DURATION_MID), 4);
  }

  lemma FieldsDecode(days: int, hours: int, minutes: int, seconds: int, fseconds: int)
    requires -DURATION_MID <= days < DURATION_MID && -DURATION_MID <= fseconds < DURATION_MID
    requires -60 <= hours < 196 && -60 <= minutes < 196 && -60 <= seconds < 196
    ensures |EncodeFields(days, hours, minutes, seconds, fseconds)| == 11
    ensures DecodeInterval(EncodeFields(days, hours, minutes, seconds, fseconds)) ==
      FromMicroseconds(Recombine(days, hours, minutes, seconds) * 1_000_000
                       + (if fseconds < 0 then -fseconds else fseconds) / 1000)
  {
    hide Mask32, FromMicroseconds, Recombine;
    var w := EncodeFields(days, hours, minutes, seconds, fseconds);
    assert w[..4] == ToBytes(Mask32(days + DURATION_MID), 4);
    assert w[7..11] == ToBytes(Mask32(fseconds + DURATION_MID), 4);
    MaskedRoundTrip(days); MaskedRoundTrip(fseconds);
  }

  lemma WholeSecondsOf(t: Duration)
    requires t.Valid()
    ensures t.days >= 0 ==>
      WholeSeconds(t) == t.days * 86400 + t.seconds + if RoundsUp(t.Total()) then 1 else 0
    ensures t.days < 0 ==> -MAX_DAYS * 86400 <= WholeSeconds(t) <= 0
    ensures WholeSeconds(t) <= (MAX_DAYS + 1) * 86400
  {
    hide Quotient, RoundsUp;
    TotalCountable(t);
    if t.days >= 0 {
      QuotientExact(t.Total());
      EuclidUnique(t.Total(), 1_000_000, t.days * 86400 + t.seconds, t.microseconds);
    } else {
      var us: nat := -t.Total();
      QuotientExact(us);
      if t.seconds == 0 && t.microseconds == 0 { WholeIsExact(us); }
    }
  }

  lemma WholeIsExact(us: nat)
    requires Countable(us) && us % 1_000_000 == 0
    ensures !RoundsUp(us)
  {
    if us > 0 { PowPositive(2, Places(us)); }
  }

  /** What any interval decodes to: its whole seconds without their sign, plus its microsecond field. */
  lemma IntervalDecoded(t: Duration)
    requires t.Valid()
    ensures |EncodeInterval(t)| == 11
    ensures DecodeInterval(EncodeInterval(t)) ==
      FromMicroseconds((if t.days < 0 then -WholeSeconds(t) else WholeSeconds(t)) * 1_000_000 + t.microseconds)
  {
    hide Hours, Minutes, Seconds, EncodeFields, DecodeInterval, FromMicroseconds, Recombine, WholeSeconds;
    var s, f := WholeSeconds(t), t.microseconds * 1000;
    WholeSecondsOf(t);
    SplitSeconds(s);
    if t.days < 0 {
      FieldsDecode(-Days(s), -Hours(s), -Minutes(s), -Seconds(s), -f);
    } else {
      FieldsDecode(Days(s), Hours(s), Minutes(s), Seconds(s), f);
    }
  }

  lemma FromTotal(t: Duration)
    requires t.Valid() && t.days >= 0
    ensures FromMicroseconds((t.days * 86400 + t.seconds) * 1_000_000 + t.microseconds) == Ok(t)
  {
    var s := t.days * 86400 + t.seconds;
    EuclidUnique(s * 1_000_000 + t.microseconds, 1_000_000, s, t.microseconds);
    EuclidUnique(s, 86400, t.days, t.seconds);
  }

  lemma NeverNegative(m: int)
    requires m >= 0
    ensures FromMicroseconds(m).Ok? ==> FromMicroseconds(m).value.days >= 0
  {
  }

  /** An interval comes back exactly when it is not negative and its seconds are not rounded up. */
  lemma IntervalRoundTrip(t: Duration)
    requires t.Valid()
    ensures DecodeInterval(EncodeInterval(t)) == Ok(t) <==> t.days >= 0 && !RoundsUp(t.Total())
  {
    IntervalDecoded(t);
    WholeSecondsOf(t);
    hide DecodeInterval, EncodeInterval, WholeSeconds, FromMicroseconds, RoundsUp;
    if t.days >= 0 {
      if RoundsUp(t.Total()) {
        NotTheSame(t);
      } else {
        FromTotal(t);
      }
    } else {
      NeverNegative(-WholeSeconds(t) * 1_000_000 + t.microseconds);
    }
  }

  lemma NotTheSame(t: Duration)
    requires t.Valid() && t.days >= 0
    ensures FromMicroseconds((t.days * 86400 + t.seconds + 1) * 1_000_000 + t.microseconds) != Ok(t)
  {
    var us := (t.days * 86400 + t.seconds + 1) * 1_000_000 + t.microseconds;
    EuclidUnique(us, 1_000_000, t.days * 86400 + t.seconds + 1, t.microseconds);
  }

  lemma DaysRange(s: int)
    requires 0 <= s <= (MAX_DAYS + 1) * 86400
    ensures 0 <= Days(s) <= MAX_DAYS + 1
  {
  }

  lemma MaskFits(x: int)
    requires 0 <= x < 0x1_0000_0000
    ensures Mask32(x) == x
  {
  }

  lemma NonNegativeBytes(t: Duration)
    requires t.Valid() && t.days >= 0
    ensures var s := WholeSeconds(t);
      && 0 <= Days(s) <= MAX_DAYS + 1
      && EncodeInterval(t) == (ToBytes(Days(s) + DURATION_MID, 4) + ClockBytes(s))
                              + ToBytes(t.microseconds * 1000 + DURATION_MID, 4)
  {
    hide WholeSeconds, Days, Hours, Minutes, Seconds, RoundsUp, ToBytes, Mask32;
    var s := WholeSeconds(t);
    WholeSecondsOf(t);
    DaysRange(s);
    MaskFits(Days(s) + DURATION_MID);
    MaskFits(t.microseconds * 1000 + DURATION_MID);
  }

  /** What the bytes of a non-negative interval sort by: its length, a second more when rounded up. */
  function SortedAs(t: Duration): int { t.Total() + if RoundsUp(t.Total()) then 1_000_000 else 0 }

  lemma BytesOrder(t: Duration, u: Duration)
    requires t.Valid() && u.Valid() && t.days >= 0 && u.days >= 0
    ensures LexLess(EncodeInterval(t), EncodeInterval(u)) <==> SortedAs(t) < SortedAs(u)
  {
    hide EncodeInterval, ClockBytes, WholeSeconds, Days, RoundsUp, Mask32;
    NonNegativeBytes(t); NonNegativeBytes(u);
    WholeSecondsOf(t); WholeSecondsOf(u);
    var s, r := WholeSeconds(t), WholeSeconds(u);
    SplitOrder(s, r);
    var dt, du := Days(s) + DURATION_MID, Days(r) + DURATION_MID;
    var ft, fu := t.microseconds * 1000 + DURATION_MID, u.microseconds * 1000 + DURATION_MID;
    LexAppend(ToBytes(dt, 4) + ClockBytes(s), ToBytes(du, 4) + ClockBytes(r), ToBytes(ft, 4), ToBytes(fu, 4));
    LexAppend(ToBytes(dt, 4), ToBytes(du, 4), ClockBytes(s), ClockBytes(r));
    ConcatEqual(ToBytes(dt, 4), ToBytes(du, 4), ClockBytes(s), ClockBytes(r));
    assert Pow(256, 4) == 0x1_0000_0000;
    Order(dt, du, 4); Order(ft, fu, 4);
  }

  /** One of the two is rounded up past, or level with, the other. */
  predicate Overtakes(t: Duration, u: Duration) {
    || (RoundsUp(t.Total()) && !RoundsUp(u.Total()) && 0 < u.Total() - t.Total() <= 1_000_000)
    || (RoundsUp(u.Total()) && !RoundsUp(t.Total()) && 0 <= t.Total() - u.Total() < 1_000_000)
  }

  /** Non-negative intervals sort byte by byte as their lengths, except exactly when one of them is
      rounded up past, or level with, the other. */
  lemma IntervalOrder(t: Duration, u: Duration)
    requires t.Valid() && u.Valid() && t.days >= 0 && u.days >= 0
    ensures (LexLess(EncodeInterval(t), EncodeInterval(u)) <==> t.Total() < u.Total()) <==> !Overtakes(t, u)
  {
    hide EncodeInterval, RoundsUp;
    BytesOrder(t, u);
  }

  /** Intervals of less than 2^34 seconds, some 544 years, sort as their lengths and come back. */
  lemma ExactWithinCenturies(t: Duration, u: Duration)
    requires t.Valid() && u.Valid() && t.days >= 0 && u.days >= 0
    requires t.Total() < 0x4_0000_0000 * 1_000_000 && u.Total() < 0x4_0000_0000 * 1_000_000
    ensures DecodeInterval(EncodeInterval(t)) == Ok(t)
    ensures LexLess(EncodeInterval(t), EncodeInterval(u)) <==> t.Total() < u.Total()
  {
    hide EncodeInterval, DecodeInterval, RoundsUp;
    ExactBelow(t.Total()); ExactBelow(u.Total());
    IntervalRoundTrip(t);
    IntervalOrder(t, u);
  }

  // ---------------------------------------------------------------------
  // Intervals at the limits
  // ---------------------------------------------------------------------

  const CENTURIES := Duration(198842, 86399, 999_999)

  lemma CenturiesRoundUp()
    ensures CENTURIES.Valid() && RoundsUp(CENTURIES.Total())
  {
    var us := CENTURIES.Total();
    SmallPowers();
    PlacesRange(us);
    hide Pow, Places;
    var f := Places(us);
    if f < 18 {
      PowMonotone(2, f + 1, 18);
      Doubling(us, f);
      Product(us, Pow(2, f + 1), us, 0x4_0000);
    } else if f > 18 {
      PowMonotone(2, 19, f);
      Product(us, 0x8_0000, us, Pow(2, f));
    }
  }

  /** An interval of 544 years and a microsecond short of a second does not come back, and sorts after
      the interval one microsecond longer. */
  lemma CenturiesGainASecond()
    ensures DecodeInterval(EncodeInterval(CENTURIES)) != Ok(CENTURIES)
    ensures var next := Duration(198843, 0, 0);
      next.Total() == CENTURIES.Total() + 1 && LexLess(EncodeInterval(next), EncodeInterval(CENTURIES))
  {
    hide EncodeInterval, DecodeInterval, RoundsUp;
    CenturiesRoundUp();
    WholeIsExact(Duration(198843, 0, 0).Total());
    IntervalRoundTrip(CENTURIES);
    BytesOrder(Duration(198843, 0, 0), CENTURIES);
  }

  lemma OneDayBack()
    ensures WholeSeconds(Duration(-1, 0, 0)) == -86400
  {
    hide Quotient, RoundsUp;
    QuotientExact(86400 * 1_000_000);
    WholeIsExact(86400 * 1_000_000);
  }

  /** Minus one day is read back as one day. */
  lemma MinusOneDay()
    ensures DecodeInterval(EncodeInterval(Duration(-1, 0, 0))) == Ok(Duration(1, 0, 0))
  {
    hide EncodeInterval, DecodeInterval, WholeSeconds, FromMicroseconds;
    IntervalDecoded(Duration(-1, 0, 0));
    OneDayBack();
    FromTotal(Duration(1, 0, 0));
  }
}
