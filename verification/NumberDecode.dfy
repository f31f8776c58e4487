/** Decoding NUMBER bytes, and the round trip from text to bytes to decimal. */
module NumberDecode {
  import opened Basics
  import opened PlaceValue
  import opened Numeral
  import opened NumberCodec
  import opened NumberOrder

  /** A decimal as the host language holds it: plus or minus coef times 10^exp. */
  datatype Decimal = Decimal(neg: bool, coef: nat, exp: int)

  const ZERO := Decimal(false, 0, 0)

  /** Significant digits kept by decimal arithmetic. */
  const PRECISION := 28

  function DigitCount(c: nat): nat { if c < 10 then 1 else 1 + DigitCount(c / 10) }

  /** A coefficient that rounding carried to one digit too many loses its last zero. */
  function Carry(neg: bool, coef: nat, exp: int): Decimal {
    if coef < Pow(10, PRECISION) then Decimal(neg, coef, exp) else Decimal(neg, coef / 10, exp + 1)
  }

  /** Rounds to the working precision, half to even. */
  function Round(d: Decimal): Decimal {
    var n := DigitCount(d.coef);
    if n <= PRECISION then d
    else
      PowPositive(10, n - PRECISION);
      Carry(d.neg, Nearest(d.coef, Pow(10, n - PRECISION)), d.exp + n - PRECISION)
  }

  /** The pairs as two decimal digits each. */
  function Unpair(pairs: seq<int>): (ds: seq<int>)
    ensures |ds| == 2 * |pairs|
  {
    if pairs == [] then [] else [pairs[0] / 10, pairs[0] % 10] + Unpair(pairs[1..])
  }

  function DecodePairs(neg: bool, lead: int, pairs: seq<int>): Result<Decimal, NumberError> {
    if pairs == [] then Ok(ZERO)
    else if !AllDigits(pairs, 100) then Err(MalformedNumber)
    else
      var ds := Unpair(pairs);
      UnpairDigits(pairs);
      WorthBound(ds, 10, |ds|);
      Ok(Round(Decimal(neg, Worth(ds, 10, |ds|), 2 * (lead - 192 - |pairs|))))
  }

  function DropClosing(data: seq<byte>): seq<byte> {
    if data != [] && data[|data| - 1] == 102 then data[..|data| - 1] else data
  }

  function PlainRead(bs: seq<byte>): seq<int> {
    seq(|bs|, i requires 0 <= i < |bs| => (bs[i] as int) - 1)
  }

  function ComplementRead(bs: seq<byte>): seq<int> {
    seq(|bs|, i requires 0 <= i < |bs| => 101 - (bs[i] as int))
  }

  /** Decodes any byte string: to a decimal, or to an error. */
  function DecodeNumber(data: seq<byte>): Result<Decimal, NumberError> {
    if data == [] || data[0] == 0x80 then Ok(ZERO)
    else if data[0] >= 0x80 then
      DecodePairs(false, data[0], PlainRead(data[1..]))
    else
      DecodePairs(true, 255 - data[0], ComplementRead(DropClosing(data[1..])))
  }

  lemma {:induction false} UnpairDigits(pairs: seq<int>)
    requires AllDigits(pairs, 100)
    ensures AllDigits(Unpair(pairs), 10)
  {
    if pairs != [] { UnpairDigits(pairs[1..]); }
  }

  lemma PairUpUnfold(flat: seq<int>)
    requires flat != [] && |flat| % 2 == 0
    ensures PairUp(flat) == [flat[0] * 10 + flat[1]] + PairUp(flat[2..])
  {
  }

  lemma UnpairUnfold(pair: int, rest: seq<int>)
    ensures Unpair([pair] + rest) == [pair / 10, pair % 10] + Unpair(rest)
  {
    assert ([pair] + rest)[1..] == rest;
  }

  lemma {:induction false} UnpairPairUp(flat: seq<int>)
    requires |flat| % 2 == 0 && AllDigits(flat, 10)
    ensures Unpair(PairUp(flat)) == flat
  {
    if flat != [] {
      var rest := PairUp(flat[2..]);
      UnpairPairUp(flat[2..]);
      PairUpUnfold(flat);
      UnpairUnfold(flat[0] * 10 + flat[1], rest);
      assert flat == [flat[0], flat[1]] + flat[2..];
    }
  }

  // ---------------------------------------------------------------------
  // Decoding what was encoded
  // ---------------------------------------------------------------------

  /** The decimal read from the wire of n, before rounding. */
  function Unrounded(n: Literal): Decimal
    requires Wireable(n)
  {
    PairsShape(n);
    var flat := Aligned(n);
    WorthBound(flat, 10, |flat|);
    Decimal(n.neg, Worth(flat, 10, |flat|), 2 * (Exponent(n) - |Pairs(n)|))
  }

  /** The only bytes misread are those whose exponent byte is that of zero. */
  predicate ReadAsZero(n: Literal) { !n.neg && n.point <= -128 }

  lemma PairsDecoded(n: Literal, lead: int)
    requires Wireable(n) && lead - 192 == Exponent(n)
    ensures DecodePairs(n.neg, lead, Pairs(n)) == Ok(Round(Unrounded(n)))
  {
    hide Round;
    PairsShape(n);
    UnpairPairUp(Aligned(n));
  }

  lemma NegativeBytes(n: Literal)
    requires Wireable(n) && n.neg
    ensures DropClosing(Body(n) + Closing(n)) == Body(n) && ComplementRead(Body(n)) == Pairs(n)
  {
    PairsShape(n);
    hide Pairs;
    var body, pairs := Body(n), Pairs(n);
    assert body[|pairs| - 1] == 101 - pairs[|pairs| - 1];
    if Closing(n) == [] { assert body + Closing(n) == body; }
  }

  /** The wire of n is read back as n, rounded, unless its exponent byte is that of zero. */
  lemma DecodeWire(n: Literal)
    requires Wireable(n)
    ensures DecodeNumber(WireForm(n)) == Ok(if ReadAsZero(n) then ZERO else Round(Unrounded(n)))
  {
    hide WireForm, Pairs, DecodePairs, Round, Unrounded, Body, Closing;
    WireLead(n);
    if n.neg {
      NegativeBytes(n);
      PairsDecoded(n, 255 - Lead(n));
    } else if !ReadAsZero(n) {
      PositiveBytes(n);
      PairsDecoded(n, Lead(n));
    }
  }

  lemma PositiveBytes(n: Literal)
    requires Wireable(n) && !n.neg
    ensures PlainRead(Body(n) + Closing(n)) == Pairs(n)
  {
    hide Pairs;
    assert Body(n) + Closing(n) == Body(n);
  }

  // ---------------------------------------------------------------------
  // Values
  // ---------------------------------------------------------------------

  ghost predicate DecimalFits(d: Decimal, scale: nat) { 0 <= scale + d.exp }

  /** The value of d times 10^scale. */
  ghost function DecimalScaled(d: Decimal, scale: nat): int
    requires DecimalFits(d, scale)
  {
    var m := d.coef * Pow(10, scale + d.exp);
    if d.neg then -m else m
  }

  /** Before rounding, the decoded decimal is the encoded number. */
  lemma UnroundedValue(n: Literal, scale: nat)
    requires Wireable(n) && Fits(n, scale) && DecimalFits(Unrounded(n), scale)
    ensures DecimalScaled(Unrounded(n), scale) == Scaled(n, scale)
  {
    PairsShape(n);
    var flat := Aligned(n);
    AlignedWorth(n, scale);
    WorthScale(flat, 10, |flat|, scale + Unrounded(n).exp);
    assert |flat| + (scale + Unrounded(n).exp) == scale + 2 * Exponent(n);
  }

  // ---------------------------------------------------------------------
  // Rounding
  // ---------------------------------------------------------------------

  lemma {:induction false} DigitCountBounds(c: nat)
    requires c > 0
    ensures Pow(10, DigitCount(c) - 1) <= c < Pow(10, DigitCount(c))
  {
    if c >= 10 {
      DigitCountBounds(c / 10);
      var n := DigitCount(c / 10);
      assert Pow(10, n) == 10 * Pow(10, n - 1) && Pow(10, n + 1) == 10 * Pow(10, n);
    }
  }

  lemma DigitCountIs(c: nat, n: nat)
    requires n > 0 && Pow(10, n - 1) <= c < Pow(10, n)
    ensures DigitCount(c) == n
  {
    PowPositive(10, n - 1);
    DigitCountBounds(c);
    var m := DigitCount(c);
    if m < n { PowMonotone(10, m, n - 1); }
    if n < m { PowMonotone(10, n, m - 1); }
  }

  /** The digits that rounding would cut off are all zero. */
  predicate CutIsZero(c: nat) {
    DigitCount(c) <= PRECISION ||
    (PowPositive(10, DigitCount(c) - PRECISION); c % Pow(10, DigitCount(c) - PRECISION) == 0)
  }

  lemma SmallerFactor(q: int, p: int, u: int)
    requires u > 0 && q * u < p * u
    ensures q < p
  {
    if p < q { MulStep(p, q, u); }
  }

  lemma NearestBound(c: nat, k: nat, p: nat)
    requires c < Pow(10, p + k) && Pow(10, k) > 0
    ensures Nearest(c, Pow(10, k)) <= Pow(10, p)
  {
    PowAdd(10, p, k);
    SmallerFactor(c / Pow(10, k), Pow(10, p), Pow(10, k));
  }

  /** Carrying keeps the value. */
  lemma CarryValue(neg: bool, coef: nat, exp: int, s: nat)
    requires coef <= Pow(10, PRECISION)
    ensures var r := Carry(neg, coef, exp);
      && exp <= r.exp && r.neg == neg
      && r.coef * Pow(10, s + r.exp - exp) == coef * Pow(10, s)
  {
    if coef == Pow(10, PRECISION) {
      var t, m := Pow(10, PRECISION - 1), Pow(10, s);
      assert coef == 10 * t;
      hide Pow;
      assert coef / 10 == t;
      assert Pow(10, s + 1) == 10 * m by { PowTen(s); }
      Reassociate(t, m, 10);
    }
  }

  /** Rounding to a multiple of unit is exact only on multiples of unit. */
  lemma NearestExact(c: nat, unit: nat)
    requires unit > 0
    ensures Nearest(c, unit) * unit == c <==> c % unit == 0
  {
    var q, r := c / unit, c % unit;
    assert c == q * unit + r;
    assert (q + 1) * unit == q * unit + unit;
  }

  lemma SameFactor(x: int, y: int, m: int)
    requires m > 0
    ensures x * m == y * m <==> x == y
  {
    if x < y { MulStep(x, y, m); } else if y < x { MulStep(y, x, m); }
  }

  lemma RoundedCoefficient(d: Decimal, s: nat)
    requires DigitCount(d.coef) > PRECISION && d.coef > 0
    ensures var r := Round(d);
      && d.exp <= r.exp && r.neg == d.neg
      && (r.coef * Pow(10, s + r.exp - d.exp) == d.coef * Pow(10, s) <==> CutIsZero(d.coef))
  {
    var k := DigitCount(d.coef) - PRECISION;
    PowPositive(10, k); PowPositive(10, s);
    DigitCountBounds(d.coef);
    NearestBound(d.coef, k, PRECISION);
    var unit, m, near := Pow(10, k), Pow(10, s), Nearest(d.coef, Pow(10, k));
    CarryValue(d.neg, near, d.exp + k, s + k);
    PowAdd(10, s, k);
    NearestExact(d.coef, unit);
    Reassociate(near, unit, m);
    SameFactor(near * unit, d.coef, m);
  }

  lemma PowTen(s: nat)
    ensures Pow(10, s + 1) == 10 * Pow(10, s)
  {
  }

  lemma Reassociate(a: int, b: int, c: int)
    ensures a * (c * b) == (a * b) * c
  {
  }

  /** Rounding keeps the value exactly when it cuts off nothing but zeros. */
  lemma RoundExact(d: Decimal, scale: nat)
    requires d.coef > 0 && DecimalFits(d, scale)
    ensures DecimalFits(Round(d), scale)
    ensures DecimalScaled(Round(d), scale) == DecimalScaled(d, scale) <==> CutIsZero(d.coef)
  {
    if DigitCount(d.coef) > PRECISION {
      hide Round, CutIsZero;
      RoundedCoefficient(d, scale + d.exp);
    }
  }

  // ---------------------------------------------------------------------
  // Which encoded numbers have only zeros to cut
  // ---------------------------------------------------------------------

  lemma Divides(c: nat, m: nat)
    requires m > 0 && c % m == 0
    ensures c == (c / m) * m
  {
  }

  lemma TenTimes(x: nat)
    ensures (10 * x) % 10 == 0
  {
  }

  lemma PowerDividesTen(c: nat, k: nat)
    requires k > 0 && Pow(10, k) > 0 && c % Pow(10, k) == 0
    ensures c % 10 == 0
  {
    PowTen(k - 1); PowPositive(10, k - 1);
    Divides(c, Pow(10, k));
    hide Pow;
    var q, p := c / Pow(10, k), Pow(10, k - 1);
    Reassociate(q, p, 10);
    TenTimes(q * p);
  }

  lemma PowerDividesLess(m: nat, k: nat)
    requires k > 1 && Pow(10, k) > 0 && (10 * m) % Pow(10, k) == 0
    ensures m % 10 == 0
  {
    PowTen(k - 1); PowTen(k - 2); PowPositive(10, k - 2);
    Divides(10 * m, Pow(10, k));
    hide Pow;
    var q, p := 10 * m / Pow(10, k), Pow(10, k - 2);
    Reassociate(q, 10 * p, 10);
    Reassociate(q, p, 10);
    TenTimes(q * p);
  }

  /** A coefficient of size significant digits and one optional padding zero. */
  lemma CutSignificant(m: nat, size: nat, padded: bool)
    requires size > 0 && m % 10 != 0 && Pow(10, size - 1) <= m < Pow(10, size)
    ensures CutIsZero(if padded then 10 * m else m) <==> size <= PRECISION
  {
    var c, n := if padded then 10 * m else m, if padded then size + 1 else size;
    assert Pow(10, size + 1) == 10 * Pow(10, size) && Pow(10, size) == 10 * Pow(10, size - 1);
    DigitCountIs(c, n);
    if n > PRECISION {
      PowPositive(10, n - PRECISION);
      if size == PRECISION {
        assert Pow(10, 1) == 10;
      } else if c % Pow(10, n - PRECISION) == 0 {
        if padded { PowerDividesLess(m, n - PRECISION); } else { PowerDividesTen(m, n - PRECISION); }
      }
    }
  }

  /** The coefficient is the significant digits, with the alignment zeros around them. */
  lemma UnroundedCoefficient(n: Literal)
    requires Wireable(n)
    ensures var m := Worth(n.digits, 10, |n.digits|);
      Unrounded(n).coef == m || Unrounded(n).coef == 10 * m
  {
    hide Worth;
    var lead := if n.point % 2 == 1 then [0] + n.digits else n.digits;
    LeadingZeroWorth(n.digits);
    TrailingZeroWorth(lead);
  }

  lemma LeadingZeroWorth(ds: seq<int>)
    requires AllDigits(ds, 10)
    ensures Worth([0] + ds, 10, |ds| + 1) == Worth(ds, 10, |ds|)
  {
    hide Pow, Worth, AllDigits;
    WorthUnfold([0] + ds, 10, |ds| + 1);
    assert ([0] + ds)[1..] == ds;
  }

  lemma TrailingZeroWorth(ds: seq<int>)
    requires AllDigits(ds, 10)
    ensures Worth(ds + [0], 10, |ds| + 1) == 10 * Worth(ds, 10, |ds|)
  {
    WorthLastDigit(ds + [0]);
    assert (ds + [0])[..|ds|] == ds;
  }

  /** Rounding the decoded decimal cuts off a nonzero digit exactly when there are more than 28 digits. */
  lemma CutDigits(n: Literal)
    requires Wireable(n)
    ensures Unrounded(n).coef > 0
    ensures CutIsZero(Unrounded(n).coef) <==> |n.digits| <= PRECISION
  {
    hide Unrounded, CutIsZero, Pow, Worth, InRange;
    var size := |n.digits|;
    var m := Worth(n.digits, 10, size);
    WorthBound(n.digits, 10, size);
    WorthLead(n.digits, 10, size);
    WorthLastDigit(n.digits);
    PowPositive(10, size - 1);
    UnroundedCoefficient(n);
    CutSignificant(m, size, Unrounded(n).coef != m);
  }

  // ---------------------------------------------------------------------
  // The round trip
  // ---------------------------------------------------------------------

  /** A wireable number survives the wire exactly when it has at most 28 significant digits and its
      exponent byte is not the zero marker. */
  lemma WireRoundTrip(n: Literal, scale: nat)
    requires Wireable(n) && Fits(n, scale)
    requires DecimalFits(Unrounded(n), scale)
    ensures var r := DecodeNumber(WireForm(n));
      && r.Ok? && DecimalFits(r.value, scale)
      && (DecimalScaled(r.value, scale) == Scaled(n, scale)
          <==> |n.digits| <= PRECISION && !ReadAsZero(n))
  {
    hide DecodeNumber, Unrounded, Round, CutIsZero, WireForm;
    DecodeWire(n);
    UnroundedValue(n, scale);
    CutDigits(n);
    RoundExact(Unrounded(n), scale);
    Positive(n, scale);
  }

  lemma NormalWireable(n: Literal, scale: nat)
    requires Encodable(n) && n.digits != [] && scale >= 170
    ensures Wireable(n) && DecimalFits(Unrounded(n), scale)
  {
    PairsShape(n);
  }

  lemma ZeroScaled(n: Literal, scale: nat)
    requires n.digits == [] && Fits(n, scale)
    ensures Scaled(n, scale) == 0
  {
  }

  /** Encoding a text and decoding the bytes gives back the value of the text, for exactly the texts
      that are zero, or have at most 28 significant digits and are not a positive number with
      decimal index -128 or -129. Every scale from 170 on makes the decoded decimal an integer. */
  lemma RoundTrip(text: string, scale: nat)
    requires scale >= 170
    ensures Encode(text).Ok? && Fits(Read(text).value, scale) ==>
      var l, n, r := Read(text).value, NormalOf(text), DecodeNumber(Encode(text).value);
      && r.Ok? && DecimalFits(r.value, scale)
      && (DecimalScaled(r.value, scale) == Scaled(l, scale)
          <==> n.digits == [] || (|n.digits| <= PRECISION && !ReadAsZero(n)))
  {
    if Encode(text).Ok? && Fits(Read(text).value, scale) {
      hide Scaled, Wireable, Read;
      var n := NormalOf(text);
      ThroughNormalForm(text, scale);
      if n.digits != [] {
        assert Wireable(n) && DecimalFits(Unrounded(n), scale) by { NormalWireable(n, scale); }
        WireRoundTrip(n, scale);
      } else {
        ZeroScaled(n, scale);
      }
    }
  }
}
