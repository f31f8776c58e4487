/** Byte order of NUMBER encodings against numeric order, canonicity and size. */
module NumberOrder {
  import opened Basics
  import opened PlaceValue
  import opened Numeral
  import opened NumberCodec

  // ---------------------------------------------------------------------
  // Shape of the pairs
  // ---------------------------------------------------------------------

  /** A number the encoder can put on the wire with an exponent: normal, nonzero, in range. */
  predicate Wireable(n: Literal) { Normal(n) && n.digits != [] && InRange(n) }

  lemma PairsShape(n: Literal)
    requires Wireable(n)
    ensures var p := Pairs(n);
      && 0 < |p| <= 21 && AllDigits(p, 100) && p[0] != 0 && NoTrailingZero(p)
      && 2 * |p| == |Aligned(n)|
  {
    var flat := Aligned(n);
    var lead := if n.point % 2 == 1 then [0] + n.digits else n.digits;
    assert lead[|lead| - 1] == n.digits[|n.digits| - 1] != 0;
    assert lead[0] == n.digits[0] || lead[1] == n.digits[0];
    var last := |flat| / 2 - 1;
    assert flat[2 * last] != 0 || flat[2 * last + 1] != 0;
  }

  /** Alignment only adds zeros at the ends, which weigh nothing. */
  lemma AlignedWorth(n: Literal, scale: nat)
    requires n.Valid() && Fits(n, scale) && |Aligned(n)| <= scale + 2 * Exponent(n)
    ensures Worth(n.digits, 10, scale + n.point) == Worth(Aligned(n), 10, scale + 2 * Exponent(n))
  {
    var s := scale + 2 * Exponent(n);
    var lead := if n.point % 2 == 1 then [0] + n.digits else n.digits;
    assert lead[|lead| - |n.digits|..] == n.digits;
    assert |lead| <= s && Worth(lead, 10, s) == Worth(n.digits, 10, scale + n.point);
    if |lead| % 2 == 1 {
      WorthAppend(lead, [0], 10, s);
    }
  }

  /** The base-100 reading of the pairs is the number itself, at every even scale. */
  lemma PairsWorth(n: Literal, half: nat)
    requires n.Valid() && Fits(n, 2 * half) && |Pairs(n)| <= half + Exponent(n)
    ensures Worth(n.digits, 10, 2 * half + n.point) == Worth(Pairs(n), 100, half + Exponent(n))
  {
    AlignedWorth(n, 2 * half);
    PairUpWorth(Aligned(n), half + Exponent(n));
  }

  /** A scale at which the pairs of n stand for an integer. */
  lemma PairsFit(n: Literal, half: nat)
    requires Fits(n, 2 * half)
    ensures |Pairs(n)| <= half + Exponent(n)
  {
  }

  // ---------------------------------------------------------------------
  // Magnitudes: exponent first, then pairs
  // ---------------------------------------------------------------------

  predicate MagnitudeLess(a: Literal, b: Literal) {
    Exponent(a) < Exponent(b) || (Exponent(a) == Exponent(b) && LexLess(Pairs(a), Pairs(b)))
  }

  lemma SmallerExponent(a: Literal, b: Literal, half: nat)
    requires Wireable(a) && Wireable(b) && Fits(a, 2 * half) && Fits(b, 2 * half)
    requires Exponent(a) < Exponent(b)
    ensures Worth(a.digits, 10, 2 * half + a.point) < Worth(b.digits, 10, 2 * half + b.point)
  {
    PairsShape(a); PairsShape(b); PairsFit(a, half); PairsFit(b, half);
    PairsWorth(a, half); PairsWorth(b, half);
    WorthBound(Pairs(a), 100, half + Exponent(a));
    WorthLead(Pairs(b), 100, half + Exponent(b));
    PowMonotone(100, half + Exponent(a), half + Exponent(b) - 1);
  }

  lemma MagnitudeOrder(a: Literal, b: Literal, half: nat)
    requires Wireable(a) && Wireable(b) && Fits(a, 2 * half) && Fits(b, 2 * half)
    ensures MagnitudeLess(a, b)
       <==> Worth(a.digits, 10, 2 * half + a.point) < Worth(b.digits, 10, 2 * half + b.point)
  {
    if Exponent(a) < Exponent(b) {
      SmallerExponent(a, b, half);
    } else if Exponent(b) < Exponent(a) {
      SmallerExponent(b, a, half);
    } else {
      PairsShape(a); PairsShape(b); PairsFit(a, half); PairsFit(b, half);
      PairsWorth(a, half); PairsWorth(b, half);
      WorthOrder(Pairs(a), Pairs(b), 100, half + Exponent(a));
    }
  }

  lemma Positive(n: Literal, scale: nat)
    requires Wireable(n) && Fits(n, scale)
    ensures Worth(n.digits, 10, scale + n.point) > 0
  {
    WorthPositive(n.digits, 10, scale + n.point);
  }

  // ---------------------------------------------------------------------
  // Bytes
  // ---------------------------------------------------------------------

  lemma {:induction false} PlainOrder(p: seq<int>, q: seq<int>)
    requires AllDigits(p, 100) && AllDigits(q, 100)
    ensures LexLess(PlainPairs(p), PlainPairs(q)) <==> LexLess(p, q)
  {
    if p != [] && q != [] {
      assert PlainPairs(p)[1..] == PlainPairs(p[1..]) && PlainPairs(q)[1..] == PlainPairs(q[1..]);
      PlainOrder(p[1..], q[1..]);
    }
  }

  /** Complemented pairs compare in reverse, provided a proper prefix carries the closing 102. */
  lemma {:induction false} ComplementOrder(p: seq<int>, tp: seq<int>, q: seq<int>, tq: seq<int>)
    requires AllDigits(p, 100) && AllDigits(q, 100)
    requires tp in [[], [102]] && tq in [[], [102]] && (p == q ==> tp == tq)
    ensures var x, y := ComplementPairs(p) + tp, ComplementPairs(q) + tq;
      LexLess(x, y) <==> if p < q then tp == [] else if q < p then tq == [102] else LexLess(q, p)
  {
    var x, y := ComplementPairs(p) + tp, ComplementPairs(q) + tq;
    if p == [] || q == [] {
    } else {
      assert x[1..] == ComplementPairs(p[1..]) + tp && y[1..] == ComplementPairs(q[1..]) + tq;
      assert p == [p[0]] + p[1..] && q == [q[0]] + q[1..];
      if p[0] == q[0] {
        ComplementOrder(p[1..], tp, q[1..], tq);
        assert p < q <==> p[1..] < q[1..];
        assert q < p <==> q[1..] < p[1..];
      }
    }
  }

  lemma {:induction false} PrefixIsLess(p: seq<int>, q: seq<int>)
    requires p < q
    ensures LexLess(p, q) && !LexLess(q, p)
  {
    if p != [] { PrefixIsLess(p[1..], q[1..]); }
  }

  /** The one collision of the format: of two negatives with the same exponent, one stops after
      20 pairs without a closing byte and the other goes on to a 21st pair. */
  predicate CutShort(a: Literal, b: Literal) {
    a.neg && b.neg && Exponent(a) == Exponent(b) && |Pairs(a)| == 20 && Pairs(a) < Pairs(b)
  }

  /** The first byte decides the sign, and within a sign the exponent. */
  lemma WireLead(n: Literal)
    requires Wireable(n)
    ensures |WireForm(n)| > 1 && WireForm(n)[0] == Lead(n) && WireForm(n)[1..] == Body(n) + Closing(n)
    ensures if n.neg then Lead(n) < 0x80 else Lead(n) >= 0x80
  {
    PairsShape(n);
    hide Pairs;
  }

  lemma ClosingRule(n: Literal)
    requires Wireable(n) && n.neg
    ensures Closing(n) == if |Pairs(n)| < 20 then [102] else []
    ensures |Pairs(n)| <= 21 && AllDigits(Pairs(n), 100) && Body(n) == ComplementPairs(Pairs(n))
  {
    PairsShape(n);
    hide Pairs, Aligned;
  }

  lemma SameExponentNegatives(a: Literal, b: Literal)
    requires Wireable(a) && Wireable(b) && a.neg && b.neg && Exponent(a) == Exponent(b)
    ensures LexLess(WireForm(a)[1..], WireForm(b)[1..]) <==> (LexLess(Pairs(b), Pairs(a)) && !CutShort(b, a)) || CutShort(a, b)
  {
    hide Pairs, WireForm, Aligned, Closing, Wireable, ComplementPairs;
    var p, q := Pairs(a), Pairs(b);
    WireLead(a); WireLead(b);
    ClosingRule(a); ClosingRule(b);
    ComplementOrder(p, Closing(a), q, Closing(b));
    if p < q { PrefixIsLess(p, q); }
    if q < p { PrefixIsLess(q, p); }
  }

  lemma NegativeOrder(a: Literal, b: Literal)
    requires Wireable(a) && Wireable(b) && a.neg && b.neg
    ensures LexLess(WireForm(a), WireForm(b)) <==> (MagnitudeLess(b, a) && !CutShort(b, a)) || CutShort(a, b)
  {
    hide WireForm, Pairs;
    WireLead(a); WireLead(b);
    if Exponent(a) == Exponent(b) {
      SameExponentNegatives(a, b);
    }
  }

  lemma PositiveOrder(a: Literal, b: Literal)
    requires Wireable(a) && Wireable(b) && !a.neg && !b.neg
    ensures LexLess(WireForm(a), WireForm(b)) <==> MagnitudeLess(a, b)
  {
    hide WireForm, Pairs;
    WireLead(a); WireLead(b);
    PlainOrder(Pairs(a), Pairs(b));
    assert Body(a) + Closing(a) == PlainPairs(Pairs(a)) && Body(b) + Closing(b) == PlainPairs(Pairs(b));
  }

  lemma WireOrder(a: Literal, b: Literal, half: nat)
    requires Wireable(a) && Wireable(b) && Fits(a, 2 * half) && Fits(b, 2 * half)
    requires !CutShort(a, b) && !CutShort(b, a)
    ensures LexLess(WireForm(a), WireForm(b)) <==> Scaled(a, 2 * half) < Scaled(b, 2 * half)
  {
    hide WireForm, CutShort, MagnitudeLess, Wireable;
    Positive(a, 2 * half); Positive(b, 2 * half);
    if a.neg && b.neg {
      NegativeOrder(a, b);
      MagnitudeOrder(b, a, half);
    } else if !a.neg && !b.neg {
      PositiveOrder(a, b);
      MagnitudeOrder(a, b, half);
    } else {
      WireLead(a); WireLead(b);
    }
  }

  // ---------------------------------------------------------------------
  // Texts
  // ---------------------------------------------------------------------

  /** The normal form of a text; texts that denote nothing count as zero. */
  function NormalOf(text: string): (n: Literal)
    ensures Normal(n)
    ensures Encode(text).Ok? && n.digits != [] ==> InRange(n)
  {
    match Read(text)
    case Err(_) => Literal(false, [], 0)
    case Ok(l) =>
      NormalizeIsNormal(l);
      Normalize(l)
  }

  /** Two accepted texts, and a scale at which both are integers. */
  ghost predicate Comparable(s: string, t: string, scale: nat) {
    Encode(s).Ok? && Encode(t).Ok? && Fits(Read(s).value, scale) && Fits(Read(t).value, scale)
  }

  /** Scaling both sides further keeps their order. */
  lemma RefineScale(x: int, y: int, m: int)
    requires m > 0
    ensures x < y <==> x * m < y * m
  {
    if x < y { MulStep(x, y, m); } else if y < x { MulStep(y, x, m); }
  }

  /** An accepted text is encoded through its normal form, which has the same value. */
  lemma ThroughNormalForm(text: string, scale: nat)
    requires Encode(text).Ok? && Fits(Read(text).value, scale)
    ensures Read(text).Ok? && Encode(text) == Finish(NormalOf(text))
    ensures Fits(NormalOf(text), scale)
    ensures Scaled(NormalOf(text), scale) == Scaled(Read(text).value, scale)
  {
    hide Read;
    NormalizeKeepsValue(Read(text).value, scale);
  }

  /** The same at an even scale, where pairs are whole. */
  lemma AtEvenScale(text: string, scale: nat)
    requires Encode(text).Ok? && Fits(Read(text).value, scale)
    ensures Read(text).Ok? && Encode(text) == Finish(NormalOf(text))
    ensures Fits(NormalOf(text), 2 * scale)
    ensures Scaled(NormalOf(text), 2 * scale) == Scaled(Read(text).value, scale) * Pow(10, scale)
  {
    hide Read, NormalOf, Scaled, Finish;
    ThroughNormalForm(text, scale);
    ScaledGrows(NormalOf(text), scale, scale);
    assert scale + scale == 2 * scale;
  }

  predicate Encodable(n: Literal) { Normal(n) && (n.digits != [] ==> InRange(n)) }

  /** Zero sorts between the negatives and the positives. */
  lemma ZeroOrder(a: Literal, b: Literal, scale: nat)
    requires Encodable(a) && Encodable(b) && Fits(a, scale) && Fits(b, scale)
    requires a.digits == [] || b.digits == []
    ensures LexLess(Finish(a).value, Finish(b).value) <==> Scaled(a, scale) < Scaled(b, scale)
  {
    hide WireForm;
    if a.digits != [] { Positive(a, scale); WireLead(a); }
    if b.digits != [] { Positive(b, scale); WireLead(b); }
  }

  /** The cut-short pair really is out of order. */
  lemma CutShortOrder(a: Literal, b: Literal, half: nat)
    requires Wireable(a) && Wireable(b) && Fits(a, 2 * half) && Fits(b, 2 * half)
    requires CutShort(a, b)
    ensures LexLess(WireForm(a), WireForm(b)) && !LexLess(WireForm(b), WireForm(a))
    ensures Scaled(b, 2 * half) < Scaled(a, 2 * half)
  {
    hide WireForm, Pairs;
    PrefixIsLess(Pairs(a), Pairs(b));
    MagnitudeOrder(a, b, half);
    NegativeOrder(a, b);
    LexTrichotomy(WireForm(a), WireForm(b));
  }

  lemma OnlyNonzeroIsCutShort(a: Literal, b: Literal)
    requires Encodable(a) && Encodable(b) && CutShort(a, b)
    ensures Wireable(a) && Wireable(b)
  {
  }

  /** Order on normal forms, zero included. */
  lemma NormalOrder(a: Literal, b: Literal, half: nat)
    requires Encodable(a) && Encodable(b) && Fits(a, 2 * half) && Fits(b, 2 * half)
    ensures (LexLess(Finish(a).value, Finish(b).value) <==> Scaled(a, 2 * half) < Scaled(b, 2 * half))
       <==> !CutShort(a, b) && !CutShort(b, a)
  {
    if CutShort(a, b) {
      OnlyNonzeroIsCutShort(a, b);
      CutShortOrder(a, b, half);
    } else if CutShort(b, a) {
      OnlyNonzeroIsCutShort(b, a);
      CutShortOrder(b, a, half);
    } else if a.digits == [] || b.digits == [] {
      ZeroOrder(a, b, 2 * half);
    } else {
      WireOrder(a, b, half);
    }
  }

  /** Two accepted texts: at every scale where both are integers, their encodings compare byte by
      byte as their values compare, except exactly when one is cut short of the other. */
  lemma OrderEmbedding(s: string, t: string, scale: nat)
    ensures Comparable(s, t, scale) ==>
      ((LexLess(Encode(s).value, Encode(t).value) <==> Scaled(Read(s).value, scale) < Scaled(Read(t).value, scale))
       <==> !CutShort(NormalOf(s), NormalOf(t)) && !CutShort(NormalOf(t), NormalOf(s)))
  {
    if Comparable(s, t, scale) {
      hide NormalOf, Scaled, CutShort, Finish, Encode, Read;
      AtEvenScale(s, scale); AtEvenScale(t, scale);
      PowPositive(10, scale);
      RefineScale(Scaled(Read(s).value, scale), Scaled(Read(t).value, scale), Pow(10, scale));
      NormalOrder(NormalOf(s), NormalOf(t), scale);
    }
  }

  /** Up to 20 pairs on both sides, or with either side not negative, the order is exact. */
  lemma OrderExactWithinTwentyPairs(s: string, t: string, scale: nat)
    ensures Comparable(s, t, scale)
      && ((|Pairs(NormalOf(s))| <= 20 && |Pairs(NormalOf(t))| <= 20) || !NormalOf(s).neg || !NormalOf(t).neg)
      ==> (LexLess(Encode(s).value, Encode(t).value) <==> Scaled(Read(s).value, scale) < Scaled(Read(t).value, scale))
  {
    hide NormalOf, Scaled, Encode, Read, Pairs;
    OrderEmbedding(s, t, scale);
  }

  /** Normal forms with the same bytes have the same value, and the other way round. */
  lemma NormalCanonical(a: Literal, b: Literal, half: nat)
    requires Encodable(a) && Encodable(b) && Fits(a, 2 * half) && Fits(b, 2 * half)
    ensures Finish(a) == Finish(b) <==> Scaled(a, 2 * half) == Scaled(b, 2 * half)
  {
    LexTrichotomy(Finish(a).value, Finish(b).value);
    NormalOrder(a, b, half); NormalOrder(b, a, half);
    if CutShort(a, b) {
      OnlyNonzeroIsCutShort(a, b);
      CutShortOrder(a, b, half);
    } else if CutShort(b, a) {
      OnlyNonzeroIsCutShort(b, a);
      CutShortOrder(b, a, half);
    }
  }

  /** Two accepted texts have the same encoding exactly when they denote the same value. */
  lemma Canonical(s: string, t: string, scale: nat)
    ensures Comparable(s, t, scale) ==>
      (Encode(s) == Encode(t) <==> Scaled(Read(s).value, scale) == Scaled(Read(t).value, scale))
  {
    if Comparable(s, t, scale) {
      hide NormalOf, Scaled, Finish, Encode, Read;
      AtEvenScale(s, scale); AtEvenScale(t, scale);
      PowPositive(10, scale);
      RefineScale(Scaled(Read(s).value, scale), Scaled(Read(t).value, scale), Pow(10, scale));
      RefineScale(Scaled(Read(t).value, scale), Scaled(Read(s).value, scale), Pow(10, scale));
      NormalCanonical(NormalOf(s), NormalOf(t), scale);
    }
  }

  /** Every encoding fits the 22 bytes announced in column metadata; only 40 digits at an odd
      decimal index use them all. */
  lemma SizeBound(text: string)
    ensures Encode(text).Ok? ==>
      && 1 <= |Encode(text).value| <= 22
      && (|Encode(text).value| == 22 <==> |NormalOf(text).digits| == 40 && NormalOf(text).point % 2 == 1)
  {
    if Encode(text).Ok? {
      var n := NormalOf(text);
      if n.digits != [] { PairsShape(n); }
    }
  }
}
