/** Positional notation: what a run of digits is worth, and how it compares. */
module PlaceValue {
  import opened Basics

  function Pow(b: int, e: nat): int {
    if e == 0 then 1 else b * Pow(b, e - 1)
  }

  lemma {:induction false} PowPositive(b: int, e: nat)
    requires b > 0
    ensures Pow(b, e) > 0
  {
    if e > 0 { PowPositive(b, e - 1); }
  }

  lemma {:induction false} PowAdd(b: int, m: nat, n: nat)
    ensures Pow(b, m + n) == Pow(b, m) * Pow(b, n)
  {
    if m > 0 {
      PowAdd(b, m - 1, n);
      assert b * (Pow(b, m - 1) * Pow(b, n)) == (b * Pow(b, m - 1)) * Pow(b, n);
    }
  }

  lemma {:induction false} PowMonotone(b: int, m: nat, n: nat)
    requires b > 1 && m <= n
    ensures Pow(b, m) <= Pow(b, n)
    decreases n
  {
    if m < n {
      PowMonotone(b, m, n - 1);
      PowPositive(b, n - 1);
    }
  }

  lemma {:induction false} PowHundred(k: nat)
    ensures Pow(100, k) == Pow(10, 2 * k)
  {
    if k > 0 { PowHundred(k - 1); }
  }

  /** The multiple of unit nearest to c, half to even, counted in units. */
  function Nearest(c: nat, unit: nat): nat
    requires unit > 0
  {
    var q, r := c / unit, c % unit;
    if 2 * r > unit || (2 * r == unit && q % 2 == 1) then q + 1 else q
  }

  lemma MulStep(a: int, b: int, p: int)
    requires a < b && 0 <= p
    ensures a * p + p <= b * p
  {
    assert (a + 1) * p <= b * p;
  }

  lemma MulNonNegative(a: int, p: int)
    requires 0 <= a && 0 <= p
    ensures 0 <= a * p
  {
  }

  predicate AllDigits(ds: seq<int>, base: int) {
    forall i :: 0 <= i < |ds| ==> 0 <= ds[i] < base
  }

  /** The digits ds read as the fraction 0.ds, scaled up by base^s:
      digit i is worth base^(s-1-i). */
  function Worth(ds: seq<int>, base: int, s: nat): int
    requires |ds| <= s
  {
    if ds == [] then 0 else ds[0] * Pow(base, s - 1) + Worth(ds[1..], base, s - 1)
  }

  lemma WorthUnfold(ds: seq<int>, base: int, s: nat)
    requires 0 < |ds| <= s
    ensures Worth(ds, base, s) == ds[0] * Pow(base, s - 1) + Worth(ds[1..], base, s - 1)
    ensures Pow(base, s) == base * Pow(base, s - 1)
  {
  }

  lemma {:induction false} WorthBound(ds: seq<int>, base: int, s: nat)
    requires base > 1 && |ds| <= s && AllDigits(ds, base)
    ensures 0 <= Worth(ds, base, s) < Pow(base, s)
  {
    if ds == [] {
      PowPositive(base, s);
    } else {
      hide Pow, Worth;
      WorthUnfold(ds, base, s);
      WorthBound(ds[1..], base, s - 1);
      var p := Pow(base, s - 1);
      PowPositive(base, s - 1);
      MulStep(ds[0], base, p);
      MulNonNegative(ds[0], p);
    }
  }

  /** A digit string that does not start with zero is worth at least its leading place. */
  lemma WorthLead(ds: seq<int>, base: int, s: nat)
    requires base > 1 && 0 < |ds| <= s && AllDigits(ds, base) && ds[0] != 0
    ensures Pow(base, s - 1) <= Worth(ds, base, s)
  {
    hide Pow, Worth;
    WorthUnfold(ds, base, s);
    WorthBound(ds[1..], base, s - 1);
    PowPositive(base, s - 1);
    MulStep(0, ds[0], Pow(base, s - 1));
  }

  lemma {:induction false} WorthPositive(ds: seq<int>, base: int, s: nat)
    requires base > 1 && 0 < |ds| <= s && AllDigits(ds, base) && ds[|ds| - 1] != 0
    ensures 0 < Worth(ds, base, s)
  {
    PowPositive(base, s - 1);
    WorthUnfold(ds, base, s);
    if |ds| == 1 {
      MulStep(0, ds[0], Pow(base, s - 1));
    } else {
      hide Pow, Worth;
      WorthPositive(ds[1..], base, s - 1);
      MulNonNegative(ds[0], Pow(base, s - 1));
    }
  }

  predicate NoTrailingZero(ds: seq<int>) {
    ds == [] || ds[|ds| - 1] != 0
  }

  /** Numeric order of fractions without trailing zeros is the lexicographic order of their digits. */
  lemma {:induction false} WorthOrder(p: seq<int>, q: seq<int>, base: int, s: nat)
    requires base > 1 && |p| <= s && |q| <= s
    requires AllDigits(p, base) && AllDigits(q, base) && NoTrailingZero(p) && NoTrailingZero(q)
    ensures LexLess(p, q) <==> Worth(p, base, s) < Worth(q, base, s)
  {
    if q == [] {
      WorthBound(p, base, s);
    } else if p == [] {
      WorthPositive(q, base, s);
    } else if p[0] == q[0] {
      hide Worth;
      WorthUnfold(p, base, s); WorthUnfold(q, base, s);
      WorthOrder(p[1..], q[1..], base, s - 1);
    } else {
      hide Worth;
      LeadDecides(p, q, base, s);
    }
  }

  lemma LeadDecides(p: seq<int>, q: seq<int>, base: int, s: nat)
    requires base > 1 && 0 < |p| <= s && 0 < |q| <= s
    requires AllDigits(p, base) && AllDigits(q, base) && p[0] != q[0]
    ensures p[0] < q[0] <==> Worth(p, base, s) < Worth(q, base, s)
  {
    hide Pow, Worth;
    var w := Pow(base, s - 1);
    WorthUnfold(p, base, s); WorthUnfold(q, base, s);
    WorthBound(p[1..], base, s - 1);
    WorthBound(q[1..], base, s - 1);
    if p[0] < q[0] {
      MulStep(p[0], q[0], w);
    } else {
      MulStep(q[0], p[0], w);
    }
  }

  lemma {:induction false} WorthAppend(x: seq<int>, y: seq<int>, base: int, s: nat)
    requires |x| + |y| <= s
    ensures Worth(x + y, base, s) == Worth(x, base, s) + Worth(y, base, s - |x|)
  {
    if x == [] {
      assert x + y == y;
    } else {
      hide Pow, Worth;
      WorthUnfold(x, base, s); WorthUnfold(x + y, base, s);
      WorthAppend(x[1..], y, base, s - 1);
      assert (x + y)[1..] == x[1..] + y;
    }
  }

  lemma {:induction false} WorthScale(ds: seq<int>, base: int, s: nat, k: nat)
    requires |ds| <= s
    ensures Worth(ds, base, s + k) == Worth(ds, base, s) * Pow(base, k)
  {
    if ds != [] {
      hide Pow, Worth;
      WorthUnfold(ds, base, s); WorthUnfold(ds, base, s + k);
      WorthScale(ds[1..], base, s - 1, k);
      PowAdd(base, s - 1, k);
      assert s + k - 1 == s - 1 + k;
      ScaleTerm(ds[0], Pow(base, s - 1), Worth(ds[1..], base, s - 1), Pow(base, k));
    }
  }

  lemma ScaleTerm(a: int, p: int, w: int, m: int)
    ensures a * (p * m) + w * m == (a * p + w) * m
  {
  }

  lemma OneDigit(d: int)
    ensures Worth([d], 10, 1) == d
  {
    WorthUnfold([d], 10, 1);
    assert Pow(10, 0) == 1;
  }

  lemma TimesTen(ds: seq<int>)
    ensures Worth(ds, 10, |ds| + 1) == 10 * Worth(ds, 10, |ds|)
  {
    hide Worth;
    assert Pow(10, 1) == 10 * Pow(10, 0);
    WorthScale(ds, 10, |ds|, 1);
  }

  lemma WorthLastDigit(ds: seq<int>)
    requires ds != []
    ensures Worth(ds, 10, |ds|) == 10 * Worth(ds[..|ds| - 1], 10, |ds| - 1) + ds[|ds| - 1]
  {
    var front, d := ds[..|ds| - 1], ds[|ds| - 1];
    hide Worth, Pow;
    OneDigit(d);
    assert ds == front + [d];
    WorthAppend(front, [d], 10, |ds|);
    TimesTen(front);
  }

  /** Grouping decimal digits two by two, as the NUMBER format stores them. */
  function PairUp(flat: seq<int>): (pairs: seq<int>)
    requires |flat| % 2 == 0
    ensures |pairs| == |flat| / 2
    ensures AllDigits(flat, 10) ==> AllDigits(pairs, 100)
  {
    seq(|flat| / 2, i requires 0 <= i < |flat| / 2 => flat[2 * i] * 10 + flat[2 * i + 1])
  }

  lemma {:induction false} PairUpWorth(flat: seq<int>, s: nat)
    requires |flat| % 2 == 0 && |flat| <= 2 * s
    ensures Worth(PairUp(flat), 100, s) == Worth(flat, 10, 2 * s)
  {
    if flat != [] {
      var rest := flat[2..];
      assert PairUp(flat)[1..] == PairUp(rest);
      PairUpWorth(rest, s - 1);
      PowHundred(s - 1);
      assert flat[1..][1..] == rest;
      var p := Pow(10, 2 * s - 2);
      assert Pow(10, 2 * s - 1) == 10 * p;
      calc {
        Worth(PairUp(flat), 100, s);
        (flat[0] * 10 + flat[1]) * p + Worth(rest, 10, 2 * s - 2);
        { Distribute(flat[0], flat[1], p); }
        flat[0] * (10 * p) + (flat[1] * p + Worth(rest, 10, 2 * s - 2));
        { assert Worth(flat[1..], 10, 2 * s - 1) == flat[1] * p + Worth(rest, 10, 2 * s - 2); }
        Worth(flat, 10, 2 * s);
      }
    }
  }

  lemma Distribute(a: int, b: int, p: int)
    ensures (a * 10 + b) * p == a * (10 * p) + b * p
  {
  }
}
