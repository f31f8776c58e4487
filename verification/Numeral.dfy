/** What a numeric text denotes, independently of how it is encoded. */
module Numeral {
  import opened Basics
  import opened Text
  import opened PlaceValue

  datatype NumberError =
    | EmptyNumber | InvalidDigit | EmptyExponent | BadExponent | OutOfRange
    | MalformedNumber

  /** A decimal number written out: plus or minus 0.digits times 10^point. */
  datatype Literal = Literal(neg: bool, digits: seq<int>, point: int) {
    predicate Valid() { AllDigits(digits, 10) }
  }

  predicate Numerals(s: string) { forall i :: 0 <= i < |s| ==> IsDigit(s[i]) }

  function DigitsOf(s: string): (ds: seq<int>)
    requires Numerals(s)
    ensures |ds| == |s| && AllDigits(ds, 10)
  {
    seq(|s|, i requires 0 <= i < |s| => s[i] as int - '0' as int)
  }

  /** Decimal digits with single underscores allowed between them, as integer conversion accepts them. */
  predicate Underscored(s: string) {
    && s != [] && IsDigit(s[0]) && IsDigit(s[|s| - 1])
    && (forall i :: 0 <= i < |s| ==> IsDigit(s[i]) || s[i] == '_')
    && (forall i :: 0 < i < |s| ==> !(s[i - 1] == '_' && s[i] == '_'))
  }

  function WithoutUnderscores(s: string): (t: string)
    requires forall i :: 0 <= i < |s| ==> IsDigit(s[i]) || s[i] == '_'
    ensures Numerals(t)
  {
    if s == [] then []
    else if s[0] == '_' then WithoutUnderscores(s[1..])
    else [s[0]] + WithoutUnderscores(s[1..])
  }

  /** The host language's conversion of a string to an integer, in base ten. */
  function ToInt(s: string): Option<int> {
    var t := Strip(s);
    var neg := t != [] && t[0] == '-';
    var body := if t != [] && (t[0] == '-' || t[0] == '+') then t[1..] else t;
    if !Underscored(body) then None
    else
      var ds := DigitsOf(WithoutUnderscores(body));
      var n := Worth(ds, 10, |ds|);
      Some(if neg then -n else n)
  }

  function DropPlus(s: string): string {
    if s != [] && s[0] == '+' then DropPlus(s[1..]) else s
  }

  /** The exponent field: what follows the 'e'. */
  function ReadExponent(s: string): Result<int, NumberError> {
    var signed := s != [] && (s[0] == '+' || s[0] == '-');
    var body := if signed then s[1..] else s;
    if body == [] then Err(EmptyExponent)
    else
      match ToInt(body)
      case None => Err(BadExponent)
      case Some(n) => Ok(if signed && s[0] == '-' then -n else n)
  }

  /** The optional exponent: an 'e' and its field, or nothing. */
  function ReadSuffix(s: string): Result<int, NumberError> {
    if s == [] then Ok(0) else ReadExponent(s[1..])
  }

  // The grammar of numeric text: sign, integer part, optional fraction, optional exponent.

  predicate HasFraction(text: string) {
    var i := Until(text, ".eE");
    i < |text| && text[i] == '.'
  }

  /** Where the fraction starts; without a fraction, where the integer part ends. */
  function FractionStart(text: string): (n: nat)
    ensures n <= |text|
  {
    Until(text, ".eE") + if HasFraction(text) then 1 else 0
  }

  function MantissaEnd(text: string): (n: nat)
    ensures FractionStart(text) <= n <= |text|
  {
    var from := FractionStart(text);
    if HasFraction(text) then from + Until(text[from..], "eE") else from
  }

  predicate MantissaOk(text: string) {
    && Numerals(text[..Until(text, ".eE")])
    && Numerals(text[FractionStart(text)..MantissaEnd(text)])
  }

  function Mantissa(text: string): (ds: seq<int>)
    requires MantissaOk(text)
    ensures AllDigits(ds, 10)
  {
    DigitsOf(text[..Until(text, ".eE")]) + DigitsOf(text[FractionStart(text)..MantissaEnd(text)])
  }

  function ReadUnsigned(neg: bool, text: string): (r: Result<Literal, NumberError>)
    ensures r.Ok? ==> r.value.Valid() && r.value.neg == neg
  {
    if !MantissaOk(text) then Err(InvalidDigit)
    else
      match ReadSuffix(text[MantissaEnd(text)..])
      case Ok(e) => Ok(Literal(neg, Mantissa(text), Until(text, ".eE") + e))
      case Err(x) => Err(x)
  }

  function Read(value: string): (r: Result<Literal, NumberError>)
    ensures r.Ok? ==> r.value.Valid()
  {
    var text := Strip(value);
    var neg := text != [] && text[0] == '-';
    var body := if neg then text[1..] else DropPlus(text);
    if body == [] then Err(EmptyNumber) else ReadUnsigned(neg, body)
  }

  // Values are compared as integers after scaling by a common power of ten.

  ghost predicate Fits(l: Literal, scale: nat) { |l.digits| <= scale + l.point }

  /** The value of l times 10^scale. */
  ghost function Scaled(l: Literal, scale: nat): int
    requires Fits(l, scale)
  {
    var m := Worth(l.digits, 10, scale + l.point);
    if l.neg then -m else m
  }

  /** A scale at which several literals are all integers always exists, and refining it keeps their order. */
  lemma {:induction false} ScaledGrows(l: Literal, scale: nat, k: nat)
    requires Fits(l, scale)
    ensures Scaled(l, scale + k) == Scaled(l, scale) * Pow(10, k)
  {
    WorthScale(l.digits, 10, scale + l.point, k);
    assert scale + k + l.point == scale + l.point + k;
    var w, m := Worth(l.digits, 10, scale + l.point), Pow(10, k);
    assert -(w * m) == (-w) * m;
  }

  // Normal form: no zero at either end of the digits.

  function DropLeadingZeros(ds: seq<int>, point: int): (seq<int>, int) {
    if ds == [] then (ds, point)
    else if ds[0] == 0 then DropLeadingZeros(ds[1..], point - 1)
    else (ds, point)
  }

  function DropTrailingZeros(ds: seq<int>): (r: seq<int>)
    ensures |r| <= |ds|
  {
    if ds != [] && ds[|ds| - 1] == 0 then DropTrailingZeros(ds[..|ds| - 1]) else ds
  }

  predicate Normal(l: Literal) {
    l.Valid() && NoTrailingZero(l.digits) && (l.digits == [] || l.digits[0] != 0)
  }

  function Normalize(l: Literal): Literal {
    var (ds, point) := DropLeadingZeros(l.digits, l.point);
    Literal(l.neg, DropTrailingZeros(ds), point)
  }

  lemma {:induction false} DropLeadingZerosDigits(ds: seq<int>, point: int)
    requires AllDigits(ds, 10)
    ensures var (r, p) := DropLeadingZeros(ds, point);
      AllDigits(r, 10) && (r == [] || r[0] != 0)
  {
    if ds != [] && ds[0] == 0 { DropLeadingZerosDigits(ds[1..], point - 1); }
  }

  lemma {:induction false} DropTrailingZerosDigits(ds: seq<int>)
    requires AllDigits(ds, 10) && (ds == [] || ds[0] != 0)
    ensures var r := DropTrailingZeros(ds);
      AllDigits(r, 10) && NoTrailingZero(r) && (r == [] || r[0] != 0)
  {
    if ds != [] && ds[|ds| - 1] == 0 { DropTrailingZerosDigits(ds[..|ds| - 1]); }
  }

  lemma NormalizeIsNormal(l: Literal)
    requires l.Valid()
    ensures Normal(Normalize(l))
  {
    DropLeadingZerosDigits(l.digits, l.point);
    DropTrailingZerosDigits(DropLeadingZeros(l.digits, l.point).0);
  }

  lemma {:induction false} LeadingZerosWeighNothing(ds: seq<int>, point: int, scale: nat)
    requires |ds| <= scale + point
    ensures var (r, p) := DropLeadingZeros(ds, point);
      |r| <= scale + p && Worth(r, 10, scale + p) == Worth(ds, 10, scale + point)
  {
    if ds != [] && ds[0] == 0 {
      LeadingZerosWeighNothing(ds[1..], point - 1, scale);
    }
  }

  lemma {:induction false} TrailingZerosWeighNothing(ds: seq<int>, s: nat)
    requires |ds| <= s
    ensures Worth(DropTrailingZeros(ds), 10, s) == Worth(ds, 10, s)
  {
    if ds != [] && ds[|ds| - 1] == 0 {
      var front := ds[..|ds| - 1];
      TrailingZerosWeighNothing(front, s);
      assert ds == front + [0];
      WorthAppend(front, [0], 10, s);
    }
  }

  /** Normalising does not change what a text denotes. */
  lemma NormalizeKeepsValue(l: Literal, scale: nat)
    requires l.Valid() && Fits(l, scale)
    ensures Fits(Normalize(l), scale) && Scaled(Normalize(l), scale) == Scaled(l, scale)
  {
    LeadingZerosWeighNothing(l.digits, l.point, scale);
    var (ds, point) := DropLeadingZeros(l.digits, l.point);
    TrailingZerosWeighNothing(ds, scale + point);
  }

  // One scanner step appends one digit.

  lemma {:induction false} LeadingZerosStep(ds: seq<int>, d: int, point: int)
    ensures var (old_, p) := DropLeadingZeros(ds, point);
      DropLeadingZeros(ds + [d], point) ==
        if old_ == [] && d == 0 then ([], p - 1) else (old_ + [d], p)
  {
    if ds == [] {
      assert ds + [d] == [d] && [d][1..] == [];
    } else if ds[0] == 0 {
      assert (ds + [d])[1..] == ds[1..] + [d];
      LeadingZerosStep(ds[1..], d, point - 1);
    }
  }

  lemma {:induction false} LeadingZerosShift(ds: seq<int>, point: int, e: int)
    ensures DropLeadingZeros(ds, point + e) == (DropLeadingZeros(ds, point).0, DropLeadingZeros(ds, point).1 + e)
  {
    if ds != [] && ds[0] == 0 {
      LeadingZerosShift(ds[1..], point - 1, e);
    }
  }
}
