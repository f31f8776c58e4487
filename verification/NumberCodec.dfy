/** The Oracle NUMBER wire format: a biased base-100 exponent and digit pairs. */
module NumberCodec {
  import opened Basics
  import opened Text
  import opened PlaceValue
  import opened Numeral

  const MAX_DIGITS := 40

  predicate InRange(n: Literal) {
    |n.digits| <= MAX_DIGITS && -129 <= n.point <= 126
  }

  /** The digits aligned on base-100 boundaries: an odd decimal index puts a zero in front. */
  function Aligned(n: Literal): (flat: seq<int>)
    ensures |flat| % 2 == 0
    ensures n.Valid() ==> AllDigits(flat, 10)
  {
    var lead := if n.point % 2 == 1 then [0] + n.digits else n.digits;
    if |lead| % 2 == 1 then lead + [0] else lead
  }

  function Pairs(n: Literal): (pairs: seq<int>)
    ensures n.Valid() ==> AllDigits(pairs, 100)
  {
    PairUp(Aligned(n))
  }

  /** The index of the base-100 point: half the decimal index, rounded up. */
  function Exponent(n: Literal): int { (n.point + n.point % 2) / 2 }

  function ComplementPairs(pairs: seq<int>): (bs: seq<byte>)
    requires AllDigits(pairs, 100)
    ensures |bs| == |pairs| && forall i :: 0 <= i < |pairs| ==> bs[i] == 101 - pairs[i]
  {
    seq(|pairs|, i requires 0 <= i < |pairs| => 101 - pairs[i])
  }

  function PlainPairs(pairs: seq<int>): (bs: seq<byte>)
    requires AllDigits(pairs, 100)
    ensures |bs| == |pairs| && forall i :: 0 <= i < |pairs| ==> bs[i] == pairs[i] + 1
  {
    seq(|pairs|, i requires 0 <= i < |pairs| => pairs[i] + 1)
  }

  /** The exponent byte, complemented for negative numbers. */
  function Lead(n: Literal): byte
    requires InRange(n)
  {
    if n.neg then 63 - Exponent(n) else Exponent(n) + 192
  }

  /** One byte a pair: d+1, or 101-d for negative numbers. */
  function Body(n: Literal): (bs: seq<byte>)
    requires n.Valid()
    ensures |bs| == |Pairs(n)|
  {
    if n.neg then ComplementPairs(Pairs(n)) else PlainPairs(Pairs(n))
  }

  /** Negative numbers of fewer than 40 padded digits are closed by 102. */
  function Closing(n: Literal): seq<byte> {
    if n.neg && |Aligned(n)| < MAX_DIGITS then [102] else []
  }

  /** The wire form of a nonzero number in normal form. */
  function WireForm(n: Literal): seq<byte>
    requires n.Valid() && InRange(n)
  {
    [Lead(n)] + Body(n) + Closing(n)
  }

  /** Zero has its own one-byte form; other numbers are range-checked. */
  function Finish(n: Literal): Result<seq<byte>, NumberError>
    requires n.Valid()
  {
    if n.digits == [] then Ok([0x80])
    else if !InRange(n) then Err(OutOfRange)
    else Ok(WireForm(n))
  }

  function Encode(value: string): Result<seq<byte>, NumberError> {
    var l :- Read(value);
    NormalizeIsNormal(l);
    Finish(Normalize(l))
  }

  // ---------------------------------------------------------------------
  // The encoder: three scanning loops, normalisation, pairing.
  // ---------------------------------------------------------------------

  lemma NumeralsStep(text: string, from: nat, pos: nat)
    requires from <= pos < |text| && Numerals(text[from..pos]) && IsDigit(text[pos])
    ensures Numerals(text[from..pos + 1])
    ensures DigitsOf(text[from..pos + 1]) == DigitsOf(text[from..pos]) + [text[pos] as int - '0' as int]
  {
    assert text[from..pos + 1] == text[from..pos] + [text[pos]];
  }

  /** The integer part: leading zeros do not count. */
  method ScanInteger(text: string) returns (ok: bool, digits: seq<int>, pos: nat)
    ensures var i := Until(text, ".eE");
      && (ok <==> Numerals(text[..i]))
      && (ok ==> pos == i && digits == DropLeadingZeros(DigitsOf(text[..i]), 0).0)
  {
    digits, pos := [], 0;
    ghost var i := Until(text, ".eE");
    while pos < |text| && text[pos] !in ".eE"
      invariant pos <= i && Numerals(text[..pos])
      invariant digits == DropLeadingZeros(DigitsOf(text[..pos]), 0).0
    {
      var ch := text[pos];
      if !IsDigit(ch) {
        assert text[..i][pos] == ch;
        return false, [], pos;
      }
      var d := ch as int - '0' as int;
      NumeralsStep(text, 0, pos);
      LeadingZerosStep(DigitsOf(text[..pos]), d, 0);
      pos := pos + 1;
      if d == 0 && digits == [] {
        continue;
      }
      digits := digits + [d];
    }
    ok := true;
  }

  lemma UntilIndex(text: string, start: nat, stops: string)
    requires start <= |text|
    ensures var j := start + Until(text[start..], stops);
      && start <= j <= |text| && (j < |text| ==> text[j] in stops)
      && forall k :: start <= k < j ==> text[k] !in stops
  {
    var s := text[start..];
    assert forall k :: start <= k < |text| ==> text[k] == s[k - start];
  }

  lemma NotNumerals(text: string, start: nat, pos: nat, j: nat)
    requires start <= pos < j <= |text| && !IsDigit(text[pos])
    ensures !Numerals(text[start..j])
  {
    assert text[start..j][pos - start] == text[pos];
  }

  /** The fraction: leading zeros before the first significant digit shift the decimal index down. */
  method ScanFraction(text: string, start: nat, digits0: seq<int>, dpi0: int, ghost whole: seq<int>, ghost i: int)
    returns (ok: bool, digits: seq<int>, dpi: int, pos: nat)
    requires start <= |text|
    requires (digits0, dpi0) == DropLeadingZeros(whole, i)
    ensures var j := start + Until(text[start..], "eE");
      && (ok <==> Numerals(text[start..j]))
      && (ok ==> pos == j && (digits, dpi) == DropLeadingZeros(whole + DigitsOf(text[start..j]), i))
  {
    hide DropLeadingZeros;
    digits, dpi, pos := digits0, dpi0, start;
    ghost var j := start + Until(text[start..], "eE");
    UntilIndex(text, start, "eE");
    hide Until;
    assert whole + DigitsOf(text[start..start]) == whole;
    while pos < |text| && text[pos] !in "eE"
      invariant start <= pos <= j && Numerals(text[start..pos])
      invariant (digits, dpi) == DropLeadingZeros(whole + DigitsOf(text[start..pos]), i)
    {
      var ch := text[pos];
      if !IsDigit(ch) {
        NotNumerals(text, start, pos, j);
        return false, [], 0, pos;
      }
      var d := ch as int - '0' as int;
      NumeralsStep(text, start, pos);
      LeadingZerosStep(whole + DigitsOf(text[start..pos]), d, i);
      assert whole + DigitsOf(text[start..pos + 1]) == (whole + DigitsOf(text[start..pos])) + [d];
      pos := pos + 1;
      if d == 0 && digits == [] {
        dpi := dpi - 1;
        continue;
      }
      digits := digits + [d];
    }
    ok := true;
  }

  /** After the integer part alone, the decimal index is the number of significant digits. */
  lemma {:induction false} SignificantLength(ds: seq<int>, point: int)
    ensures var (r, p) := DropLeadingZeros(ds, point);
      p == point - |ds| + |r|
    ensures DropLeadingZeros(ds, 0).0 == DropLeadingZeros(ds, point).0
  {
    LeadingZerosShift(ds, 0, point);
    if ds != [] && ds[0] == 0 {
      SignificantLength(ds[1..], point - 1);
    }
  }

  method TrimTrailingZeros(scanned: seq<int>) returns (digits: seq<int>)
    ensures digits == DropTrailingZeros(scanned)
  {
    digits := scanned;
    while digits != [] && digits[|digits| - 1] == 0
      invariant DropTrailingZeros(digits) == DropTrailingZeros(scanned)
    {
      digits := digits[..|digits| - 1];
    }
  }

  /** Packs the padded digits two by two behind the exponent byte. */
  method WritePairs(n: Literal, digits: seq<int>, prependZero: bool, exponentOnWire: byte)
    returns (out: seq<byte>)
    requires n.Valid() && |digits| % 2 == 0 && |digits| == |Aligned(n)|
    requires forall k :: 0 <= k < |digits| - (if prependZero then 1 else 0) ==>
      Aligned(n)[k + if prependZero then 1 else 0] == digits[k]
    requires prependZero && digits != [] ==> Aligned(n)[0] == 0
    ensures out == [exponentOnWire] + Body(n)
  {
    ghost var flat, pairs := Aligned(n), Pairs(n);
    out := [exponentOnWire];
    var dp := 0;
    for i := 0 to |digits| / 2
      invariant dp == if prependZero && i > 0 then 2 * i - 1 else 2 * i
      invariant |out| == i + 1 && out[0] == exponentOnWire
      invariant forall k :: 0 <= k < i ==>
        out[k + 1] == if n.neg then 101 - pairs[k] else pairs[k] + 1
    {
      var d;
      if i == 0 && prependZero {
        d := digits[dp];
        dp := dp + 1;
      } else {
        d := digits[dp] * 10 + digits[dp + 1];
        dp := dp + 2;
      }
      assert d == flat[2 * i] * 10 + flat[2 * i + 1];
      out := out + [if n.neg then 101 - d else d + 1];
    }
  }

  /** Pads, packs and closes the significant digits. */
  method PackDigits(isNegative: bool, significant: seq<int>, point: int)
    returns (r: Result<seq<byte>, NumberError>)
    requires AllDigits(significant, 10)
    ensures r == Finish(Literal(isNegative, significant, point))
  {
    var digits, dpi := significant, point;
    ghost var n := Literal(isNegative, digits, dpi);
    if digits == [] {
      return Ok([0x80]);
    }
    if |digits| > 40 || dpi > 126 || dpi < -129 {
      return Err(OutOfRange);
    }
    var prependZero := false;
    if dpi % 2 == 1 {
      prependZero := true;
      digits := digits + [0];
      dpi := dpi + 1;
    }
    if |digits| % 2 == 1 {
      digits := digits + [0];
    }
    assert |digits| == |Aligned(n)|;
    var exponentOnWire := dpi / 2 + 192;
    if isNegative {
      exponentOnWire := 255 - exponentOnWire;
    }
    assert exponentOnWire == Lead(n);
    var out := WritePairs(Literal(isNegative, significant, point), digits, prependZero, exponentOnWire);
    if isNegative && |digits| < 40 {
      out := out + [102];
    } else {
      assert out + Closing(n) == out;
    }
    return Ok(out);
  }

  /** The optional exponent is added to the decimal index. */
  method ScanExponent(text: string, dpi0: int) returns (r: Result<int, NumberError>)
    ensures r == match ReadSuffix(text) case Ok(e) => Ok(dpi0 + e) case Err(x) => Err(x)
  {
    if text == [] {
      return Ok(dpi0);
    }
    var rest, expNeg := text[1..], false;
    if rest != [] && (rest[0] == '+' || rest[0] == '-') {
      expNeg := rest[0] == '-';
      rest := rest[1..];
    }
    if rest == [] {
      return Err(EmptyExponent);
    }
    var expValue := ToInt(rest);
    if expValue.None? {
      return Err(BadExponent);
    }
    return Ok(dpi0 + if expNeg then -expValue.value else expValue.value);
  }

  /** Integer part and fraction together. */
  method ScanMantissa(text: string) returns (ok: bool, digits: seq<int>, dpi: int, pos: nat)
    ensures ok <==> MantissaOk(text)
    ensures ok ==> pos == MantissaEnd(text) && (digits, dpi) == DropLeadingZeros(Mantissa(text), Until(text, ".eE"))
  {
    hide Until, DropLeadingZeros;
    dpi := 0;
    ok, digits, pos := ScanInteger(text);
    if !ok {
      return;
    }
    dpi := |digits|;
    ghost var i, whole := pos, DigitsOf(text[..pos]);
    SignificantLength(whole, i);
    if pos < |text| && text[pos] == '.' {
      ok, digits, dpi, pos := ScanFraction(text, pos + 1, digits, dpi, whole, i);
    } else {
      assert Mantissa(text) == whole;
    }
  }

  /** Scans an unsigned numeric text into its normal form. */
  method ScanUnsigned(neg: bool, text: string) returns (r: Result<Literal, NumberError>)
    ensures r == match ReadUnsigned(neg, text)
      case Ok(l) => Ok(Normalize(l))
      case Err(x) => Err(x)
  {
    hide ToInt, Until, Mantissa, MantissaEnd, MantissaOk, ReadSuffix, DropLeadingZeros, DropTrailingZeros;
    var ok, digits, dpi, pos := ScanMantissa(text);
    if !ok {
      return Err(InvalidDigit);
    }
    var shifted := ScanExponent(text[pos..], dpi);
    if shifted.Err? {
      assert ReadUnsigned(neg, text) == Err(shifted.error);
      return Err(shifted.error);
    }
    ghost var ds, point, e := Mantissa(text), Until(text, ".eE"), shifted.value - dpi;
    assert ReadUnsigned(neg, text) == Ok(Literal(neg, ds, point + e));
    LeadingZerosShift(ds, point, e);
    digits := TrimTrailingZeros(digits);
    return Ok(Literal(neg, digits, shifted.value));
  }

  /** Encodes a numeric text into the NUMBER wire format. */
  method EncodeNumber(value: string) returns (r: Result<seq<byte>, NumberError>)
    ensures r == Encode(value)
  {
    var text := Strip(value);
    var isNegative := text != [] && text[0] == '-';
    text := if isNegative then text[1..] else DropPlus(text);
    if text == [] {
      return Err(EmptyNumber);
    }
    var scan := ScanUnsigned(isNegative, text);
    if scan.Err? {
      return Err(scan.error);
    }
    NormalizeIsNormal(ReadUnsigned(isNegative, text).value);
    r := PackDigits(isNegative, scan.value.digits, scan.value.point);
  }
}
