/** Concrete texts at the edges where the NUMBER codec stops being exact. */
module NumberLimits {
  import opened Basics
  import opened Text
  import opened PlaceValue
  import opened Numeral
  import opened NumberCodec
  import opened NumberOrder
  import opened NumberDecode

  /** A text without a sign or surrounding blanks is read as it stands. */
  lemma PlainText(text: string)
    requires text != [] && !IsSpace(text[0]) && !IsSpace(text[|text| - 1]) && text[0] != '-' && text[0] != '+'
    ensures Read(text) == ReadUnsigned(false, text)
    ensures Read("-" + text) == ReadUnsigned(true, text)
  {
    var minus := "-" + text;
    assert Strip(text) == text;
    assert Strip(minus) == minus;
    assert minus[1..] == text;
  }

  /** Digits alone denote themselves. */
  lemma WholeNumber(neg: bool, s: string)
    requires Numerals(s)
    ensures ReadUnsigned(neg, s) == Ok(Literal(neg, DigitsOf(s), |s|))
  {
    UntilAll(s, ".eE");
    assert s[..|s|] == s;
    assert s[|s|..|s|] == [];
    assert DigitsOf(s) + [] == DigitsOf(s);
  }

  lemma WithFraction(neg: bool, s: string, f: string)
    requires Numerals(s) && Numerals(f)
    ensures ReadUnsigned(neg, s + "." + f) == Ok(Literal(neg, DigitsOf(s) + DigitsOf(f), |s|))
  {
    var t := s + "." + f;
    UntilAppend(s, "." + f, ".eE");
    assert t == s + ("." + f);
    assert t[..|s|] == s && t[|s| + 1..] == f;
    UntilAll(f, "eE");
    assert t[|s| + 1..|t|] == f;
  }

  function Nines(n: nat): (s: string)
    ensures |s| == n && Numerals(s) && forall i :: 0 <= i < n ==> s[i] == '9'
  {
    seq(n, _ => '9')
  }

  lemma NinesNormal(neg: bool, n: nat, point: int)
    requires n > 0
    ensures var l := Literal(neg, DigitsOf(Nines(n)), point);
      Normal(l) && Normalize(l) == l
  {
    var ds := DigitsOf(Nines(n));
    assert ds[0] == 9 && ds[n - 1] == 9;
  }

  lemma NinesPairs()
    ensures var a, b := Literal(true, DigitsOf(Nines(39)), 39), Literal(true, DigitsOf(Nines(40)), 39);
      && Wireable(a) && Wireable(b) && CutShort(a, b)
  {
    var a, b := Literal(true, DigitsOf(Nines(39)), 39), Literal(true, DigitsOf(Nines(40)), 39);
    NinesNormal(true, 39, 39); NinesNormal(true, 40, 39);
    assert Aligned(a) == [0] + DigitsOf(Nines(39));
    assert Aligned(b) == [0] + DigitsOf(Nines(40)) + [0];
    assert Pairs(a) == Pairs(b)[..20];
  }

  lemma NinesRead()
    ensures Encode("-" + Nines(39)).Ok? && Encode("-" + (Nines(39) + "." + Nines(1))).Ok?
    ensures Read("-" + Nines(39)) == Ok(Literal(true, DigitsOf(Nines(39)), 39))
    ensures Read("-" + (Nines(39) + "." + Nines(1))) == Ok(Literal(true, DigitsOf(Nines(40)), 39))
  {
    hide ReadUnsigned, WireForm, Aligned;
    var u, v := Nines(39), Nines(39) + "." + Nines(1);
    PlainText(u); PlainText(v);
    WholeNumber(true, u);
    WithFraction(true, u, Nines(1));
    assert DigitsOf(u) + DigitsOf(Nines(1)) == DigitsOf(Nines(40));
    NinesNormal(true, 39, 39); NinesNormal(true, 40, 39);
  }

  /** Minus thirty-nine nines sorts before minus thirty-nine nines point nine, although it is larger. */
  lemma OutOfOrder(scale: nat)
    requires scale >= 1
    ensures var s, t := "-" + Nines(39), "-" + (Nines(39) + "." + Nines(1));
      && Encode(s).Ok? && Encode(t).Ok?
      && Fits(Read(s).value, 2 * scale) && Fits(Read(t).value, 2 * scale)
      && LexLess(Encode(s).value, Encode(t).value)
      && Scaled(Read(t).value, 2 * scale) < Scaled(Read(s).value, 2 * scale)
  {
    hide Read, WireForm, Scaled, Nines;
    NinesRead();
    NinesPairs();
    NinesNormal(true, 39, 39); NinesNormal(true, 40, 39);
    CutShortOrder(Read("-" + Nines(39)).value, Read("-" + (Nines(39) + "." + Nines(1))).value, scale);
  }

  lemma ReadExponent129()
    ensures ReadSuffix("e-129") == Ok(-129)
  {
    assert "e-129"[1..] == "-129" && "-129"[1..] == "129";
    assert ToInt("129") == Some(129) by {
      assert Strip("129") == "129";
      assert WithoutUnderscores("129") == "129";
      assert DigitsOf("129") == [1, 2, 9];
      assert Pow(10, 2) == 100 && Pow(10, 1) == 10;
      assert [1, 2, 9][1..] == [2, 9] && [2, 9][1..] == [9];
      assert Worth([9], 10, 1) == 9;
      assert Worth([2, 9], 10, 2) == 29;
    }
  }

  lemma ReadPlain()
    ensures Read("1e-129") == ReadUnsigned(false, "1e-129") && Until("1e-129", ".eE") == 1
  {
    hide ReadUnsigned;
    PlainText("1e-129");
    UntilAppend("1", "e-129", ".eE");
    assert "1" + "e-129" == "1e-129";
  }

  lemma ReadSmallest()
    ensures Read("1e-129") == Ok(Literal(false, [1], -128))
  {
    hide ReadSuffix, ToInt;
    hide Until, IsSpace, Strip;
    var text := "1e-129";
    ReadPlain();
    assert text[..1] == "1" && text[1..1] == [] && text[1..] == "e-129";
    ReadExponent129();
    assert DigitsOf("1") + DigitsOf("") == [1];
  }

  /** The smallest positive numbers are encoded behind the zero marker and read back as zero. */
  lemma SmallestReadsAsZero(scale: nat)
    requires scale >= 170
    ensures var text := "1e-129";
      && Encode(text).Ok? && Fits(Read(text).value, scale)
      && DecodeNumber(Encode(text).value) == Ok(ZERO)
      && Scaled(Read(text).value, scale) > 0
  {
    hide Read, WireForm, DecodeNumber;
    ReadSmallest();
    var n := Literal(false, [1], -128);
    assert Normalize(n) == n;
    DecodeWire(n);
    Positive(n, scale);
  }

  lemma NinesPlain()
    ensures Read(Nines(29)) == Ok(Literal(false, DigitsOf(Nines(29)), 29))
    ensures Encode(Nines(29)).Ok? && NormalOf(Nines(29)) == Read(Nines(29)).value
  {
    hide ReadUnsigned, WireForm, Aligned, Nines, Strip;
    var text := Nines(29);
    PlainText(text);
    WholeNumber(false, text);
    NinesNormal(false, 29, 29);
  }

  /** Twenty-nine nines are encoded exactly and read back rounded. */
  lemma TwentyNineDigits(scale: nat)
    requires scale >= 170
    ensures var text := Nines(29);
      && Encode(text).Ok? && Fits(Read(text).value, scale)
      && var r := DecodeNumber(Encode(text).value);
      && r.Ok? && DecimalFits(r.value, scale) && DecimalScaled(r.value, scale) != Scaled(Read(text).value, scale)
  {
    hide Scaled, DecodeNumber, DecimalScaled, DecimalFits, Encode, Read, NormalOf, Nines;
    NinesPlain();
    assert |DigitsOf(Nines(29))| == 29;
    RoundTrip(Nines(29), scale);
  }
}
