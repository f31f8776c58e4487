/** How numbers are written down, and that reading gives back the number written. */
module Notation {
  import opened Basics
  import opened Text
  import opened PlaceValue
  import opened Numeral

  // ---------------------------------------------------------------------
  // Written numbers
  // ---------------------------------------------------------------------

  /** An integer as the host language reads one: digits in groups, an underscore between two of them. */
  datatype Whole = Whole(front: string, sign: string, groups: seq<seq<int>>, back: string) {
    predicate Valid() {
      && Blank(front) && Blank(back) && sign in {"", "+", "-"} && groups != []
      && forall i :: 0 <= i < |groups| ==> groups[i] != [] && AllDigits(groups[i], 10)
    }

    function Value(): int
      requires Valid()
    {
      if sign == "-" then -Horner(Flatten(groups)) else Horner(Flatten(groups))
    }
  }

  datatype Power = Power(mark: string, sign: string, field: Whole) {
    predicate Valid() {
      && mark in {"e", "E"} && sign in {"", "+", "-"} && field.Valid()
      && (sign == "" && field.sign != "" ==> field.front != [])
    }

    function Value(): int
      requires Valid()
    {
      if sign == "-" then -field.Value() else field.Value()
    }
  }

  /** A number written out: blanks, signs, digits, a fraction, a power of ten, blanks. */
  datatype Written = Written(front: string, sign: string, whole: seq<int>, fraction: Option<seq<int>>,
                             power: Option<Power>, back: string) {
    predicate Valid() {
      && Blank(front) && Blank(back)
      && (sign == "-" || forall i :: 0 <= i < |sign| ==> sign[i] == '+')
      && AllDigits(whole, 10) && (fraction.Some? ==> AllDigits(fraction.value, 10))
      && (power.Some? ==> power.value.Valid() && power.value.field.back == [])
      && (whole != [] || fraction.Some? || power.Some?)
    }

    /** The digits of whole part and fraction together. */
    function Digits(): seq<int> { whole + Decimals() }

    function Decimals(): seq<int> { if fraction.Some? then fraction.value else [] }

    function Exponent(): int
      requires Valid()
    {
      if power.Some? then power.value.Value() else 0
    }
  }

  /** The number a list of digits stands for. */
  function Horner(ds: seq<int>): int {
    if ds == [] then 0 else 10 * Horner(ds[..|ds| - 1]) + ds[|ds| - 1]
  }

  function ShowDigits(ds: seq<int>): (s: string)
    requires AllDigits(ds, 10)
    ensures |s| == |ds|
  {
    seq(|ds|, i requires 0 <= i < |ds| => "0123456789"[ds[i]])
  }

  function ShowGroups(groups: seq<seq<int>>): string
    requires forall i :: 0 <= i < |groups| ==> AllDigits(groups[i], 10)
  {
    if groups == [] then []
    else if |groups| == 1 then ShowDigits(groups[0])
    else ShowDigits(groups[0]) + ("_" + ShowGroups(groups[1..]))
  }

  function ShowWhole(w: Whole): string
    requires w.Valid()
  {
    w.front + (w.sign + (ShowGroups(w.groups) + w.back))
  }

  function ShowPower(p: Power): string
    requires p.Valid()
  {
    p.mark + (p.sign + ShowWhole(p.field))
  }

  function ShowMantissa(n: Written): string
    requires n.Valid()
  {
    ShowDigits(n.whole) + if n.fraction.Some? then "." + ShowDigits(n.fraction.value) else []
  }

  function Tail(n: Written): string
    requires n.Valid()
  {
    if n.power.Some? then ShowPower(n.power.value) else []
  }

  function ShowUnsigned(n: Written): string
    requires n.Valid()
  {
    ShowMantissa(n) + Tail(n)
  }

  function Show(n: Written): string
    requires n.Valid()
  {
    n.front + ((n.sign + ShowUnsigned(n)) + n.back)
  }

  // ---------------------------------------------------------------------
  // Digits
  // ---------------------------------------------------------------------

  lemma OneShown(d: int)
    requires 0 <= d < 10
    ensures var c := "0123456789"[d]; IsDigit(c) && c as int - '0' as int == d && !IsSpace(c)
  {
  }

  lemma DigitsShown(ds: seq<int>)
    requires AllDigits(ds, 10)
    ensures Numerals(ShowDigits(ds)) && DigitsOf(ShowDigits(ds)) == ds
    ensures forall i :: 0 <= i < |ds| ==> IsDigit(ShowDigits(ds)[i])
  {
    forall i | 0 <= i < |ds| ensures IsDigit(ShowDigits(ds)[i]) && ShowDigits(ds)[i] as int - '0' as int == ds[i] {
      OneShown(ds[i]);
    }
  }

  lemma NumeralsShown(s: string)
    requires Numerals(s)
    ensures ShowDigits(DigitsOf(s)) == s
  {
    forall i | 0 <= i < |s| ensures ShowDigits(DigitsOf(s))[i] == s[i] { CharShown(s[i]); }
  }

  lemma CharShown(c: char)
    requires IsDigit(c)
    ensures "0123456789"[c as int - '0' as int] == c
  {
  }

  lemma DigitsAppend(a: seq<int>, b: seq<int>)
    requires AllDigits(a, 10) && AllDigits(b, 10)
    ensures AllDigits(a + b, 10) && ShowDigits(a + b) == ShowDigits(a) + ShowDigits(b)
  {
  }

  lemma {:induction false} HornerIsWorth(ds: seq<int>)
    ensures Worth(ds, 10, |ds|) == Horner(ds)
  {
    if ds != [] {
      HornerIsWorth(ds[..|ds| - 1]);
      WorthLastDigit(ds);
    }
  }

  // ---------------------------------------------------------------------
  // Whole numbers
  // ---------------------------------------------------------------------

  lemma {:induction false} GroupsShown(groups: seq<seq<int>>)
    requires groups != [] && forall i :: 0 <= i < |groups| ==> groups[i] != [] && AllDigits(groups[i], 10)
    ensures Underscored(ShowGroups(groups))
    ensures AllDigits(Flatten(groups), 10)
    ensures WithoutUnderscores(ShowGroups(groups)) == ShowDigits(Flatten(groups))
  {
    var head := ShowDigits(groups[0]);
    DigitsShown(groups[0]);
    FlattenHead(groups);
    if |groups| == 1 {
      assert Flatten(groups[1..]) == [];
      assert groups[0] + [] == groups[0];
      NothingDropped(head);
    } else {
      var rest := ShowGroups(groups[1..]);
      GroupsShown(groups[1..]);
      DigitsAppend(groups[0], Flatten(groups[1..]));
      JoinUnderscored(head, rest);
      DropAcross(head, rest);
    }
  }

  lemma {:induction false} NothingDropped(s: string)
    requires Numerals(s)
    ensures WithoutUnderscores(s) == s
  {
    if s != [] { NothingDropped(s[1..]); }
  }

  lemma JoinUnderscored(a: string, b: string)
    requires a != [] && Numerals(a) && Underscored(b)
    ensures Underscored(a + ("_" + b))
  {
    var s, k := a + ("_" + b), |a|;
    forall i | 0 <= i < |s| ensures IsDigit(s[i]) || s[i] == '_' {
      if i > k { assert s[i] == b[i - k - 1]; }
    }
    forall i | 0 < i < |s| ensures !(s[i - 1] == '_' && s[i] == '_') {
      if i > k + 1 { assert s[i] == b[i - k - 1] && s[i - 1] == b[i - k - 2]; }
    }
    assert s[|s| - 1] == b[|b| - 1];
  }

  lemma {:induction false} DropAcross(a: string, b: string)
    requires Numerals(a) && Underscored(b)
    ensures var s := a + ("_" + b);
      && (forall i :: 0 <= i < |s| ==> IsDigit(s[i]) || s[i] == '_')
      && WithoutUnderscores(s) == a + WithoutUnderscores(b)
  {
    hide Underscored;
    var s := a + ("_" + b);
    Allowed(a, b);
    if a == [] {
      assert s[1..] == b;
    } else {
      assert s[1..] == a[1..] + ("_" + b);
      DropAcross(a[1..], b);
      assert [a[0]] + (a[1..] + WithoutUnderscores(b)) == a + WithoutUnderscores(b);
    }
  }

  lemma Allowed(a: string, b: string)
    requires Numerals(a) && Underscored(b)
    ensures forall i :: 0 <= i < |b| ==> IsDigit(b[i]) || b[i] == '_'
    ensures var s := a + ("_" + b);
      forall i :: 0 <= i < |s| ==> IsDigit(s[i]) || s[i] == '_'
  {
    var s := a + ("_" + b);
    forall i | 0 <= i < |s| ensures IsDigit(s[i]) || s[i] == '_' {
      if i > |a| { assert s[i] == b[i - |a| - 1]; }
    }
  }

  lemma {:induction false} LStripBlank(a: string, t: string)
    requires Blank(a) && (t != [] ==> !IsSpace(t[0]))
    ensures LStrip(a + t) == t
  {
    if a == [] {
      assert a + t == t;
    } else {
      assert (a + t)[1..] == a[1..] + t;
      LStripBlank(a[1..], t);
    }
  }

  lemma {:induction false} RStripBlank(t: string, b: string)
    requires Blank(b) && (t != [] ==> !IsSpace(t[|t| - 1]))
    ensures RStrip(t + b) == t
  {
    if b == [] {
      assert t + b == t;
    } else {
      assert (t + b)[..|t + b| - 1] == t + b[..|b| - 1];
      RStripBlank(t, b[..|b| - 1]);
    }
  }

  lemma StripBlanks(a: string, t: string, b: string)
    requires Blank(a) && Blank(b) && t != [] && !IsSpace(t[0]) && !IsSpace(t[|t| - 1])
    ensures Strip(a + (t + b)) == t
  {
    LStripBlank(a, t + b);
    RStripBlank(t, b);
  }

  /** A written integer is read as its value. */
  lemma WholeShown(w: Whole)
    requires w.Valid()
    ensures ToInt(ShowWhole(w)) == Some(w.Value())
  {
    hide Underscored, WithoutUnderscores, Horner, Worth, Strip, ShowGroups;
    var g := ShowGroups(w.groups);
    GroupsShown(w.groups);
    GroupEnds(g);
    var t := w.sign + g;
    Associate(w.sign, g, w.back);
    assert !IsSpace(t[0]) && !IsSpace(t[|t| - 1]);
    StripBlanks(w.front, t, w.back);
    assert Strip(ShowWhole(w)) == t;
    if w.sign == "" { assert t == g; } else { assert t[1..] == g; }
    DigitsShown(Flatten(w.groups));
    HornerIsWorth(Flatten(w.groups));
  }

  lemma GroupEnds(s: string)
    requires Underscored(s)
    ensures s != [] && IsDigit(s[0]) && IsDigit(s[|s| - 1]) && !IsSpace(s[0]) && !IsSpace(s[|s| - 1])
  {
  }

  // ---------------------------------------------------------------------
  // Numbers
  // ---------------------------------------------------------------------

  lemma PowerShown(p: Power)
    requires p.Valid()
    ensures ReadSuffix(ShowPower(p)) == Ok(p.Value())
  {
    hide ToInt, ShowWhole, Whole.Value;
    var field := ShowWhole(p.field);
    var s := p.sign + field;
    WholeShown(p.field);
    assert ShowPower(p)[1..] == s;
    WholeStarts(p.field);
    if p.sign == "" {
      assert s == field;
      assert field[0] != '+' && field[0] != '-';
    } else {
      assert s[1..] == field && s[0] == p.sign[0];
    }
  }

  /** A written integer starts with a blank, a sign or a digit. */
  lemma WholeStarts(w: Whole)
    requires w.Valid()
    ensures var s := ShowWhole(w);
      s != [] && (w.front == [] && w.sign == "" ==> IsDigit(s[0])) && (w.front != [] ==> IsSpace(s[0]))
  {
    hide Underscored;
    GroupsShown(w.groups);
    GroupEnds(ShowGroups(w.groups));
  }

  lemma TailShown(n: Written)
    requires n.Valid()
    ensures ReadSuffix(Tail(n)) == Ok(n.Exponent()) && (Tail(n) != [] ==> Tail(n)[0] in "eE")
  {
    hide ReadSuffix, ShowPower;
    if n.power.Some? { PowerShown(n.power.value); PowerStarts(n.power.value); }
    NoSuffix();
  }

  /** Where the parts of a number lie. */
  lemma WholePlaces(a: string, tail: string)
    requires Numerals(a) && (tail != [] ==> tail[0] in "eE")
    ensures var text := a + tail;
      && Until(text, ".eE") == |a| && !HasFraction(text) && MantissaEnd(text) == |a|
      && text[|a|..] == tail && MantissaOk(text) && Mantissa(text) == DigitsOf(a)
  {
    hide Until;
    var text := a + tail;
    UntilShown(a, tail, ".eE");
    assert text[..|a|] == a && text[|a|..|a|] == [] && text[|a|..] == tail;
    assert DigitsOf(a) + DigitsOf([]) == DigitsOf(a);
  }

  lemma FractionPlaces(a: string, f: string, tail: string)
    requires Numerals(a) && Numerals(f) && (tail != [] ==> tail[0] in "eE")
    ensures var text := (a + ("." + f)) + tail;
      && Until(text, ".eE") == |a| && HasFraction(text) && MantissaEnd(text) == |a| + 1 + |f|
      && text[|a| + 1 + |f|..] == tail && MantissaOk(text) && Mantissa(text) == DigitsOf(a) + DigitsOf(f)
  {
    hide Until;
    var text := (a + ("." + f)) + tail;
    var later := "." + (f + tail);
    assert text == a + later;
    UntilShown(a, later, ".eE");
    UntilShown(f, tail, "eE");
    assert text[|a| + 1..] == f + tail && text[..|a|] == a && text[|a|] == '.';
    assert text[|a| + 1..|a| + 1 + |f|] == f && text[|a| + 1 + |f|..] == tail;
  }

  /** What is read of a number without its sign. */
  lemma UnsignedShown(neg: bool, n: Written)
    requires n.Valid()
    ensures ReadUnsigned(neg, ShowUnsigned(n)) == Ok(Literal(neg, n.Digits(), |n.whole| + n.Exponent()))
  {
    hide ReadSuffix, ShowPower, Until, ShowDigits, MantissaOk, MantissaEnd, Mantissa, HasFraction;
    var a := ShowDigits(n.whole);
    DigitsShown(n.whole);
    TailShown(n);
    if n.fraction.None? {
      assert a + [] == a;
      WholePlaces(a, Tail(n));
      assert n.whole + [] == n.whole;
    } else {
      DigitsShown(n.fraction.value);
      FractionPlaces(a, ShowDigits(n.fraction.value), Tail(n));
    }
  }

  lemma NoSuffix()
    ensures ReadSuffix([]) == Ok(0)
  {
  }

  lemma PowerStarts(p: Power)
    requires p.Valid()
    ensures ShowPower(p) != [] && ShowPower(p)[0] in "eE"
  {
  }

  lemma UntilShown(a: string, tail: string, stops: string)
    requires Numerals(a) && (tail != [] ==> tail[0] in stops) && stops in {".eE", "eE"}
    ensures Until(a + tail, stops) == |a|
  {
    forall i | 0 <= i < |a| ensures a[i] !in stops { assert IsDigit(a[i]); }
    if tail == [] {
      assert a + tail == a;
      UntilAll(a, stops);
    } else {
      UntilAppend(a, tail, stops);
    }
  }

  lemma UnsignedEnds(n: Written)
    requires n.Valid()
    ensures var s := ShowUnsigned(n);
      s != [] && !IsSpace(s[0]) && !IsSpace(s[|s| - 1]) && s[0] != '+' && s[0] != '-'
  {
    hide ShowGroups;
    DigitsShown(n.whole);
    if n.fraction.Some? { DigitsShown(n.fraction.value); }
    if n.power.Some? { PowerEnds(n.power.value); }
  }

  lemma PowerEnds(p: Power)
    requires p.Valid() && p.field.back == []
    ensures var s := ShowPower(p); s != [] && s[0] in "eE" && IsDigit(s[|s| - 1])
  {
    hide ShowGroups, Underscored;
    GroupsShown(p.field.groups);
    GroupEnds(ShowGroups(p.field.groups));
  }

  lemma {:induction false} PlusesDropped(sign: string, s: string)
    requires s != [] && s[0] != '+' && forall i :: 0 <= i < |sign| ==> sign[i] == '+'
    ensures DropPlus(sign + s) == s
  {
    if sign == [] {
      assert sign + s == s;
    } else {
      assert (sign + s)[1..] == sign[1..] + s;
      PlusesDropped(sign[1..], s);
    }
  }

  /** What a written number denotes. */
  function Denoted(n: Written): Literal
    requires n.Valid()
  {
    Literal(n.sign == "-", n.Digits(), |n.whole| + n.Exponent())
  }

  /** A written number is read as the number it denotes. */
  lemma ReadsShown(n: Written)
    requires n.Valid()
    ensures Read(Show(n)) == Ok(Denoted(n))
  {
    hide ShowUnsigned, ReadUnsigned, Strip;
    var s := ShowUnsigned(n);
    UnsignedEnds(n);
    var t := n.sign + s;
    StripBlanks(n.front, t, n.back);
    UnsignedShown(n.sign == "-", n);
    if n.sign == "-" {
      assert t[1..] == s;
    } else {
      PlusesDropped(n.sign, s);
      if n.sign == "" { assert t == s; } else { assert t[0] == '+'; }
    }
  }

  function Signed(neg: bool, v: int): int { if neg then -v else v }

  /** Its value: the digits read as one number, with the point so many places from the right, times the power
      of ten, negated behind a minus sign. */
  lemma ShownValue(n: Written, scale: nat)
    requires n.Valid()
    ensures Read(Show(n)).Ok?
    ensures var l, shift := Read(Show(n)).value, scale + n.Exponent() - |n.Decimals()|;
      && (Fits(l, scale) <==> shift >= 0)
      && (shift >= 0 ==> Scaled(l, scale) == Signed(n.sign == "-", Horner(n.Digits()) * Pow(10, shift)))
  {
    hide Horner, Pow, Worth, Read, Show;
    ReadsShown(n);
    var ds, shift := n.Digits(), scale + n.Exponent() - |n.Decimals()|;
    if shift >= 0 {
      HornerIsWorth(ds);
      WorthScale(ds, 10, |ds|, shift);
    }
  }

  // ---------------------------------------------------------------------
  // Nothing else is read
  // ---------------------------------------------------------------------

  lemma {:induction false} Grouped(s: string) returns (groups: seq<seq<int>>)
    requires Underscored(s)
    ensures groups != [] && forall i :: 0 <= i < |groups| ==> groups[i] != [] && AllDigits(groups[i], 10)
    ensures ShowGroups(groups) == s
    decreases |s|
  {
    var k := Until(s, "_");
    var a := s[..k];
    assert Numerals(a) by {
      forall i | 0 <= i < k ensures IsDigit(a[i]) { assert a[i] == s[i]; }
    }
    NumeralsShown(a);
    if k == |s| {
      assert a == s;
      groups := [DigitsOf(a)];
    } else {
      var rest := s[k + 1..];
      RestUnderscored(s, k);
      var more := Grouped(rest);
      groups := [DigitsOf(a)] + more;
      assert groups[1..] == more;
      assert s == a + ("_" + rest);
    }
  }

  lemma RestUnderscored(s: string, k: nat)
    requires Underscored(s) && k < |s| && s[k] == '_'
    ensures 0 < k && k + 1 < |s| && Underscored(s[k + 1..])
  {
    var rest := s[k + 1..];
    assert k + 1 < |s| by { assert IsDigit(s[|s| - 1]); }
    assert rest[0] == s[k + 1] && rest[|rest| - 1] == s[|s| - 1];
    forall i | 0 <= i < |rest| ensures IsDigit(rest[i]) || rest[i] == '_' { assert rest[i] == s[k + 1 + i]; }
    forall i | 0 < i < |rest| ensures !(rest[i - 1] == '_' && rest[i] == '_') {
      assert rest[i] == s[k + 1 + i] && rest[i - 1] == s[k + i];
    }
  }

  /** The sign of a trimmed integer, and what follows it. */
  lemma SignedBody(t: string) returns (sign: string, body: string)
    ensures sign in {"", "+", "-"} && t == sign + body
    ensures body == if t != [] && (t[0] == '-' || t[0] == '+') then t[1..] else t
  {
    if t != [] && (t[0] == '-' || t[0] == '+') {
      sign, body := t[..1], t[1..];
      assert t[0] == '-' ==> sign == "-";
      assert t[0] == '+' ==> sign == "+";
    } else {
      sign, body := "", t;
      NothingBefore(t);
    }
  }

  /** Whatever converts to an integer is a written one. */
  lemma WholeOnly(s: string) returns (w: Whole)
    requires ToInt(s).Some?
    ensures w.Valid() && ShowWhole(w) == s
  {
    hide Underscored, WithoutUnderscores, Strip, Worth, ShowGroups, IsSpace;
    var n, m := StripShape(s);
    var t := s[n..n + m];
    var sign, body := SignedBody(t);
    var groups := Grouped(body);
    w := Whole(s[..n], sign, groups, s[n + m..]);
    Associate(sign, body, w.back);
    ThreeParts(s, n, m);
  }

  lemma ThreeParts(s: string, n: nat, m: nat)
    requires n + m <= |s|
    ensures s[..n] + (s[n..n + m] + s[n + m..]) == s
  {
  }

  lemma PowerOnly(s: string) returns (p: Power)
    requires s != [] && s[0] in "eE" && ReadSuffix(s).Ok?
    ensures p.Valid() && ShowPower(p) == s
  {
    hide ToInt, ShowWhole;
    var field := s[1..];
    var signed := field != [] && (field[0] == '+' || field[0] == '-');
    var body := if signed then field[1..] else field;
    var w := WholeOnly(body);
    p := Power(s[..1], if signed then field[..1] else "", w);
    assert s == s[..1] + field;
    assert field == p.sign + body by {
      if signed { assert field == field[..1] + field[1..]; } else { assert [] + field == field; }
    }
    assert p.mark == "e" || p.mark == "E";
    assert signed ==> p.sign == "-" || p.sign == "+";
    SignFirst(w);
  }

  lemma SignFirst(w: Whole)
    requires w.Valid()
    ensures var s := ShowWhole(w);
      w.sign != "" && w.front == [] ==> s != [] && (s[0] == '+' || s[0] == '-')
  {
  }

  /** The parts of a mantissa that is read. */
  lemma MantissaOnly(text: string) returns (whole: seq<int>, fraction: Option<seq<int>>)
    requires MantissaOk(text)
    ensures AllDigits(whole, 10) && (fraction.Some? ==> AllDigits(fraction.value, 10))
    ensures text[..MantissaEnd(text)] == ShowDigits(whole) + if fraction.Some? then "." + ShowDigits(fraction.value) else []
    ensures MantissaEnd(text) < |text| ==> text[MantissaEnd(text)] in "eE"
    ensures fraction.None? ==> |whole| == MantissaEnd(text)
  {
    hide Until;
    var i, k := Until(text, ".eE"), MantissaEnd(text);
    var a := text[..i];
    NumeralsShown(a);
    whole := DigitsOf(a);
    if HasFraction(text) {
      var f := text[i + 1..k];
      NumeralsShown(f);
      fraction := Some(DigitsOf(f));
      assert text[..k] == a + ("." + f);
      if k < |text| { assert text[i + 1..][k - i - 1] == text[k]; }
    } else {
      fraction := None;
      assert text[..k] == a + [];
    }
  }

  /** Whatever is read as a number without its sign is a written one. */
  lemma UnsignedOnly(text: string) returns (whole: seq<int>, fraction: Option<seq<int>>, power: Option<Power>)
    requires text != [] && !IsSpace(text[|text| - 1]) && ReadUnsigned(false, text).Ok?
    ensures var n := Written("", "", whole, fraction, power, "");
      n.Valid() && ShowUnsigned(n) == text
  {
    hide MantissaOk, MantissaEnd, ShowDigits, ReadSuffix, ShowPower;
    whole, fraction := MantissaOnly(text);
    var k := MantissaEnd(text);
    var tail := text[k..];
    assert text == text[..k] + tail;
    power := None;
    if tail != [] {
      assert tail[0] == text[k];
      var p := PowerOnly(tail);
      LastIsDigit(p, text, k);
      power := Some(p);
    } else {
      assert k == |text|;
    }
  }

  /** A text that is not blank at its end leaves no blanks behind its power. */
  lemma LastIsDigit(p: Power, text: string, k: nat)
    requires p.Valid() && k < |text| && ShowPower(p) == text[k..] && !IsSpace(text[|text| - 1])
    ensures p.field.back == []
  {
    hide ShowGroups;
    var s := ShowPower(p);
    assert s[|s| - 1] == text[|text| - 1];
    BackIsLast(p);
  }

  lemma BackIsLast(p: Power)
    requires p.Valid()
    ensures var s := ShowPower(p); p.field.back != [] ==> s != [] && IsSpace(s[|s| - 1])
  {
    hide ShowGroups;
    var s := ShowPower(p);
    var back := p.field.back;
    if back != [] { assert s[|s| - 1] == back[|back| - 1]; }
  }

  lemma {:induction false} PlusesOnly(t: string) returns (sign: string)
    ensures t == sign + DropPlus(t) && forall i :: 0 <= i < |sign| ==> sign[i] == '+'
  {
    if t != [] && t[0] == '+' {
      var more := PlusesOnly(t[1..]);
      sign := ['+'] + more;
      Associate(['+'], more, DropPlus(t));
      assert t == ['+'] + t[1..];
    } else {
      sign := [];
      assert [] + t == t;
    }
  }

  lemma SignIsNoMatter(text: string)
    ensures ReadUnsigned(true, text).Ok? <==> ReadUnsigned(false, text).Ok?
  {
    hide MantissaOk, ReadSuffix;
  }

  lemma {:induction false} DropPlusEnds(t: string)
    ensures var s := DropPlus(t); |s| <= |t| && s == t[|t| - |s|..]
  {
    if t != [] && t[0] == '+' { DropPlusEnds(t[1..]); }
  }

  /** Whatever is read as a number is a written one. */
  lemma ReadOnly(text: string) returns (n: Written)
    requires Read(text).Ok?
    ensures n.Valid() && Show(n) == text
  {
    hide ReadUnsigned, Strip, ShowUnsigned;
    var x, m := StripShape(text);
    var t := text[x..x + m];
    var sign, body := "-", if t != [] then t[1..] else t;
    if t == [] || t[0] != '-' {
      sign := PlusesOnly(t);
      DropPlusEnds(t);
      body := DropPlus(t);
    }
    assert t == sign + body;
    assert body[|body| - 1] == t[|t| - 1];
    SignIsNoMatter(body);
    var whole, fraction, power := UnsignedOnly(body);
    n := Written(text[..x], sign, whole, fraction, power, text[x + m..]);
    SameUnsigned(n);
    assert text == text[..x] + (t + text[x + m..]);
  }

  lemma SameUnsigned(n: Written)
    requires Written("", "", n.whole, n.fraction, n.power, "").Valid() && n.Valid()
    ensures ShowUnsigned(n) == ShowUnsigned(Written("", "", n.whole, n.fraction, n.power, ""))
  {
  }

  /** The texts accepted as numbers are exactly the written ones. */
  lemma Accepted(text: string)
    ensures Read(text).Ok? <==> exists n: Written :: n.Valid() && Show(n) == text
  {
    hide Read, Show;
    if Read(text).Ok? {
      var n := ReadOnly(text);
    } else if exists n: Written :: n.Valid() && Show(n) == text {
      var n: Written :| n.Valid() && Show(n) == text;
      ReadsShown(n);
    }
  }
}
