/** Where the bind scanner finds its names, in a whole text and in the statements it is split into. */
module Occurrences {
  import opened Basics
  import opened Text
  import opened Scanner
  import opened ScannerLaws

  /** The places at or behind i at which the bind scanner, started there, finds a name. */
  function PlacesFrom(text: string, i: nat): seq<nat>
    requires i <= |text|
    decreases |text| - i
  {
    if i == |text| then []
    else
      var s := text[i..];
      var n := StepLength(BlockedAt(text, i), s);
      (if StepNames(BlockedAt(text, i), s) != [] then [i] else []) + PlacesFrom(text, i + n)
  }

  function Places(text: string): seq<nat> { PlacesFrom(text, 0) }

  /** The name of a bind at i. */
  function Label(text: string, i: nat): string
    requires i < |text|
  {
    var n := BindLength(BlockedAt(text, i), text[i..]);
    if n > 0 then Upper(text[i + 1..i + n]) else []
  }

  function Labels(text: string, places: seq<nat>): seq<string> {
    seq(|places|, k requires 0 <= k < |places| => if places[k] < |text| then Label(text, places[k]) else [])
  }

  // ---------------------------------------------------------------------
  // The places of a scan are the unmasked sites
  // ---------------------------------------------------------------------

  /** How many colons stand right before i. */
  function Colons(text: string, i: nat): nat
    requires i <= |text|
  {
    if i > 0 && text[i - 1] == ':' then 1 + Colons(text, i - 1) else 0
  }

  /** A colon that could start a bind, wherever it is: in front of a letter, and not right behind a word or
      another colon; or in front of a digit, and behind an even number of colons. */
  predicate Site(text: string, i: nat) {
    && i + 1 < |text| && text[i] == ':'
    && ((NameStart(text[i + 1]) && !BlockedAt(text, i)) || (IsDigit(text[i + 1]) && Colons(text, i) % 2 == 0))
  }

  /** A scan from i on does not pass over j as part of a string, comment or quoted identifier. */
  predicate OpenFrom(text: string, i: nat, j: nat)
    requires i <= |text|
    decreases |text| - i
  {
    if i == |text| || j < i then false
    else
      var m := Masked(text[i..]);
      if m > 0 then OpenFrom(text, i + m, j) else j == i || OpenFrom(text, i + 1, j)
  }

  predicate Open(text: string, j: nat) { OpenFrom(text, 0, j) }

  lemma {:induction false} OpenBehind(text: string, i: nat, j: nat)
    requires i <= |text| && OpenFrom(text, i, j)
    ensures i <= j < |text|
    decreases |text| - i
  {
    hide Masked;
    if i < |text| {
      var m := Masked(text[i..]);
      if m > 0 { OpenBehind(text, i + m, j); } else if j != i { OpenBehind(text, i + 1, j); }
    }
  }

  /** Names and colons start nothing that masks. */
  lemma PlainUnmasked(s: string)
    requires s != [] && (NameChar(s[0]) || s[0] == ':')
    ensures Masked(s) == 0
  {
  }

  lemma {:induction false} OpenSkip(text: string, i: nat, n: nat, j: nat)
    requires i + n <= |text| && forall k :: i <= k < i + n ==> NameChar(text[k]) || text[k] == ':'
    ensures i + n <= j ==> (OpenFrom(text, i, j) <==> OpenFrom(text, i + n, j))
    ensures i <= j < i + n ==> OpenFrom(text, i, j)
    decreases n
  {
    hide Masked, NameChar;
    if n > 0 {
      assert text[i..][0] == text[i];
      PlainUnmasked(text[i..]);
      OpenSkip(text, i + 1, n - 1, j);
    }
  }

  /** A masked region is not left behind a colon that another colon follows. */
  lemma MaskedEnd(s: string)
    requires 0 < Masked(s) < |s| && s[Masked(s)] == ':'
    ensures s[Masked(s) - 1] != ':'
  {
    if StartsQuoted(s) {
      QuotedEnd(s[0], s[1..]);
    } else if StartsString(s) {
      StringEnd(s[1..]);
    } else if StartsLine(s) {
      LineStops(s);
    } else {
      BlockStops(s);
    }
  }

  lemma {:induction false} QuotedEnd(q: char, s: string)
    requires s != [] && QuotedTail(q, s) < |s|
    ensures s[QuotedTail(q, s) - 1] == q
  {
    if s[0] != q { QuotedEnd(q, s[1..]); }
  }

  lemma {:induction false} StringEnd(s: string)
    requires s != [] && StringTail(s) < |s|
    ensures s[StringTail(s) - 1] == '\''
    decreases |s|
  {
    if s[0] != '\'' {
      StringEnd(s[1..]);
    } else if |s| > 1 && s[1] == '\'' {
      if |s| > 2 && StringTail(s[2..]) > 0 { StringEnd(s[2..]); }
    }
  }

  lemma {:induction false} LineStops(s: string)
    requires LineEnd(s) < |s|
    ensures s[LineEnd(s)] == '\n'
  {
    if s[0] != '\n' { LineStops(s[1..]); }
  }

  lemma {:induction false} BlockStops(s: string)
    requires 0 < BlockEnd(s) < |s|
    ensures s[BlockEnd(s) - 1] == '/'
  {
    if !(s[0] == '*' && s[1] == '/') { BlockStops(s[1..]); }
  }

  /** A scan never stands inside a pair of colons. */
  predicate Even(text: string, i: nat)
    requires i <= |text|
  {
    i < |text| && text[i] == ':' ==> Colons(text, i) % 2 == 0
  }

  /** One step of the scanner: the one site it can pass is where it starts, and then it finds it there. */
  lemma StepSites(text: string, i: nat, j: nat)
    requires i < |text| && Even(text, i)
    ensures var b, s := BlockedAt(text, i), text[i..];
      var n := StepLength(b, s);
      && Even(text, i + n)
      && (i <= j < i + n ==> (Site(text, j) && OpenFrom(text, i, j) <==> j == i && StepNames(b, s) != []))
      && (i + n <= j ==> (OpenFrom(text, i, j) <==> OpenFrom(text, i + n, j)))
  {
    hide Masked, BindLength, Site, OpenFrom, Upper, Even;
    var b, s := BlockedAt(text, i), text[i..];
    if Masked(s) > 0 {
      MaskedStep(text, i, j);
    } else if ColonPair(s) {
      PairStep(text, i, j);
    } else if BindLength(b, s) > 0 {
      BindStep(text, i, j);
    } else {
      CharStep(text, i, j);
    }
  }

  lemma MaskedStep(text: string, i: nat, j: nat)
    requires i < |text| && Masked(text[i..]) > 0
    ensures var n := Masked(text[i..]);
      && Even(text, i + n)
      && (i <= j < i + n ==> !OpenFrom(text, i, j))
      && (i + n <= j ==> (OpenFrom(text, i, j) <==> OpenFrom(text, i + n, j)))
  {
    hide Masked;
    var s := text[i..];
    var n := Masked(s);
    if i + n < |text| && text[i + n] == ':' {
      MaskedEnd(s);
      assert s[n - 1] == text[i + n - 1];
    }
    if OpenFrom(text, i + n, j) { OpenBehind(text, i + n, j); }
  }

  lemma PairStep(text: string, i: nat, j: nat)
    requires i < |text| && ColonPair(text[i..]) && Even(text, i)
    ensures Even(text, i + 2)
    ensures i <= j < i + 2 ==> !Site(text, j)
    ensures i + 2 <= j ==> (OpenFrom(text, i, j) <==> OpenFrom(text, i + 2, j))
  {
    assert text[i] == ':' && text[i + 1] == ':';
    assert Colons(text, i + 1) == Colons(text, i) + 1 && Colons(text, i + 2) == Colons(text, i + 1) + 1;
    OpenSkip(text, i, 2, j);
  }

  lemma BindStep(text: string, i: nat, j: nat)
    requires i < |text| && BindLength(BlockedAt(text, i), text[i..]) > 0 && Even(text, i)
    ensures var n := BindLength(BlockedAt(text, i), text[i..]);
      && Even(text, i + n)
      && (i <= j < i + n ==> OpenFrom(text, i, j) && (Site(text, j) <==> j == i))
      && (i + n <= j ==> (OpenFrom(text, i, j) <==> OpenFrom(text, i + n, j)))
  {
    var b, s := BlockedAt(text, i), text[i..];
    var n := BindLength(b, s);
    BindChars(b, s);
    forall k | i < k < i + n ensures NameChar(text[k]) && text[k] != ':' { assert text[k] == s[k - i]; }
    assert s[1] == text[i + 1];
    hide BindLength, NameChar;
    OpenSkip(text, i, n, j);
    assert Colons(text, i + n) == 0;
  }

  lemma CharStep(text: string, i: nat, j: nat)
    requires i < |text| && Even(text, i)
    requires var s := text[i..]; Masked(s) == 0 && !ColonPair(s) && BindLength(BlockedAt(text, i), s) == 0
    ensures Even(text, i + 1) && !Site(text, i)
    ensures i + 1 <= j ==> (OpenFrom(text, i, j) <==> OpenFrom(text, i + 1, j))
  {
    hide Masked;
    var s := text[i..];
    if i + 1 < |text| {
      assert s[1] == text[i + 1];
      BindIsLong(s[1..]);
    }
  }

  lemma BindIsLong(s: string)
    requires s != []
    ensures NameStart(s[0]) ==> NameRun(s) > 0
    ensures IsDigit(s[0]) ==> DigitRun(s) > 0
  {
  }

  lemma NothingRises(i: nat)
    ensures Rising([], i)
  {
  }

  lemma NothingOpen(text: string, j: nat)
    ensures !OpenFrom(text, |text|, j)
  {
  }

  /** What a scan finds is exactly the sites it does not mask, each once and in order. */
  lemma {:induction false} PlacesAreSites(text: string, i: nat)
    requires i <= |text| && Even(text, i)
    ensures Rising(PlacesFrom(text, i), i)
    ensures forall j: nat :: j in PlacesFrom(text, i) <==> Site(text, j) && OpenFrom(text, i, j)
    decreases |text| - i
  {
    hide StepLength, StepNames, Site, Even, Rising, OpenFrom;
    if i == |text| {
      assert Rising([], i) by { NothingRises(i); }
      forall j: nat ensures !OpenFrom(text, i, j) { NothingOpen(text, j); }
    } else {
      var n := StepLength(BlockedAt(text, i), text[i..]);
      StepSites(text, i, i);
      PlacesAreSites(text, i + n);
      var later := PlacesFrom(text, i + n);
      forall j: nat ensures j in PlacesFrom(text, i) <==> Site(text, j) && OpenFrom(text, i, j) {
        StepSites(text, i, j);
        if OpenFrom(text, i, j) { OpenBehind(text, i, j); }
        if j in later { OpenBehind(text, i + n, j); }
      }
      RisingFrom(later, i + n, i);
    }
  }

  // ---------------------------------------------------------------------
  // Rising lists
  // ---------------------------------------------------------------------

  predicate Rising(xs: seq<nat>, from: nat) {
    xs == [] || (from <= xs[0] && Rising(xs[1..], xs[0] + 1))
  }

  lemma RisingFrom(xs: seq<nat>, from: nat, first: nat)
    requires Rising(xs, from) && first < from
    ensures Rising([first] + xs, first) && Rising([] + xs, first)
  {
    assert [] + xs == xs && ([first] + xs)[1..] == xs;
  }

  lemma {:induction false} RisingMembers(xs: seq<nat>, from: nat, j: nat)
    requires Rising(xs, from) && j in xs
    ensures from <= j && (j == xs[0] || j in xs[1..])
  {
    if j != xs[0] {
      assert xs == [xs[0]] + xs[1..];
      RisingMembers(xs[1..], xs[0] + 1, j);
    }
  }

  /** Rising lists of the same numbers are the same. */
  lemma {:induction false} RisingEqual(xs: seq<nat>, ys: seq<nat>, from: nat)
    requires Rising(xs, from) && Rising(ys, from)
    ensures xs == ys <==> forall j: nat :: j in xs <==> j in ys
    decreases |xs|
  {
    if forall j: nat :: j in xs <==> j in ys {
      if xs == [] || ys == [] {
        HeadIsIn(xs); HeadIsIn(ys);
      } else {
        SameHead(xs, ys, from);
        var next := xs[0] + 1;
        forall j: nat ensures j in xs[1..] <==> j in ys[1..] { SameTail(xs, ys, from, j); }
        RisingEqual(xs[1..], ys[1..], next);
        assert xs == [xs[0]] + xs[1..] && ys == [ys[0]] + ys[1..];
      }
    }
  }

  lemma HeadIsIn(xs: seq<nat>)
    ensures xs != [] ==> exists j: nat :: j in xs
  {
    if xs != [] { assert xs[0] in xs; }
  }

  lemma SameHead(xs: seq<nat>, ys: seq<nat>, from: nat)
    requires Rising(xs, from) && Rising(ys, from) && xs != [] && ys != []
    requires forall j: nat :: j in xs <==> j in ys
    ensures xs[0] == ys[0]
  {
    assert xs[0] in ys && ys[0] in xs;
    RisingMembers(ys, from, xs[0]);
    RisingMembers(xs, from, ys[0]);
    if xs[0] in ys[1..] { RisingMembers(ys[1..], ys[0] + 1, xs[0]); }
    if ys[0] in xs[1..] { RisingMembers(xs[1..], xs[0] + 1, ys[0]); }
  }

  lemma SameTail(xs: seq<nat>, ys: seq<nat>, from: nat, j: nat)
    requires Rising(xs, from) && Rising(ys, from) && xs != [] && ys != [] && xs[0] == ys[0]
    requires j in xs <==> j in ys
    ensures j in xs[1..] <==> j in ys[1..]
  {
    if j in xs[1..] {
      RisingMembers(xs[1..], xs[0] + 1, j);
      RisingMembers(ys, from, j);
    }
    if j in ys[1..] {
      RisingMembers(ys[1..], ys[0] + 1, j);
      RisingMembers(xs, from, j);
    }
  }

  // ---------------------------------------------------------------------
  // The same for the statements of a text
  // ---------------------------------------------------------------------

  function Shifted(places: seq<nat>, d: nat): seq<nat> {
    seq(|places|, k requires 0 <= k < |places| => places[k] + d)
  }

  /** The places at or behind a at which the bind scanner finds names, run on each stretch up to the next
      separator by itself. */
  function SplitPlacesFrom(text: string, a: nat): seq<nat>
    requires a <= |text|
    decreases |text| - a
  {
    var k := a + FirstSemicolon(text[a..]);
    Shifted(Places(text[a..k]), a) + if k < |text| then SplitPlacesFrom(text, k + 1) else []
  }

  function SplitPlaces(text: string): seq<nat> { SplitPlacesFrom(text, 0) }

  predicate SplitOpenFrom(text: string, a: nat, j: nat)
    requires a <= |text|
    decreases |text| - a
  {
    var k := a + FirstSemicolon(text[a..]);
    if a <= j < k then Open(text[a..k], j - a) else k < j && k < |text| && SplitOpenFrom(text, k + 1, j)
  }

  /** Scanning statement by statement does not mask j. */
  predicate SplitOpen(text: string, j: nat) { SplitOpenFrom(text, 0, j) }

  /** A statement starts a text or stands behind a separator, and ends at one or with the text. */
  predicate Stretch(text: string, a: nat, k: nat) {
    && a <= k <= |text| && (a > 0 ==> text[a - 1] == ';') && (k < |text| ==> text[k] == ';')
  }

  lemma {:induction false} ColonsIn(text: string, a: nat, k: nat, i: nat)
    requires Stretch(text, a, k) && i <= k - a
    ensures Colons(text[a..k], i) == Colons(text, a + i)
  {
    if i > 0 {
      assert text[a..k][i - 1] == text[a + i - 1];
      ColonsIn(text, a, k, i - 1);
    }
  }

  lemma BlockedIn(text: string, a: nat, k: nat, i: nat)
    requires Stretch(text, a, k) && i <= k - a
    ensures BlockedAt(text[a..k], i) == BlockedAt(text, a + i)
  {
    if i > 0 { assert text[a..k][i - 1] == text[a + i - 1]; }
  }

  /** Sites of a stretch are sites of the text. */
  lemma SiteIn(text: string, a: nat, k: nat, i: nat)
    requires Stretch(text, a, k) && i < k - a
    ensures Site(text[a..k], i) <==> Site(text, a + i)
  {
    var u := text[a..k];
    ColonsIn(text, a, k, i);
    BlockedIn(text, a, k, i);
    assert u[i] == text[a + i];
    if i + 1 < k - a { assert u[i + 1] == text[a + i + 1]; }
    hide Colons;
  }

  lemma ShiftedMembers(places: seq<nat>, d: nat)
    ensures forall j: nat :: j in Shifted(places, d) <==> j >= d && j - d in places
  {
    forall j: nat ensures j in Shifted(places, d) <==> j >= d && j - d in places {
      if j >= d && j - d in places {
        var k :| 0 <= k < |places| && places[k] == j - d;
        assert Shifted(places, d)[k] == j;
      }
    }
  }

  lemma StretchPlaces(text: string, a: nat, k: nat, j: nat)
    requires Stretch(text, a, k)
    ensures j in Shifted(Places(text[a..k]), a) <==> a <= j < k && Site(text, j) && Open(text[a..k], j - a)
  {
    hide Site, Shifted, PlacesFrom, OpenFrom;
    var u := text[a..k];
    ShiftedMembers(Places(u), a);
    if a <= j {
      PlaceIsSite(u, j - a);
      if j < k { SiteIn(text, a, k, j - a); }
    }
  }

  lemma PlaceIsSite(text: string, j: nat)
    ensures j in Places(text) <==> Site(text, j) && Open(text, j)
    ensures Open(text, j) ==> j < |text|
  {
    hide Site, PlacesFrom, Rising;
    PlacesAreSites(text, 0);
    if Open(text, j) { OpenBehind(text, 0, j); }
  }

  lemma {:induction false} ShiftRises(places: seq<nat>, from: nat, d: nat)
    requires Rising(places, from)
    ensures Rising(Shifted(places, d), from + d)
  {
    if places != [] {
      ShiftRises(places[1..], places[0] + 1, d);
      assert Shifted(places, d)[1..] == Shifted(places[1..], d);
    }
  }

  lemma ShiftedRises(text: string, a: nat, k: nat)
    requires a <= k <= |text|
    ensures Rising(Shifted(Places(text[a..k]), a), a)
    ensures forall j: nat :: j in Shifted(Places(text[a..k]), a) ==> j < k
  {
    var u := text[a..k];
    PlacesAreSites(u, 0);
    ShiftedMembers(Places(u), a);
    ShiftRises(Places(u), 0, a);
    forall j: nat | j in Places(u) ensures j < |u| { OpenBehind(u, 0, j); }
  }

  lemma {:induction false} RisingAppend(xs: seq<nat>, ys: seq<nat>, from: nat, mid: nat)
    requires Rising(xs, from) && Rising(ys, mid) && from <= mid && forall j: nat :: j in xs ==> j < mid
    ensures Rising(xs + ys, from)
    decreases |xs|
  {
    if xs == [] {
      assert xs + ys == ys;
    } else {
      assert xs[0] in xs;
      forall j: nat | j in xs[1..] ensures j < mid {
        assert xs == [xs[0]] + xs[1..];
        assert j in xs;
      }
      RisingAppend(xs[1..], ys, xs[0] + 1, mid);
      assert (xs + ys)[1..] == xs[1..] + ys;
    }
  }

  lemma SplitPlacesUnfold(text: string, a: nat)
    requires a <= |text|
    ensures var k := a + FirstSemicolon(text[a..]);
      && a <= k <= |text|
      && SplitPlacesFrom(text, a)
         == Shifted(Places(text[a..k]), a) + (if k < |text| then SplitPlacesFrom(text, k + 1) else [])
      && forall j: nat :: SplitOpenFrom(text, a, j)
           <==> if a <= j < k then Open(text[a..k], j - a) else k < j && k < |text| && SplitOpenFrom(text, k + 1, j)
  {
    hide FirstSemicolon, Places, Open, Shifted;
  }

  lemma SeparatorStretch(text: string, a: nat)
    requires a <= |text| && (a > 0 ==> text[a - 1] == ';')
    ensures Stretch(text, a, a + FirstSemicolon(text[a..]))
  {
    hide FirstSemicolon;
    var k := a + FirstSemicolon(text[a..]);
    if k < |text| { assert text[a..][k - a] == text[k]; }
  }

  /** What scanning statement by statement finds is exactly the sites it does not mask. */
  lemma {:induction false} SplitPlacesAreSites(text: string, a: nat)
    requires a <= |text| && (a > 0 ==> text[a - 1] == ';')
    ensures Rising(SplitPlacesFrom(text, a), a)
    ensures forall j: nat :: j in SplitPlacesFrom(text, a) <==> Site(text, j) && SplitOpenFrom(text, a, j)
    decreases |text| - a
  {
    hide Site, Open, Places, FirstSemicolon, Rising, SplitPlacesFrom, SplitOpenFrom, Shifted;
    var k := a + FirstSemicolon(text[a..]);
    SplitPlacesUnfold(text, a);
    SeparatorStretch(text, a);
    ShiftedRises(text, a, k);
    var here := Shifted(Places(text[a..k]), a);
    if k < |text| {
      var next := k + 1;
      SplitPlacesAreSites(text, next);
      RisingAppend(here, SplitPlacesFrom(text, next), a, next);
      forall j: nat ensures j in SplitPlacesFrom(text, a) <==> Site(text, j) && SplitOpenFrom(text, a, j) {
        StretchPlaces(text, a, k, j);
        if SplitOpenFrom(text, next, j) { SplitOpenBehind(text, next, j); }
      }
    } else {
      NothingMore(here);
      forall j: nat ensures j in SplitPlacesFrom(text, a) <==> Site(text, j) && SplitOpenFrom(text, a, j) {
        StretchPlaces(text, a, k, j);
      }
    }
  }

  lemma NothingMore(xs: seq<nat>)
    ensures xs + [] == xs
  {
  }

  lemma {:induction false} SplitOpenBehind(text: string, a: nat, j: nat)
    requires a <= |text| && SplitOpenFrom(text, a, j)
    ensures a <= j
    decreases |text| - a
  {
    hide FirstSemicolon, Open;
    var k := a + FirstSemicolon(text[a..]);
    if !(a <= j < k) { SplitOpenBehind(text, k + 1, j); }
  }

  /** The two scanners find the same occurrences if and only if they mask the same sites: no place where a
      bind could start is inside a string, comment or quoted identifier for the one and not for the other. */
  lemma SamePlaces(text: string)
    ensures Places(text) == SplitPlaces(text)
       <==> forall j: nat :: Site(text, j) ==> (Open(text, j) <==> SplitOpen(text, j))
  {
    hide Site, OpenFrom, SplitOpenFrom, PlacesFrom, SplitPlacesFrom, Rising;
    PlacesAreSites(text, 0);
    SplitPlacesAreSites(text, 0);
    RisingEqual(Places(text), SplitPlaces(text), 0);
    if Places(text) == SplitPlaces(text) {
      forall j: nat | Site(text, j) ensures Open(text, j) <==> SplitOpen(text, j) {
        assert j in Places(text) <==> j in SplitPlaces(text);
      }
    } else {
      var j: nat :| !(j in Places(text) <==> j in SplitPlaces(text));
      assert Site(text, j);
    }
  }

  // ---------------------------------------------------------------------
  // Places and names
  // ---------------------------------------------------------------------

  lemma LabelsAppend(text: string, xs: seq<nat>, ys: seq<nat>)
    ensures Labels(text, xs + ys) == Labels(text, xs) + Labels(text, ys)
  {
    hide Label;
  }

  /** The names a scan finds are those at its places. */
  lemma {:induction false} NamesAreLabels(text: string, i: nat)
    requires i <= |text|
    ensures NamesAt(text, i) == Labels(text, PlacesFrom(text, i))
    decreases |text| - i
  {
    hide Names, StepLength, StepNames, Labels, NamesAt, PlacesFrom;
    if i == |text| {
      NothingAtEnd(text);
    } else {
      var b, s := BlockedAt(text, i), text[i..];
      var n := StepLength(b, s);
      NamesAtStep(text, i);
      NamesAreLabels(text, i + n);
      LabelsAppend(text, if StepNames(b, s) != [] then [i] else [], PlacesFrom(text, i + n));
    }
  }

  lemma NothingAtEnd(text: string)
    ensures NamesAt(text, |text|) == [] && Labels(text, PlacesFrom(text, |text|)) == []
  {
    assert text[|text|..] == [];
    NoNamesBlocked(BlockedAt(text, |text|));
  }

  /** One step of the scan, with the names and the places it adds. */
  lemma NamesAtStep(text: string, i: nat)
    requires i < |text|
    ensures var b, s := BlockedAt(text, i), text[i..];
      var n := StepLength(b, s);
      var here := if StepNames(b, s) != [] then [i] else [];
      && PlacesFrom(text, i) == here + PlacesFrom(text, i + n)
      && NamesAt(text, i) == Labels(text, here) + NamesAt(text, i + n)
  {
    hide Names, StepLength, StepNames, Label, PlacesFrom;
    var b, s := BlockedAt(text, i), text[i..];
    var n := StepLength(b, s);
    PlacesUnfold(text, i);
    NamesStep(b, s);
    assert s[n..] == text[i + n..] && s[n - 1] == text[i + n - 1];
    StepLabel(text, i);
    OneLabel(text, i);
  }

  lemma PlacesUnfold(text: string, i: nat)
    requires i < |text|
    ensures var b, s := BlockedAt(text, i), text[i..];
      PlacesFrom(text, i) == (if StepNames(b, s) != [] then [i] else []) + PlacesFrom(text, i + StepLength(b, s))
  {
    hide StepLength, StepNames;
  }

  lemma OneLabel(text: string, i: nat)
    requires i < |text|
    ensures Labels(text, [i]) == [Label(text, i)] && Labels(text, []) == []
  {
    hide Label;
  }

  lemma NoNamesBlocked(blocked: bool)
    ensures Names(blocked, []) == []
  {
  }

  lemma StepLabel(text: string, i: nat)
    requires i < |text|
    ensures var names := StepNames(BlockedAt(text, i), text[i..]);
      names == if names != [] then [Label(text, i)] else []
  {
    hide BindLength, Upper, Masked;
    var s := text[i..];
    var n := BindLength(BlockedAt(text, i), s);
    if n > 0 { assert s[1..n] == text[i + 1..i + n]; }
  }

  lemma SliceIn(text: string, a: nat, k: nat, x: nat, y: nat)
    requires a <= k <= |text| && x <= y <= k - a
    ensures text[a..k][x..y] == text[a + x..a + y]
  {
    var t := text[a..k][x..y];
    assert |t| == y - x && forall i :: 0 <= i < y - x ==> t[i] == text[a + x + i];
  }

  /** A bind has the same name in its stretch and in the text. */
  lemma LabelIn(text: string, a: nat, k: nat, i: nat)
    requires Stretch(text, a, k) && i < k - a
    ensures Label(text[a..k], i) == Label(text, a + i)
  {
    hide BindLength, Upper;
    var u := text[a..k];
    BlockedIn(text, a, k, i);
    var b, s, m := BlockedAt(u, i), text[a + i..], k - a - i;
    assert u[i..] == s[..m];
    if m < |s| { assert s[m] == text[k]; }
    BindCut(b, s, m);
    var n := BindLength(b, s);
    if n > 0 { SliceIn(text, a, k, i + 1, i + n); }
  }

  lemma LabelsIn(text: string, a: nat, k: nat, places: seq<nat>)
    requires Stretch(text, a, k) && forall x :: 0 <= x < |places| ==> places[x] < k - a
    ensures Labels(text[a..k], places) == Labels(text, Shifted(places, a))
  {
    hide Label;
    forall x | 0 <= x < |places| ensures Label(text[a..k], places[x]) == Label(text, places[x] + a) {
      LabelIn(text, a, k, places[x]);
    }
  }

  lemma PlacesBelow(text: string)
    ensures forall x :: 0 <= x < |Places(text)| ==> Places(text)[x] < |text|
  {
    PlacesAreSites(text, 0);
    forall x | 0 <= x < |Places(text)| ensures Places(text)[x] < |text| {
      assert Places(text)[x] in Places(text);
      OpenBehind(text, 0, Places(text)[x]);
    }
  }

  /** The names found statement by statement are those at the places of the split scan. */
  lemma {:induction false} SplitNamesAreLabels(text: string, a: nat)
    requires a <= |text| && (a > 0 ==> text[a - 1] == ';')
    ensures AllNames(Split(text[a..])) == Labels(text, SplitPlacesFrom(text, a))
    decreases |text| - a
  {
    hide Split, Names, FirstSemicolon, Strip, AllNames, Labels, Places, SplitPlacesFrom, Shifted, Statement;
    var k := a + FirstSemicolon(text[a..]);
    var u := text[a..k];
    SplitPlacesUnfold(text, a);
    SeparatorStretch(text, a);
    StatementNames(text, a);
    PlacesBelow(u);
    assert |u| == k - a;
    LabelsIn(text, a, k, Places(u));
    if k < |text| {
      SplitNamesAreLabels(text, k + 1);
      LabelsAppend(text, Shifted(Places(u), a), SplitPlacesFrom(text, k + 1));
    } else {
      NothingMore(Shifted(Places(u), a));
    }
  }

  /** The names of a text behind a separator are those of its first stretch and those of the rest. */
  lemma StatementNames(text: string, a: nat)
    requires a <= |text|
    ensures var k := a + FirstSemicolon(text[a..]);
      var u := text[a..k];
      AllNames(Split(text[a..])) == Labels(u, Places(u)) + if k < |text| then AllNames(Split(text[k + 1..])) else []
  {
    hide Split, Names, FirstSemicolon, Strip, AllNames, Labels, Places, Statement;
    var s := text[a..];
    var k := a + FirstSemicolon(s);
    var u := text[a..k];
    assert s[..k - a] == u;
    SplitUnfold(s);
    NamesStrip(u);
    NamesOfText(u);
    if k < |text| {
      assert s[k - a + 1..] == text[k + 1..];
      AllNamesStep(u, Split(text[k + 1..]));
    } else {
      assert Statement(u) + [] == Statement(u);
      AllNamesStep(u, []);
      assert FindNames(u) + [] == FindNames(u);
    }
  }

  lemma NamesOfText(text: string)
    ensures FindNames(text) == Labels(text, Places(text))
  {
    hide Names, Labels, PlacesFrom;
    NamesAreLabels(text, 0);
    assert text[0..] == text;
  }

  /** The bind scanner on a whole text and on its statements: each finds the names at its places, and these
      are the same places if and only if both mask the same sites. Then the names are the same as well. */
  lemma ScannersAgreeExactly(text: string)
    ensures FindNames(text) == Labels(text, Places(text))
    ensures AllNames(Split(text)) == Labels(text, SplitPlaces(text))
    ensures Places(text) == SplitPlaces(text)
       <==> forall j: nat :: Site(text, j) ==> (Open(text, j) <==> SplitOpen(text, j))
  {
    hide Names, Labels, Places, SplitPlaces, Site, Open, SplitOpen, Split, AllNames;
    NamesOfText(text);
    SplitNamesOfText(text);
    SamePlaces(text);
  }

  lemma SplitNamesOfText(text: string)
    ensures AllNames(Split(text)) == Labels(text, SplitPlaces(text))
  {
    hide Labels, SplitPlacesFrom, Split, AllNames;
    SplitNamesAreLabels(text, 0);
    assert text[0..] == text;
  }
}
