/** What the scanners promise: splitting is stable and lossless, bind names survive it, substitution
    is idempotent and matches the bind scanner exactly where nothing is masked. */
module ScannerLaws {
  import opened Basics
  import opened Text
  import opened Scanner

  // ---------------------------------------------------------------------
  // Cutting a text short
  // ---------------------------------------------------------------------

  lemma {:induction false} StringTailCut(s: string, m: nat)
    requires m <= |s|
    ensures StringTail(s[..m]) == Min(m, StringTail(s))
  {
    if m > 0 {
      if s[0] != '\'' {
        assert s[..m][1..] == s[1..][..m - 1];
        StringTailCut(s[1..], m - 1);
      } else if |s| > 1 && s[1] == '\'' && m > 1 {
        assert s[..m][2..] == s[2..][..m - 2];
        StringTailCut(s[2..], m - 2);
      }
    }
  }

  lemma {:induction false} BlockEndCut(s: string, m: nat)
    requires m <= |s|
    ensures BlockEnd(s[..m]) == Min(m, BlockEnd(s))
  {
    if m > 1 && !(s[0] == '*' && s[1] == '/') {
      assert s[..m][1..] == s[1..][..m - 1];
      BlockEndCut(s[1..], m - 1);
    }
  }

  lemma {:induction false} LineEndCut(s: string, m: nat)
    requires m <= |s|
    ensures LineEnd(s[..m]) == Min(m, LineEnd(s))
  {
    if m > 0 && s[0] != '\n' {
      assert s[..m][1..] == s[1..][..m - 1];
      LineEndCut(s[1..], m - 1);
    }
  }

  /** The next character, if any, does not complete a comment opener. */
  predicate CleanCut(s: string, m: nat)
    requires m <= |s|
  {
    m < |s| ==> s[m] != '-' && s[m] != '*'
  }

  lemma OpaqueCut(s: string, m: nat)
    requires 1 <= m <= |s| && CleanCut(s, m)
    ensures Opaque(s[..m]) == Min(m, Opaque(s))
  {
    assert s[..m][1..] == s[1..][..m - 1];
    StringTailCut(s[1..], m - 1);
    BlockEndCut(s, m);
    LineEndCut(s, m);
  }

  lemma NothingToScan(s: string)
    requires s == []
    ensures FirstSemicolon(s) == 0
  {
  }

  lemma {:induction false} SemicolonCut(s: string, m: nat)
    requires m <= |s| && CleanCut(s, m)
    ensures FirstSemicolon(s[..m]) == Min(m, FirstSemicolon(s))
    decreases |s|
  {
    hide Opaque, FirstSemicolon;
    if m == 0 {
      NothingToScan(s[..m]);
    } else {
      SemicolonUnfold(s); SemicolonUnfold(s[..m]);
      OpaqueCut(s, m);
      var t := Opaque(s);
      if t >= m && t > 0 {
        NothingToScan(s[..m][m..]);
      } else if t > 0 {
        assert s[..m][t..] == s[t..][..m - t];
        SemicolonCut(s[t..], m - t);
      } else if s[0] != ';' {
        assert s[..m][1..] == s[1..][..m - 1];
        SemicolonCut(s[1..], m - 1);
      }
    }
  }

  // ---------------------------------------------------------------------
  // Closing a statement with a newline and a semicolon
  // ---------------------------------------------------------------------

  lemma TailUnfold(s: string)
    ensures StringTail(s) ==
      if s == [] then 0
      else if s[0] != '\'' then 1 + StringTail(s[1..])
      else if |s| > 1 && s[1] == '\'' then 2 + StringTail(s[2..])
      else 1
  {
  }

  lemma {:induction false} StringTailClosed(a: string, z: string)
    requires StringTail(a) < |a| && (z != [] ==> z[0] != '\'')
    ensures StringTail(a[..StringTail(a)] + z) == StringTail(a)
    ensures StringTail(a) > 0 && a[StringTail(a) - 1] == '\''
  {
    hide StringTail;
    var n := StringTail(a);
    var b := a[..n] + z;
    TailUnfold(a); TailUnfold(b);
    if a[0] != '\'' {
      StringTailClosed(a[1..], z);
      assert b[1..] == a[1..][..n - 1] + z;
    } else if a[1] == '\'' {
      StringTailClosed(a[2..], z);
      assert b[2..] == a[2..][..n - 2] + z;
    } else {
      assert b == [a[0]] + z;
    }
  }

  lemma {:induction false} BlockEndClosed(a: string, z: string)
    requires BlockEnd(a) < |a|
    ensures BlockEnd(a[..BlockEnd(a)] + z) == BlockEnd(a)
    ensures BlockEnd(a) > 0 && a[BlockEnd(a) - 1] == '/'
  {
    var n := BlockEnd(a);
    var b := a[..n] + z;
    if !(a[0] == '*' && a[1] == '/') {
      BlockEndClosed(a[1..], z);
      assert b[1..] == a[1..][..n - 1] + z;
    }
  }

  lemma {:induction false} LineEndNewline(s: string, m: nat, z: string)
    requires m <= LineEnd(s) && z != [] && z[0] == '\n'
    ensures LineEnd(s[..m] + z) == m
  {
    if m == 0 {
      assert s[..0] + z == z;
    } else {
      assert (s[..m] + z)[1..] == s[1..][..m - 1] + z;
      LineEndNewline(s[1..], m - 1, z);
    }
  }

  lemma BlankEnds(s: string, m: nat, t: nat)
    requires m < t <= |s| && Blank(s[m..t])
    ensures IsSpace(s[m]) && IsSpace(s[t - 1])
  {
    assert s[m..t][0] == s[m] && s[m..t][t - m - 1] == s[t - 1];
  }

  /** A closed string literal ends in a quote, so no blanks were trimmed off it. */
  lemma StringClosed(s: string, m: nat, z: string)
    requires StartsString(s) && 2 <= m <= Opaque(s) < |s| && Blank(s[m..Opaque(s)]) && (z != [] ==> z[0] != '\'')
    ensures m == Opaque(s) && Opaque(s[..m] + z) == m
  {
    hide StringTail, BlockEnd, LineEnd;
    var t := Opaque(s);
    var a, y := s[1..], s[..t] + z;
    StringTailClosed(a, z);
    assert a[t - 2] == s[t - 1];
    if m < t { BlankEnds(s, m, t); }
    assert a[..t - 1] == s[1..t];
    assert y[1..] == s[1..t] + z;
    assert StartsString(y);
  }

  /** A region that reaches the trimmed end of its statement still ends there when a newline follows. */
  lemma OpaqueClosed(s: string, m: nat, z: string)
    requires 2 <= m <= Opaque(s) < |s| && Blank(s[m..Opaque(s)]) && z != [] && z[0] == '\n'
    ensures Opaque(s[..m] + z) == m
  {
    if StartsString(s) {
      StringClosed(s, m, z);
    } else {
      CommentClosed(s, m, z);
    }
  }

  lemma CommentClosed(s: string, m: nat, z: string)
    requires !StartsString(s) && 2 <= m <= Opaque(s) < |s| && Blank(s[m..Opaque(s)]) && z != [] && z[0] == '\n'
    ensures Opaque(s[..m] + z) == m
  {
    hide StringTail, BlockEnd, LineEnd;
    var y, t := s[..m] + z, Opaque(s);
    assert y[0] == s[0] && y[1] == s[1];
    if StartsLine(s) {
      LineEndNewline(s, m, z);
    } else {
      BlockEndClosed(s, z);
      if m < t { BlankEnds(s, m, t); }
    }
  }

  lemma SpaceIsPlain(s: string)
    requires s != [] && IsSpace(s[0])
    ensures Opaque(s) == 0 && s[0] != ';' && FirstSemicolon(s) == 1 + FirstSemicolon(s[1..])
  {
  }

  lemma BlankIsClean(s: string, m: nat, k: nat)
    requires m <= k < |s| && Blank(s[m..k]) && s[k] == ';'
    ensures CleanCut(s, m)
  {
    if m < k { assert s[m] == s[m..k][0]; }
  }

  /** Up to the cut, s and any text that agrees with it there scan alike. */
  lemma SameScan(s: string, m: nat, z: string)
    requires 0 < m <= |s| && CleanCut(s, m) && z != [] && z[0] == '\n'
    ensures Min(m, Opaque(s[..m] + z)) == Min(m, Opaque(s))
  {
    var y := s[..m] + z;
    OpaqueCut(s, m); OpaqueCut(y, m);
    assert y[..m] == s[..m];
  }

  lemma DropBoth(s: string, m: nat, t: nat, z: string)
    requires t <= m <= |s|
    ensures (s[..m] + z)[t..] == s[t..][..m - t] + z
  {
    assert s[..m][t..] == s[t..][..m - t];
  }

  lemma TailSlice(s: string, n: nat, m: nat, k: nat)
    requires n <= m <= k <= |s|
    ensures s[n..][m - n..k - n] == s[m..k]
  {
    var t := s[n..][m - n..k - n];
    assert |t| == k - m && forall i :: 0 <= i < k - m ==> t[i] == s[m + i];
  }

  lemma NewlineSemicolon(r: string)
    ensures FirstSemicolon("\n;" + r) == 1
  {
    var z := "\n;" + r;
    SpaceIsPlain(z);
    assert z[1..] == ";" + r;
    SemicolonFirst(r);
  }

  /** The statement s[..m], blanks up to its semicolon dropped, is closed again by newline and semicolon. */
  lemma {:induction false} StatementClosed(s: string, m: nat, r: string)
    requires m <= FirstSemicolon(s) < |s| && Blank(s[m..FirstSemicolon(s)])
    ensures FirstSemicolon(s[..m] + ("\n;" + r)) == m + 1
    decreases m
  {
    hide Opaque, Blank, FirstSemicolon;
    var k, z := FirstSemicolon(s), "\n;" + r;
    var y := s[..m] + z;
    NewlineSemicolon(r);
    if m == 0 {
      assert y == z;
    } else {
      SemicolonUnfold(s); SemicolonUnfold(y);
      BlankIsClean(s, m, k);
      SameScan(s, m, z);
      var t := Opaque(s);
      if t < m {
        var n := if t == 0 then 1 else t;
        DropBoth(s, m, n, z);
        assert FirstSemicolon(y) == n + FirstSemicolon(y[n..]);
        TailSlice(s, n, m, k);
        StatementClosed(s[n..], m - n, r);
      } else {
        RegionAtEnd(s, m, z);
        DropBoth(s, m, m, z);
        assert y[m..] == z;
      }
    }
  }

  lemma SemicolonFirst(r: string)
    ensures Opaque(";" + r) == 0 && FirstSemicolon(";" + r) == 0
  {
  }

  lemma OpenersAreLong(s: string)
    requires StartsLine(s) || StartsBlock(s)
    ensures Opaque(s) >= 2
  {
    if StartsLine(s) { assert LineEnd(s) == 1 + LineEnd(s[1..]); }
  }

  /** A region that ends before the text does shows a character that is not blank after its first. */
  lemma RegionShape(s: string)
    requires 1 <= Opaque(s) < |s|
    ensures Opaque(s) >= 2 && (!IsSpace(s[1]) || !IsSpace(s[Opaque(s) - 1]))
  {
    OpaquePositive(s);
    if StartsString(s) {
      StringTailClosed(s[1..], []);
    } else {
      OpenersAreLong(s);
    }
  }

  lemma RegionAtEnd(s: string, m: nat, z: string)
    requires 0 < m <= Opaque(s) && Opaque(s) <= FirstSemicolon(s) < |s| && Blank(s[m..FirstSemicolon(s)])
    requires z != [] && z[0] == '\n'
    ensures Opaque(s[..m] + z) == m
  {
    hide FirstSemicolon, Opaque, IsSpace;
    var t, k := Opaque(s), FirstSemicolon(s);
    assert Blank(s[m..t]) by { assert s[m..t] == s[m..k][..t - m]; }
    RegionShape(s);
    if m < t { BlankEnds(s, m, t); }
    assert m >= 2;
    OpaqueClosed(s, m, z);
  }

  // ---------------------------------------------------------------------
  // Stability
  // ---------------------------------------------------------------------

  function Join(stmts: seq<string>): string {
    if stmts == [] then []
    else if |stmts| == 1 then stmts[0]
    else stmts[0] + ("\n;" + Join(stmts[1..]))
  }

  /** A trimmed, non-empty statement with no semicolon of its own. */
  predicate Whole(x: string) {
    x != [] && !IsSpace(x[0]) && !IsSpace(x[|x| - 1]) && FirstSemicolon(x) == |x|
  }

  lemma {:induction false} LeadingBlanks(s: string, n: nat)
    requires n <= |s| && Blank(s[..n])
    ensures FirstSemicolon(s) == n + FirstSemicolon(s[n..])
  {
    hide FirstSemicolon, Opaque, IsSpace;
    if n == 0 {
      assert s[0..] == s;
    } else {
      assert s[0] == s[..n][0];
      SpaceIsPlain(s);
      assert s[1..][..n - 1] == s[..n][1..];
      assert s[1..][n - 1..] == s[n..];
      LeadingBlanks(s[1..], n - 1);
    }
  }

  lemma StripWhole(x: string)
    requires x != [] && !IsSpace(x[0]) && !IsSpace(x[|x| - 1])
    ensures Strip(x) == x && Strip(x + "\n") == x
  {
    var y := x + "\n";
    assert LStrip(x) == x && LStrip(y) == y;
    assert y[..|y| - 1] == x;
    assert RStrip(x) == x;
  }

  /** The first statement of s, if not blank, is whole; and it is closed by newline and semicolon when
      a semicolon closed it in s. */
  lemma FirstStatement(s: string)
    requires Strip(s[..FirstSemicolon(s)]) != []
    ensures var x := Strip(s[..FirstSemicolon(s)]);
      && Whole(x)
      && (FirstSemicolon(s) < |s| ==> forall r :: FirstSemicolon(x + ("\n;" + r)) == |x| + 1)
  {
    hide FirstSemicolon, Strip, Opaque;
    var k := FirstSemicolon(s);
    var u := s[..k];
    var n, m := StripShape(u);
    var s1 := s[n..];
    assert u[..n] == s[..n];
    LeadingBlanks(s, n);
    assert s1[..m] == u[n..n + m];
    assert s1[m..k - n] == u[n + m..];
    assert CleanCut(s1, m) by { if n + m < k { assert s1[m] == u[n + m..][0]; } }
    SemicolonCut(s1, m);
    if k < |s| {
      forall r ensures FirstSemicolon(s1[..m] + ("\n;" + r)) == m + 1 {
        StatementClosed(s1, m, r);
      }
    }
  }

  lemma SplitWhole(x: string)
    requires Whole(x)
    ensures Split(x) == [x]
  {
    StripWhole(x);
    assert [] + x == x;
  }

  lemma SplitClosed(x: string, r: string)
    requires Whole(x) && FirstSemicolon(x + ("\n;" + r)) == |x| + 1
    ensures Split(x + ("\n;" + r)) == [x] + Split(r)
  {
    var y := x + ("\n;" + r);
    StripWhole(x);
    assert [] + y[..|x| + 1] == x + "\n";
    assert y[|x| + 2..] == r;
  }

  lemma SplitUnfold(s: string)
    ensures var k := FirstSemicolon(s);
      Split(s) == Statement(s[..k]) + if k < |s| then Split(s[k + 1..]) else []
  {
    hide FirstSemicolon, Statement;
    var k := FirstSemicolon(s);
    NothingBefore(s[..k]);
    if k == |s| { assert s[..k] == s; }
  }

  /** Splitting is stable: joining the statements back, each closed by a newline and a semicolon, and
      splitting again gives the same statements. */
  lemma {:induction false} SplitStable(s: string)
    ensures Split(Join(Split(s))) == Split(s)
    decreases |s|
  {
    hide Split, Whole;
    var k := FirstSemicolon(s);
    var x := Strip(s[..k]);
    SplitUnfold(s);
    var rest := if k < |s| then Split(s[k + 1..]) else [];
    if k < |s| { SplitStable(s[k + 1..]); }
    if x != [] {
      FirstStatement(s);
      if rest == [] {
        SplitWhole(x);
        assert [x] + rest == [x];
      } else {
        assert ([x] + rest)[1..] == rest;
        SplitClosed(x, Join(rest));
      }
    } else {
      assert [] + rest == rest;
      SplitEmpty();
    }
  }

  lemma SplitEmpty()
    ensures Split([]) == []
  {
  }

  // ---------------------------------------------------------------------
  // Nothing is lost
  // ---------------------------------------------------------------------

  function NonSpace(s: string): string {
    if s == [] then []
    else if IsSpace(s[0]) then NonSpace(s[1..])
    else [s[0]] + NonSpace(s[1..])
  }

  /** The text without the semicolons that separate statements. */
  function WithoutSeparators(s: string): string
    decreases |s|
  {
    var k := FirstSemicolon(s);
    if k == |s| then s else s[..k] + WithoutSeparators(s[k + 1..])
  }

  lemma {:induction false} NonSpaceAppend(x: string, y: string)
    ensures NonSpace(x + y) == NonSpace(x) + NonSpace(y)
  {
    if x == [] {
      assert x + y == y;
    } else {
      assert (x + y)[1..] == x[1..] + y;
      NonSpaceAppend(x[1..], y);
    }
  }

  lemma {:induction false} NonSpaceBlank(x: string)
    requires Blank(x)
    ensures NonSpace(x) == []
  {
    if x != [] { NonSpaceBlank(x[1..]); }
  }

  lemma NonSpaceStrip(u: string)
    ensures NonSpace(Strip(u)) == NonSpace(u)
  {
    var n, m := StripShape(u);
    assert u == u[..n] + (u[n..n + m] + u[n + m..]);
    NonSpaceAppend(u[..n], u[n..n + m] + u[n + m..]);
    NonSpaceAppend(u[n..n + m], u[n + m..]);
    NonSpaceBlank(u[..n]); NonSpaceBlank(u[n + m..]);
  }

  /** Splitting is lossless: in order, the statements hold every character of the text that is neither
      blank nor a separating semicolon. */
  lemma {:induction false} SplitLossless(s: string)
    ensures NonSpace(Flatten(Split(s))) == NonSpace(WithoutSeparators(s))
    decreases |s|
  {
    hide Split;
    var k := FirstSemicolon(s);
    SplitUnfold(s);
    NonSpaceStrip(s[..k]);
    var rest := if k < |s| then Split(s[k + 1..]) else [];
    FlattenAppend(Statement(s[..k]), rest);
    assert Flatten(Statement(s[..k])) == Strip(s[..k]) by { FlattenOne(Strip(s[..k])); }
    if k < |s| {
      SplitLossless(s[k + 1..]);
      NonSpaceAppend(Strip(s[..k]), Flatten(rest));
      NonSpaceAppend(s[..k], WithoutSeparators(s[k + 1..]));
    } else {
      assert s[..k] == s && Strip(s[..k]) + [] == Strip(s[..k]);
    }
  }

  lemma FlattenOne(x: string)
    ensures Flatten(if x == [] then [] else [x]) == x
  {
    assert [x][1..] == [];
    assert x + [] == x;
  }

  /** Every statement is trimmed, not empty, and has no separating semicolon left. */
  lemma {:induction false} SplitAllWhole(s: string)
    ensures forall i :: 0 <= i < |Split(s)| ==> Whole(Split(s)[i])
    decreases |s|
  {
    hide Split, Whole, FirstSemicolon, Strip;
    var k := FirstSemicolon(s);
    SplitUnfold(s);
    if Strip(s[..k]) != [] { FirstStatement(s); }
    if k < |s| { SplitAllWhole(s[k + 1..]); }
  }

  // ---------------------------------------------------------------------
  // The two scanners agree
  // ---------------------------------------------------------------------

  predicate PlainChar(c: char) { c != '\'' && c != '-' && c != '/' && c != ';' }

  /** No quoted identifier of s holds a quote, dash, slash or semicolon. */
  predicate QuotesPlain(s: string)
    decreases |s|
  {
    s == [] ||
    var n := if Masked(s) > 0 then Masked(s) else 1;
    && (StartsQuoted(s) ==> forall i :: 0 <= i < n ==> PlainChar(s[i]))
    && QuotesPlain(s[n..])
  }

  /** Texts without double quotes and backticks have no quoted identifiers. */
  lemma {:induction false} UnquotedIsPlain(s: string)
    requires forall i :: 0 <= i < |s| ==> s[i] != '"' && s[i] != '`'
    ensures QuotesPlain(s)
    decreases |s|
  {
    hide Opaque;
    if s != [] { UnquotedIsPlain(s[if Masked(s) > 0 then Masked(s) else 1..]); }
  }

  lemma {:induction false} QuotedTailCut(q: char, s: string, m: nat)
    requires m <= |s|
    ensures QuotedTail(q, s[..m]) == Min(m, QuotedTail(q, s))
  {
    if m > 0 && s[0] != q {
      assert s[..m][1..] == s[1..][..m - 1];
      QuotedTailCut(q, s[1..], m - 1);
    }
  }

  lemma MaskedCut(s: string, m: nat)
    requires 1 <= m <= |s| && CleanCut(s, m)
    ensures Masked(s[..m]) == Min(m, Masked(s))
  {
    hide Opaque;
    OpaqueCut(s, m);
    assert s[..m][1..] == s[1..][..m - 1];
    QuotedTailCut(s[0], s[1..], m - 1);
  }

  lemma {:induction false} NameRunCut(s: string, m: nat)
    requires m <= |s|
    ensures NameRun(s[..m]) == Min(m, NameRun(s))
  {
    if m > 0 && NameChar(s[0]) {
      assert s[..m][1..] == s[1..][..m - 1];
      NameRunCut(s[1..], m - 1);
    }
  }

  lemma {:induction false} DigitRunCut(s: string, m: nat)
    requires m <= |s|
    ensures DigitRun(s[..m]) == Min(m, DigitRun(s))
  {
    if m > 0 && IsDigit(s[0]) {
      assert s[..m][1..] == s[1..][..m - 1];
      DigitRunCut(s[1..], m - 1);
    }
  }

  lemma {:induction false} NameRunChars(s: string)
    ensures forall i :: 0 <= i < NameRun(s) ==> NameChar(s[i])
    ensures DigitRun(s) <= NameRun(s)
  {
    if s != [] && NameChar(s[0]) { NameRunChars(s[1..]); }
  }

  /** The characters of a bind after its colon are name characters. */
  lemma BindChars(blocked: bool, s: string)
    ensures forall i :: 1 <= i < BindLength(blocked, s) ==> NameChar(s[i])
    ensures BindLength(blocked, s) > 0 ==> s[0] == ':'
  {
    if |s| >= 2 {
      NameRunChars(s[1..]);
      assert forall i :: 1 <= i < 1 + NameRun(s[1..]) ==> s[i] == s[1..][i - 1];
    }
  }

  /** A bind does not reach over a cut in front of a character no name can hold. */
  lemma BindCut(blocked: bool, s: string, m: nat)
    requires 1 <= m <= |s| && (m < |s| ==> !NameChar(s[m]))
    ensures BindLength(blocked, s) <= m
    ensures BindLength(blocked, s[..m]) == BindLength(blocked, s)
  {
    BindChars(blocked, s);
    if m > 1 {
      assert s[..m][1..] == s[1..][..m - 1];
      NameRunCut(s[1..], m - 1); DigitRunCut(s[1..], m - 1);
    }
  }

  predicate ColonPair(s: string) { |s| > 1 && s[0] == ':' && s[1] == ':' }

  /** How far one step of the bind scanner goes. */
  function StepLength(blocked: bool, s: string): (n: nat)
    requires s != []
    ensures 1 <= n <= |s|
  {
    if Masked(s) > 0 then Masked(s)
    else if ColonPair(s) then 2
    else if BindLength(blocked, s) > 0 then BindLength(blocked, s)
    else 1
  }

  /** The name that step finds, if any. */
  function StepNames(blocked: bool, s: string): seq<string>
    requires s != []
  {
    if Masked(s) == 0 && !ColonPair(s) && BindLength(blocked, s) > 0 then [Upper(s[1..BindLength(blocked, s)])] else []
  }

  lemma NamesUnfold(blocked: bool, s: string)
    requires s != []
    ensures var n := BindLength(blocked, s);
      Names(blocked, s) ==
        if Masked(s) > 0 then Names(Blocks(s[Masked(s) - 1]), s[Masked(s)..])
        else if ColonPair(s) then Names(true, s[2..])
        else if n > 0 then [Upper(s[1..n])] + Names(Blocks(s[n - 1]), s[n..])
        else Names(Blocks(s[0]), s[1..])
  {
    hide Masked, Opaque, BindLength, Upper, Blocks;
  }

  lemma NamesStep(blocked: bool, s: string)
    requires s != []
    ensures var n := StepLength(blocked, s);
      Names(blocked, s) == StepNames(blocked, s) + Names(Blocks(s[n - 1]), s[n..])
  {
    hide Masked, BindLength, Upper, IsWord, Names;
    NamesUnfold(blocked, s);
    var n := StepLength(blocked, s);
    NothingBefore(Names(Blocks(s[n - 1]), s[n..]));
  }

  /** A cut in front of a character that no name, pair or comment opener can hold shortens a step, and
      does no more. */
  lemma StepCut(blocked: bool, s: string, m: nat)
    requires 1 <= m < |s| && CleanCut(s, m) && !NameChar(s[m]) && s[m] != ':'
    ensures StepLength(blocked, s[..m]) == Min(m, StepLength(blocked, s))
    ensures StepNames(blocked, s[..m]) == StepNames(blocked, s)
  {
    hide Opaque, Masked, BindLength, Upper;
    var x := s[..m];
    MaskedCut(s, m);
    BindCut(blocked, s, m);
    var n := BindLength(blocked, s);
    if n > 0 { assert s[1..n] == x[1..n]; }
  }

  lemma NamesSpace(blocked: bool, s: string)
    requires s != [] && IsSpace(s[0])
    ensures Names(blocked, s) == Names(false, s[1..])
  {
    assert BindLength(blocked, s) == 0 && Masked(s) == 0;
    hide BindLength, Masked;
  }

  lemma {:induction false} NamesBlank(blocked: bool, s: string)
    requires Blank(s)
    ensures Names(blocked, s) == []
    decreases |s|
  {
    if s != [] {
      hide Names;
      NamesSpace(blocked, s);
      NamesBlank(false, s[1..]);
    }
  }

  /** Leading blanks hold no names, and a name after them is not blocked. */
  lemma {:induction false} NamesLead(s: string, n: nat)
    requires n <= |s| && Blank(s[..n])
    ensures Names(false, s) == Names(false, s[n..])
  {
    hide Names, IsSpace;
    if n == 0 {
      assert s[0..] == s;
    } else {
      assert IsSpace(s[..n][0]);
      NamesSpace(false, s);
      assert s[1..][..n - 1] == s[..n][1..];
      assert s[1..][n - 1..] == s[n..];
      NamesLead(s[1..], n - 1);
    }
  }

  /** Trailing blanks can be cut off, even out of a comment. */
  lemma {:induction false} NamesTrail(blocked: bool, s: string, m: nat)
    requires m <= |s| && Blank(s[m..])
    ensures Names(blocked, s[..m]) == Names(blocked, s)
    decreases |s|
  {
    hide StepLength, StepNames, Names, NameChar, Blank, Blocks;
    BlankTail(s, m, |s|);
    if m == 0 {
      assert s[0..] == s && s[..0] == [];
      NamesBlank(blocked, s); NamesBlank(blocked, []);
    } else if m == |s| {
      assert s[..m] == s;
    } else {
      var x := s[..m];
      SpaceAt(s, m);
      StepCut(blocked, s, m);
      NamesStep(blocked, s); NamesStep(blocked, x);
      var t := StepLength(blocked, s);
      if t >= m {
        assert x[m..] == [];
        BlankTail(s, m, t);
        NamesBlank(Blocks(s[t - 1]), s[t..]);
        NamesBlank(Blocks(x[m - 1]), []);
      } else {
        TrailStep(s, m, t);
        NamesTrail(Blocks(s[t - 1]), s[t..], m - t);
      }
    }
  }

  lemma BlankTail(s: string, m: nat, t: nat)
    requires m <= t <= |s| && Blank(s[m..])
    ensures Blank(s[t..]) && Blank([])
  {
    assert s[t..] == s[m..][t - m..];
  }

  lemma SpaceAt(s: string, m: nat)
    requires m < |s| && Blank(s[m..])
    ensures CleanCut(s, m) && !NameChar(s[m]) && s[m] != ':'
  {
    assert IsSpace(s[m..][0]);
  }

  lemma TrailStep(s: string, m: nat, t: nat)
    requires t <= m <= |s| && Blank(s[m..])
    ensures s[..m][t..] == s[t..][..m - t] && Blank(s[t..][m - t..])
  {
    assert s[t..][m - t..] == s[m..];
  }

  /** A run without quotes, dashes, slashes or semicolons holds no separator. */
  lemma {:induction false} PlainRun(s: string, n: nat)
    requires n <= |s|
    requires forall i :: 0 <= i < n ==> PlainChar(s[i])
    ensures FirstSemicolon(s) == n + FirstSemicolon(s[n..])
  {
    if n == 0 {
      assert s[0..] == s;
    } else {
      assert s[1..][n - 1..] == s[n..];
      PlainRun(s[1..], n - 1);
    }
  }

  /** A step over more than one character outside the masked regions is over colons and a name. */
  lemma StepChars(blocked: bool, s: string)
    requires s != [] && Masked(s) == 0 && StepLength(blocked, s) > 1
    ensures forall i :: 0 <= i < StepLength(blocked, s) ==> NameChar(s[i]) || s[i] == ':'
  {
    hide Masked, BindLength, NameChar;
    BindChars(blocked, s);
  }

  /** No step of the bind scanner passes a separating semicolon. */
  lemma StepBeforeSemicolon(blocked: bool, s: string)
    requires s != [] && FirstSemicolon(s) > 0 && QuotesPlain(s)
    ensures var n := StepLength(blocked, s);
      FirstSemicolon(s) == n + FirstSemicolon(s[n..])
  {
    hide Opaque, BindLength, NameChar, QuotedTail;
    var n := StepLength(blocked, s);
    if StartsQuoted(s) {
      PlainRun(s, n);
    } else if Opaque(s) == 0 && n > 1 {
      hide PlainChar, StepLength;
      StepChars(blocked, s);
      NameCharsArePlain();
      PlainRun(s, n);
    }
  }

  lemma NameCharsArePlain()
    ensures forall c :: NameChar(c) || c == ':' ==> PlainChar(c) && c != '"' && c != '`'
  {
  }

  lemma SemicolonStep(blocked: bool, s: string)
    requires s != [] && FirstSemicolon(s) == 0
    ensures s[0] == ';' && Names(blocked, s) == Names(false, s[1..])
  {
    hide BindLength;
    BindChars(blocked, s);
  }

  /** Names and colons hold no quoted identifiers. */
  lemma {:induction false} QuotesPlainRun(s: string, n: nat)
    requires n <= |s| && QuotesPlain(s) && forall i :: 0 <= i < n ==> NameChar(s[i]) || s[i] == ':'
    ensures QuotesPlain(s[n..])
  {
    if n == 0 {
      assert s[0..] == s;
    } else {
      assert Masked(s) == 0;
      assert s[1..][n - 1..] == s[n..];
      QuotesPlainRun(s[1..], n - 1);
    }
  }

  lemma QuotesPlainStep(blocked: bool, s: string)
    requires s != [] && QuotesPlain(s)
    ensures QuotesPlain(s[StepLength(blocked, s)..])
  {
    hide Opaque, BindLength, NameChar;
    var n := StepLength(blocked, s);
    if Masked(s) == 0 && n > 1 {
      hide StepLength, QuotesPlain;
      StepChars(blocked, s);
      QuotesPlainRun(s, n);
    }
  }

  lemma QuotesPlainRegion(s: string) returns (n: nat)
    requires s != [] && QuotesPlain(s)
    ensures 1 <= n <= |s| && QuotesPlain(s[n..])
    ensures FirstSemicolon(s) == 0 ==> n == 1
    ensures FirstSemicolon(s) > 0 ==> FirstSemicolon(s) == n + FirstSemicolon(s[n..])
  {
    hide Opaque, FirstSemicolon, QuotedTail;
    SemicolonUnfold(s);
    n := if Masked(s) > 0 then Masked(s) else 1;
    if StartsQuoted(s) {
      PlainRun(s, n);
    }
  }

  /** Nor does cutting at the first separator make any. */
  lemma {:induction false} QuotesPlainAfter(s: string)
    requires QuotesPlain(s) && FirstSemicolon(s) < |s|
    ensures QuotesPlain(s[FirstSemicolon(s) + 1..])
    decreases |s|
  {
    hide FirstSemicolon, QuotesPlain;
    var k := FirstSemicolon(s);
    var n := QuotesPlainRegion(s);
    if k > 0 {
      assert s[n..][k - n + 1..] == s[k + 1..];
      QuotesPlainAfter(s[n..]);
    }
  }

  /** The names of a text are those before its first separator and those after it. */
  lemma {:induction false} NamesAcross(blocked: bool, s: string)
    requires FirstSemicolon(s) < |s| && QuotesPlain(s)
    ensures Names(blocked, s) == Names(blocked, s[..FirstSemicolon(s)]) + Names(false, s[FirstSemicolon(s) + 1..])
    decreases |s|
  {
    hide StepLength, StepNames, Names, FirstSemicolon, QuotesPlain, CleanCut, NameChar, Blocks;
    var k := FirstSemicolon(s);
    if k == 0 {
      SemicolonStep(blocked, s);
      NamesBlank(blocked, s[..0]);
      NothingBefore(Names(false, s[1..]));
    } else {
      StepBeforeSemicolon(blocked, s);
      SemicolonCutClean(s, k);
      StepCut(blocked, s, k);
      NamesStep(blocked, s); NamesStep(blocked, s[..k]);
      QuotesPlainStep(blocked, s);
      var t := StepLength(blocked, s);
      AcrossStep(s, k, t);
      NamesAcross(Blocks(s[t - 1]), s[t..]);
      Associate(StepNames(blocked, s), Names(Blocks(s[t - 1]), s[..k][t..]), Names(false, s[k + 1..]));
    }
  }

  lemma SemicolonCutClean(s: string, k: nat)
    requires k < |s| && s[k] == ';'
    ensures CleanCut(s, k) && !NameChar(s[k])
  {
  }

  lemma AcrossStep(s: string, k: nat, t: nat)
    requires t <= k < |s|
    ensures s[..k][t..] == s[t..][..k - t] && s[t..][k - t + 1..] == s[k + 1..]
  {
  }

  function AllNames(stmts: seq<string>): seq<string> {
    if stmts == [] then [] else FindNames(stmts[0]) + AllNames(stmts[1..])
  }

  lemma NamesStrip(u: string)
    ensures FindNames(Strip(u)) == FindNames(u)
  {
    hide Strip, Names;
    var n, m := StripShape(u);
    NamesLead(u, n);
    var v := u[n..];
    assert v[..m] == u[n..n + m] && v[m..] == u[n + m..];
    NamesTrail(false, v, m);
  }

  /** The two scanners agree: on a text whose quoted identifiers, if any, are plain, the bind names found
      are exactly those found statement by statement after splitting. */
  lemma {:induction false} ScannersAgree(s: string)
    requires QuotesPlain(s)
    ensures FindNames(s) == AllNames(Split(s))
    decreases |s|
  {
    hide Split, Names, FirstSemicolon, Strip, QuotesPlain, AllNames;
    var k := FirstSemicolon(s);
    var first := s[..k];
    SplitUnfold(s);
    NamesStrip(first);
    if k < |s| {
      QuotesPlainAfter(s);
      ScannersAgree(s[k + 1..]);
      NamesAcross(false, s);
      AllNamesStep(first, Split(s[k + 1..]));
    } else {
      assert first == s;
      AllNamesStep(first, []);
    }
  }

  lemma {:induction false} QuotedTailAt(q: char, s: string, n: nat)
    requires n < |s| && s[n] == q && forall i :: 0 <= i < n ==> s[i] != q
    ensures QuotedTail(q, s) == n + 1
  {
    if n > 0 { QuotedTailAt(q, s[1..], n - 1); }
  }

  lemma TightStrips(s: string)
    requires s != [] && !IsSpace(s[0]) && !IsSpace(s[|s| - 1])
    ensures Strip(s) == s
  {
  }

  lemma SemicolonAhead(s: string)
    requires s != [] && s[0] == ';'
    ensures FirstSemicolon(s) == 0 && FirstSemicolon([]) == 0
  {
  }

  /** An opening quote does not keep the splitter from the semicolon behind it. */
  lemma QuoteSplits(r: string)
    requires r != [] && (forall i :: 0 <= i < |r| ==> PlainChar(r[i])) && !IsSpace(r[0]) && !IsSpace(r[|r| - 1])
    ensures Split("\"a;" + r) == ["\"a", r]
  {
    hide FirstSemicolon, Split, Strip, IsSpace;
    var s := "\"a;" + r;
    assert s[2..][0] == ';' && s[..2] == "\"a" && s[3..] == r && r[|r|..] == [] && r[..|r|] == r;
    SemicolonAhead(s[2..]);
    PlainRun(s, 2);
    PlainRun(r, |r|);
    SplitUnfold(s); SplitUnfold(r);
    TightStrips("\"a") by { Visible(); }
    TightStrips(r);
  }

  lemma Visible()
    ensures !IsSpace('"') && !IsSpace('a') && !IsSpace('b') && !IsSpace(':')
  {
  }

  /** A semicolon inside a quoted identifier is a separator to the one scanner and not to the other. */
  lemma QuotedSemicolon()
    ensures FindNames("\"a;:b\"") == [] && AllNames(Split("\"a;:b\"")) == ["B"]
  {
    hide Split, IsSpace, Names;
    var s, r := "\"a;:b\"", ":b\"";
    QuotedAlone();
    Visible();
    QuoteSplits(r);
    assert "\"a;" + r == s;
    OneQuote(); OneBind();
    TwoStatements("\"a", r);
  }

  /** Such a text may agree all the same: here one bind is found that is hidden by the quotes, and one is
      hidden that is not. */
  lemma QuotedByChance()
    ensures FindNames("\"a;:b\":b") == ["B"] && AllNames(Split("\"a;:b\":b")) == ["B"]
  {
    hide Split, IsSpace, Names;
    var s, r := "\"a;:b\":b", ":b\":b";
    QuotedThenBind();
    Visible();
    QuoteSplits(r);
    assert "\"a;" + r == s;
    OneQuote(); BindThenQuoted();
    TwoStatements("\"a", r);
  }

  lemma TwoStatements(x: string, y: string)
    ensures AllNames([x, y]) == FindNames(x) + FindNames(y)
  {
    hide Names;
    assert [x, y][1..] == [y] && [y][1..] == [];
    assert FindNames(y) + AllNames([]) == FindNames(y);
  }

  lemma QuotedAlone()
    ensures FindNames("\"a;:b\"") == []
  {
    hide BindLength;
    var s := "\"a;:b\"";
    QuotedTailAt('"', s[1..], 4);
    assert Masked(s) == 6 && s[6..] == [];
  }

  lemma QuotedThenBind()
    ensures FindNames("\"a;:b\":b") == ["B"]
  {
    hide BindLength, Names;
    var s := "\"a;:b\":b";
    QuotedTailAt('"', s[1..], 4);
    assert Masked(s) == 6 && s[6..] == ":b" && s[5] == '"' && !Blocks('"');
    NamesUnfold(false, s);
    BindAlone();
  }

  lemma BindAlone()
    ensures Names(false, ":b") == ["B"]
  {
    var s := ":b";
    assert s[1..] == "b" && "b"[1..] == [];
    assert NameRun("b") == 1;
    assert BindLength(false, s) == 2 && s[2..] == [] && s[1..2] == "b" && Upper("b") == "B";
  }

  lemma BindThenQuoted()
    ensures FindNames(":b\":b") == ["B"]
  {
    var s, t := ":b\":b", "\":b";
    assert s[1..] == "b\":b" && "b\":b"[1..] == t && s[2..] == t;
    assert NameRun(t) == 0;
    assert NameRun(s[1..]) == 1;
    assert BindLength(false, s) == 2 && s[1..2] == "b" && Upper("b") == "B";
    assert Masked(s) == 0 && !ColonPair(s);
    hide BindLength, Upper, NameRun, Masked, Names;
    UnclosedQuote();
    NamesUnfold(false, s);
  }

  lemma UnclosedQuote()
    ensures Names(true, "\":b") == [] && Blocks('b')
  {
    var t := "\":b";
    assert t[1..] == ":b" && ":b"[1..] == "b" && "b"[1..] == [] && t[3..] == [];
    assert QuotedTail('"', "b") == 1;
    assert QuotedTail('"', ":b") == 2;
    assert Masked(t) == 3;
    hide Masked, BindLength, Names;
    NamesUnfold(true, t);
    NoNamesInNothing();
    NoNamesLeft(t[2]);
  }

  lemma NoNamesLeft(c: char)
    ensures Names(Blocks(c), []) == []
  {
  }

  lemma OneQuote()
    ensures FindNames("\"a") == []
  {
    var s := "\"a";
    assert s[1..] == "a" && s[2..] == [] && "a"[1..] == [];
    assert QuotedTail('"', "a") == 1;
    assert Masked(s) == 2;
  }

  lemma OneBind()
    ensures FindNames(":b\"") == ["B"]
  {
    var s := ":b\"";
    assert s[1..] == "b\"" && s[2..] == "\"" && "b\""[1..] == "\"";
    assert NameRun("b\"") == 1 by { assert NameRun("\"") == 0; }
    assert BindLength(false, s) == 2;
    assert s[1..2] == "b" && Upper("b") == "B";
    NothingBehindAQuote();
  }

  lemma NothingBehindAQuote()
    ensures Names(true, "\"") == []
  {
    assert "\""[1..] == [];
    assert QuotedTail('"', []) == 0;
    assert Masked("\"") == 1;
  }

  lemma AllNamesStep(u: string, rest: seq<string>)
    ensures AllNames(Statement(u) + rest) == FindNames(Strip(u)) + AllNames(rest)
    ensures FindNames(u) + AllNames([]) == FindNames(u)
  {
    hide Strip, Names;
    NoNamesInNothing();
    if Strip(u) != [] {
      assert ([Strip(u)] + rest)[1..] == rest;
    } else {
      assert [] + rest == rest && [] + AllNames(rest) == AllNames(rest);
    }
  }

  lemma NoNamesInNothing()
    ensures FindNames([]) == []
  {
  }

  // ---------------------------------------------------------------------
  // Substitution
  // ---------------------------------------------------------------------

  /** Without a match, substitution changes nothing. */
  lemma {:induction false} NothingToSubstitute(blocked: bool, s: string)
    requires Matches(blocked, s) == []
    ensures Substitute(blocked, s) == s
    decreases |s|
  {
    if s != [] { NothingToSubstitute(Blocks(s[0]), s[1..]); }
  }

  lemma {:induction false} NoColonNoMatch(p: string, blocked: bool, s: string)
    requires p != [] && forall i :: 0 <= i < |p| ==> p[i] != ':'
    ensures Matches(blocked, p + s) == Matches(Blocks(p[|p| - 1]), s)
    decreases |p|
  {
    assert (p + s)[1..] == p[1..] + s;
    if |p| > 1 {
      NoColonNoMatch(p[1..], Blocks(p[0]), s);
    } else {
      assert p[1..] + s == s;
    }
  }

  lemma UpperNoColon(s: string)
    requires forall i :: 0 <= i < |s| ==> NameChar(s[i])
    ensures forall i :: 0 <= i < |Upper(s)| ==> Upper(s)[i] != ':'
  {
  }

  /** After substitution there is nothing left to match, even when less is blocked than before. */
  lemma {:induction false} SubstituteLeavesNone(before: bool, after: bool, s: string)
    requires before ==> after
    ensures Matches(after, Substitute(before, s)) == []
    decreases |s|
  {
    if s != [] {
      var n := BindLength(before, s);
      if n > 0 {
        var p := Placeholder(Upper(s[1..n]));
        BindChars(before, s);
        UpperNoColon(s[1..n]);
        NoColonNoMatch(p, after, Substitute(Blocks(s[n - 1]), s[n..]));
        SubstituteLeavesNone(Blocks(s[n - 1]), true, s[n..]);
      } else {
        var rest := Substitute(Blocks(s[0]), s[1..]);
        SubstituteLeavesNone(Blocks(s[0]), Blocks(s[0]), s[1..]);
        StillNoBind(before, after, s, rest);
        assert ([s[0]] + rest)[1..] == rest;
      }
    }
  }

  /** A colon that starts no bind still starts none when what follows has been substituted. */
  lemma StillNoBind(before: bool, after: bool, s: string, rest: string)
    requires s != [] && BindLength(before, s) == 0 && (before ==> after)
    requires rest == Substitute(Blocks(s[0]), s[1..])
    ensures BindLength(after, [s[0]] + rest) == 0
  {
    if s[0] == ':' && |s| > 1 {
      var n := BindLength(true, s[1..]);
      if n > 0 {
        assert rest[0] == '%';
      } else {
        assert rest[0] == s[1];
      }
    }
  }

  /** Substitution is idempotent on every text. */
  lemma SubstituteIdempotent(sql: string)
    ensures ReplaceBinds(ReplaceBinds(sql).0).0 == ReplaceBinds(sql).0
  {
    SubstituteLeavesNone(false, false, sql);
    NothingToSubstitute(false, Substitute(false, sql));
  }

  // ---------------------------------------------------------------------
  // Substitution against the bind scanner
  // ---------------------------------------------------------------------

  datatype Piece = Kept(c: char) | Bound(raw: string)

  /** How far one step of the substitution goes, and the piece it makes. */
  function MatchLength(blocked: bool, s: string): (n: nat)
    requires s != []
    ensures 1 <= n <= |s|
  {
    if BindLength(blocked, s) > 0 then BindLength(blocked, s) else 1
  }

  function MatchNames(blocked: bool, s: string): seq<string>
    requires s != []
  {
    if BindLength(blocked, s) > 0 then [Upper(s[1..BindLength(blocked, s)])] else []
  }

  function MatchPiece(blocked: bool, s: string): (p: Piece)
    requires s != []
    ensures s[..MatchLength(blocked, s)] == (if p.Kept? then [p.c] else ":" + p.raw)
    ensures MatchNames(blocked, s) == if p.Kept? then [] else [Upper(p.raw)]
  {
    BindChars(blocked, s);
    if BindLength(blocked, s) > 0 then Bound(s[1..BindLength(blocked, s)]) else Kept(s[0])
  }

  function Pieces(blocked: bool, s: string): seq<Piece>
    decreases |s|
  {
    if s == [] then []
    else
      var n := MatchLength(blocked, s);
      [MatchPiece(blocked, s)] + Pieces(Blocks(s[n - 1]), s[n..])
  }

  function Source(ps: seq<Piece>): string {
    if ps == [] then [] else (if ps[0].Kept? then [ps[0].c] else ":" + ps[0].raw) + Source(ps[1..])
  }

  function Rewritten(ps: seq<Piece>): string {
    if ps == [] then []
    else (if ps[0].Kept? then [ps[0].c] else Placeholder(Upper(ps[0].raw))) + Rewritten(ps[1..])
  }

  function NamesReported(ps: seq<Piece>): seq<string> {
    if ps == [] then [] else (if ps[0].Kept? then [] else [Upper(ps[0].raw)]) + NamesReported(ps[1..])
  }

  /** Substitution keeps every character of the statement but those of the binds it matches, each of
      which becomes one placeholder; Matches lists their names. */
  lemma {:induction false} SubstitutionPieces(blocked: bool, s: string)
    ensures var ps := Pieces(blocked, s);
      Source(ps) == s && Rewritten(ps) == Substitute(blocked, s) && NamesReported(ps) == Matches(blocked, s)
    decreases |s|
  {
    hide Placeholder, Upper, Substitute, Matches, MatchNames, MatchLength, MatchPiece, Pieces, Source, Rewritten, NamesReported;
    if s == [] {
      PiecesOfNothing(blocked);
    } else {
      var n := MatchLength(blocked, s);
      MatchesStep(blocked, s); SubstituteStep(blocked, s);
      SubstitutionPieces(Blocks(s[n - 1]), s[n..]);
      PiecesStep(blocked, s);
      FirstPiece(MatchPiece(blocked, s), Pieces(Blocks(s[n - 1]), s[n..]));
      assert s == s[..n] + s[n..];
    }
  }

  lemma PiecesStep(blocked: bool, s: string)
    requires s != []
    ensures var n := MatchLength(blocked, s);
      Pieces(blocked, s) == [MatchPiece(blocked, s)] + Pieces(Blocks(s[n - 1]), s[n..])
  {
    hide MatchLength, MatchPiece;
  }

  lemma FirstPiece(p: Piece, ps: seq<Piece>)
    ensures Source([p] + ps) == (if p.Kept? then [p.c] else ":" + p.raw) + Source(ps)
    ensures Rewritten([p] + ps) == (if p.Kept? then [p.c] else Placeholder(Upper(p.raw))) + Rewritten(ps)
    ensures NamesReported([p] + ps) == (if p.Kept? then [] else [Upper(p.raw)]) + NamesReported(ps)
  {
    hide Placeholder, Upper;
    assert ([p] + ps)[1..] == ps;
  }

  lemma PiecesOfNothing(blocked: bool)
    ensures Pieces(blocked, []) == [] && Substitute(blocked, []) == [] && Matches(blocked, []) == []
    ensures Source([]) == [] && Rewritten([]) == [] && NamesReported([]) == []
  {
  }

  lemma MatchesStep(blocked: bool, s: string)
    requires s != []
    ensures var n := MatchLength(blocked, s);
      Matches(blocked, s) == MatchNames(blocked, s) + Matches(Blocks(s[n - 1]), s[n..])
  {
    hide BindLength, Upper, Blocks, Matches;
    MatchesUnfold(blocked, s);
    var n := MatchLength(blocked, s);
    NothingBefore(Matches(Blocks(s[n - 1]), s[n..]));
  }

  lemma MatchesUnfold(blocked: bool, s: string)
    requires s != []
    ensures var n := BindLength(blocked, s);
      Matches(blocked, s) ==
        if n > 0 then [Upper(s[1..n])] + Matches(Blocks(s[n - 1]), s[n..]) else Matches(Blocks(s[0]), s[1..])
  {
    hide BindLength, Upper, Blocks;
  }

  lemma SubstituteStep(blocked: bool, s: string)
    requires s != []
    ensures var n, p := MatchLength(blocked, s), MatchPiece(blocked, s);
      Substitute(blocked, s) ==
        (if p.Kept? then [p.c] else Placeholder(Upper(p.raw))) + Substitute(Blocks(s[n - 1]), s[n..])
  {
    hide BindLength, Upper, Placeholder;
  }

  /** No bind can lie on both sides of this cut. */
  predicate Seam(s: string, n: nat)
    requires 0 < n <= |s|
  {
    n == |s| || !NameChar(s[n]) || !(NameChar(s[n - 1]) || s[n - 1] == ':')
  }

  lemma BindSeam(blocked: bool, s: string, n: nat)
    requires 0 < n <= |s| && Seam(s, n)
    ensures BindLength(blocked, s) <= n && BindLength(blocked, s[..n]) == BindLength(blocked, s)
  {
    if n == |s| {
      assert s[..n] == s;
    } else if !NameChar(s[n]) {
      BindCut(blocked, s, n);
    } else if n > 1 {
      BindCut(blocked, s, n - 1);
      BindCut(blocked, s[..n], n - 1);
      assert s[..n][..n - 1] == s[..n - 1];
    }
  }

  lemma {:induction false} MatchesCut(blocked: bool, s: string, n: nat)
    requires 0 < n <= |s| && Seam(s, n)
    ensures Matches(blocked, s) == Matches(blocked, s[..n]) + Matches(Blocks(s[n - 1]), s[n..])
    decreases |s|
  {
    hide MatchLength, MatchNames, Matches, Seam, Blocks;
    var x := s[..n];
    PieceSeam(blocked, s, n);
    MatchesStep(blocked, s); MatchesStep(blocked, x);
    var step := MatchLength(blocked, s);
    if step < n {
      SeamStep(s, n, step);
      TakeDrop(s, n, step);
      MatchesCut(Blocks(s[step - 1]), s[step..], n - step);
    } else {
      assert x[step..] == [];
      PiecesOfNothing(Blocks(s[n - 1]));
    }
    Associate(MatchNames(blocked, s), Matches(Blocks(x[step - 1]), x[step..]), Matches(Blocks(s[n - 1]), s[n..]));
    NothingBefore(Matches(Blocks(s[n - 1]), s[n..]));
  }

  lemma PieceSeam(blocked: bool, s: string, n: nat)
    requires 0 < n <= |s| && Seam(s, n)
    ensures MatchLength(blocked, s) <= n && MatchLength(blocked, s[..n]) == MatchLength(blocked, s)
    ensures MatchNames(blocked, s[..n]) == MatchNames(blocked, s)
  {
    hide BindLength, Seam, Upper;
    BindSeam(blocked, s, n);
    var b := BindLength(blocked, s);
    if b > 0 { assert s[..n][1..b] == s[1..b]; }
  }

  lemma TakeDrop(s: string, n: nat, t: nat)
    requires 0 < t < n <= |s|
    ensures s[t..][..n - t] == s[..n][t..] && s[t..][n - t..] == s[n..]
    ensures s[..n][t - 1] == s[t - 1] && s[t..][n - t - 1] == s[n - 1]
  {
  }

  lemma SeamStep(s: string, n: nat, step: nat)
    requires 0 < step < n <= |s| && Seam(s, n)
    ensures Seam(s[step..], n - step)
  {
  }

  lemma {:induction false} QuotedTailEnd(q: char, s: string)
    requires QuotedTail(q, s) < |s|
    ensures QuotedTail(q, s) > 0 && s[QuotedTail(q, s) - 1] == q
  {
    if s[0] != q { QuotedTailEnd(q, s[1..]); }
  }

  lemma {:induction false} LineEndStop(s: string)
    requires LineEnd(s) < |s|
    ensures s[LineEnd(s)] == '\n'
  {
    if s[0] != '\n' { LineEndStop(s[1..]); }
  }

  lemma MaskedSeam(s: string)
    requires Masked(s) > 0
    ensures Seam(s, Masked(s))
  {
    if Masked(s) < |s| {
      if StartsQuoted(s) {
        QuotedTailEnd(s[0], s[1..]);
      } else if StartsString(s) {
        StringTailClosed(s[1..], []);
      } else if StartsLine(s) {
        LineEndStop(s);
      } else {
        OpaquePositive(s);
        BlockEndClosed(s, []);
      }
    }
  }

  /** Every masked region is free of matches, and no double colon is followed by a digit. */
  predicate Exposed(blocked: bool, s: string)
    decreases |s|
  {
    s == [] ||
    var n := StepLength(blocked, s);
    && (Masked(s) > 0 ==> Matches(blocked, s[..n]) == [])
    && (Masked(s) == 0 && ColonPair(s) ==> !(|s| > 2 && IsDigit(s[2])))
    && Exposed(Blocks(s[n - 1]), s[n..])
  }

  lemma {:induction false} DigitRunDigits(s: string)
    ensures forall i :: 0 <= i < DigitRun(s) ==> IsDigit(s[i])
  {
    if s != [] && IsDigit(s[0]) { DigitRunDigits(s[1..]); }
  }

  /** Matching at a double colon: a digit right after it makes one extra match. */
  lemma MatchesPair(blocked: bool, s: string)
    requires ColonPair(s)
    ensures |s| > 2 && IsDigit(s[2]) ==> |Matches(blocked, s)| == 1 + |Matches(true, s[2..])|
    ensures !(|s| > 2 && IsDigit(s[2])) ==> Matches(blocked, s) == Matches(true, s[2..])
  {
    hide Matches, Upper;
    var u, w := s[1..], s[2..];
    assert u[1..] == w;
    assert BindLength(blocked, s) == 0;
    MatchesStep(blocked, s);
    MatchesStep(true, u);
    NothingBefore(Matches(true, u)); NothingBefore(Matches(true, w));
    if |s| > 2 && IsDigit(s[2]) {
      var d := DigitRun(w);
      DigitRunDigits(w);
      assert u[1 + d..] == w[d..] && w == w[..d] + w[d..];
      assert u[d] == w[d - 1];
      NoColonNoMatch(w[..d], true, w[d..]);
    }
  }

  /** The bind scanner never finds more than substitution replaces, and both agree exactly on exposed
      texts. */
  lemma {:induction false} ExposedExactly(blocked: bool, s: string)
    ensures |Names(blocked, s)| <= |Matches(blocked, s)|
    ensures |Names(blocked, s)| == |Matches(blocked, s)| <==> Exposed(blocked, s)
    ensures Exposed(blocked, s) <==> Names(blocked, s) == Matches(blocked, s)
    decreases |s|
  {
    hide Masked, ColonPair, StepLength, StepNames, MatchLength, MatchNames, Blocks, Names, Matches, Exposed;
    if s == [] {
      NamesBlank(blocked, s); PiecesOfNothing(blocked); ExposedNothing(blocked);
    } else {
      var n := StepLength(blocked, s);
      NamesStep(blocked, s);
      ExposedStep(blocked, s);
      StepKinds(blocked, s);
      ExposedExactly(Blocks(s[n - 1]), s[n..]);
      if Masked(s) > 0 {
        MaskedSeam(s);
        MatchesCut(blocked, s, n);
        NothingBefore(Names(Blocks(s[n - 1]), s[n..]));
      } else if ColonPair(s) {
        MatchesPair(blocked, s);
        NothingBefore(Names(Blocks(s[n - 1]), s[n..]));
      } else {
        MatchesStep(blocked, s);
      }
    }
  }

  lemma ExposedNothing(blocked: bool)
    ensures Exposed(blocked, [])
  {
  }

  lemma ExposedStep(blocked: bool, s: string)
    requires s != []
    ensures var n := StepLength(blocked, s);
      Exposed(blocked, s) <==>
        && (Masked(s) > 0 ==> Matches(blocked, s[..n]) == [])
        && (Masked(s) == 0 && ColonPair(s) ==> !(|s| > 2 && IsDigit(s[2])))
        && Exposed(Blocks(s[n - 1]), s[n..])
  {
    hide StepLength, Masked, Matches, Blocks;
  }

  lemma StepKinds(blocked: bool, s: string)
    requires s != []
    ensures Masked(s) > 0 ==> StepLength(blocked, s) == Masked(s) && StepNames(blocked, s) == []
    ensures Masked(s) == 0 && ColonPair(s) ==>
      StepLength(blocked, s) == 2 && |s| > 1 && Blocks(s[1]) && StepNames(blocked, s) == []
    ensures Masked(s) == 0 && !ColonPair(s) ==>
      StepLength(blocked, s) == MatchLength(blocked, s) && StepNames(blocked, s) == MatchNames(blocked, s)
  {
    hide Masked, BindLength, Upper;
  }

  /** The names reported with a rewritten statement are exactly those of the placeholders put into it if
      and only if no match is masked and no double colon is followed by a digit. */
  lemma ReportedAreReplaced(sql: string)
    ensures ReplaceBinds(sql).1 == NamesReported(Pieces(false, sql)) <==> Exposed(false, sql)
  {
    SubstitutionPieces(false, sql);
    ExposedExactly(false, sql);
  }

  predicate NoOpeners(s: string) {
    && (forall i :: 0 <= i < |s| ==> s[i] != '\'' && s[i] != '"' && s[i] != '`')
    && (forall i :: 0 <= i < |s| - 1 ==> !(s[i] == '-' && s[i + 1] == '-') && !(s[i] == '/' && s[i + 1] == '*')
                                         && !(s[i] == ':' && s[i + 1] == ':'))
  }

  /** A text without quotes, comment openers and double colons is exposed. */
  lemma {:induction false} NoOpenersExposed(blocked: bool, s: string)
    requires NoOpeners(s)
    ensures Exposed(blocked, s)
    decreases |s|
  {
    hide BindLength, Blocks;
    if s != [] {
      var n := StepLength(blocked, s);
      NoOpenersExposed(Blocks(s[n - 1]), s[n..]);
    }
  }

  /** A bind inside a string literal is replaced but not reported. */
  lemma QuotedBindIsReplaced()
    ensures ReplaceBinds("':x'").1 == [] && ReplaceBinds("':x'").0 == "'%(X)s'"
  {
    var s := "':x'";
    assert s[1..] == ":x'" && s[1..][1..] == "x'" && s[1..][2..] == "'" && s[1..][2..][1..] == [];
    assert Masked(s) == 4 by { assert StringTail("'") == 1; assert StringTail("x'") == 2; }
    assert s[4..] == [];
    assert NameRun("x'") == 1 by { assert NameRun("'") == 0; }
    assert BindLength(false, ":x'") == 2;
    assert Upper("x") == "X";
  }
}
