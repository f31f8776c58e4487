/** The string operations of the host language that the scanners rely on, over ASCII. */
module Text {
  import opened Basics

  predicate IsSpace(c: char) {
    c == ' ' || '\t' <= c <= '\r' || '\U{1c}' <= c <= '\U{1f}'
  }

  predicate IsDigit(c: char) { '0' <= c <= '9' }

  predicate IsLetter(c: char) { 'a' <= c <= 'z' || 'A' <= c <= 'Z' }

  predicate IsWord(c: char) { IsLetter(c) || IsDigit(c) || c == '_' }

  predicate Blank(s: string) { forall i :: 0 <= i < |s| ==> IsSpace(s[i]) }

  function LStrip(s: string): string {
    if s != [] && IsSpace(s[0]) then LStrip(s[1..]) else s
  }

  function RStrip(s: string): string {
    if s != [] && IsSpace(s[|s| - 1]) then RStrip(s[..|s| - 1]) else s
  }

  function Strip(s: string): string { RStrip(LStrip(s)) }

  lemma {:induction false} LStripSuffix(s: string)
    ensures var t := LStrip(s);
      && |t| <= |s| && t == s[|s| - |t|..] && Blank(s[..|s| - |t|])
      && (t != [] ==> !IsSpace(t[0]))
  {
    if s != [] && IsSpace(s[0]) {
      LStripSuffix(s[1..]);
      var n := |s| - |LStrip(s)|;
      assert s[..n] == [s[0]] + s[1..][..n - 1];
    }
  }

  lemma {:induction false} RStripPrefix(s: string)
    ensures var t := RStrip(s);
      && |t| <= |s| && t == s[..|t|] && Blank(s[|t|..])
      && (t != [] ==> !IsSpace(t[|t| - 1]))
  {
    if s != [] && IsSpace(s[|s| - 1]) {
      RStripPrefix(s[..|s| - 1]);
      var n := |RStrip(s)|;
      assert s[n..] == s[..|s| - 1][n..] + [s[|s| - 1]];
    }
  }

  /** The index of the first character of s among stops, or |s|. */
  function Until(s: string, stops: string): (n: nat)
    ensures n <= |s|
    ensures forall i :: 0 <= i < n ==> s[i] !in stops
    ensures n < |s| ==> s[n] in stops
  {
    if s == [] || s[0] in stops then 0 else 1 + Until(s[1..], stops)
  }

  lemma {:induction false} UntilAll(s: string, stops: string)
    requires forall i :: 0 <= i < |s| ==> s[i] !in stops
    ensures Until(s, stops) == |s|
  {
    if s != [] { UntilAll(s[1..], stops); }
  }

  lemma {:induction false} UntilAppend(s: string, t: string, stops: string)
    requires (forall i :: 0 <= i < |s| ==> s[i] !in stops) && t != [] && t[0] in stops
    ensures Until(s + t, stops) == |s|
  {
    if s == [] {
      assert s + t == t;
    } else {
      assert (s + t)[1..] == s[1..] + t;
      UntilAppend(s[1..], t, stops);
    }
  }

  /** Trimming a text cuts blanks off both ends. */
  lemma StripShape(u: string) returns (n: nat, m: nat)
    ensures n + m <= |u| && Strip(u) == u[n..n + m]
    ensures Blank(u[..n]) && Blank(u[n + m..])
    ensures m > 0 ==> !IsSpace(u[n]) && !IsSpace(u[n + m - 1])
  {
    LStripSuffix(u);
    var v := LStrip(u);
    RStripPrefix(v);
    n, m := |u| - |v|, |RStrip(v)|;
    assert u[n + m..] == v[m..] && u[n..n + m] == v[..m];
  }
}
