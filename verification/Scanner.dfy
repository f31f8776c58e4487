/** The SQL and PL/SQL scanners: statement splitting, bind names, bind substitution. */
module Scanner {
  import opened Basics
  import opened Text

  // ---------------------------------------------------------------------
  // Regions a scanner passes over whole
  // ---------------------------------------------------------------------

  /** The rest of a string literal after its opening quote; a doubled quote stays inside. */
  function StringTail(s: string): (n: nat)
    ensures n <= |s|
    ensures s != [] ==> n > 0
  {
    if s == [] then 0
    else if s[0] != '\'' then 1 + StringTail(s[1..])
    else if |s| > 1 && s[1] == '\'' then 2 + StringTail(s[2..])
    else 1
  }

  /** Up to and including the first star-slash, or everything. */
  function BlockEnd(s: string): (n: nat)
    ensures n <= |s|
    ensures s != [] ==> n > 0
  {
    if |s| < 2 then |s|
    else if s[0] == '*' && s[1] == '/' then 2
    else 1 + BlockEnd(s[1..])
  }

  function LineEnd(s: string): (n: nat)
    ensures n <= |s|
  {
    if s == [] || s[0] == '\n' then 0 else 1 + LineEnd(s[1..])
  }

  predicate StartsString(s: string) { s != [] && s[0] == '\'' }

  predicate StartsLine(s: string) { |s| >= 2 && s[0] == '-' && s[1] == '-' }

  predicate StartsBlock(s: string) { |s| >= 2 && s[0] == '/' && s[1] == '*' }

  /** The length of the string literal or comment at the front of s, or 0. A block comment looks for
      its end from its own first character, so slash-star-slash closes itself. */
  function Opaque(s: string): (n: nat)
    ensures n <= |s|
  {
    if StartsString(s) then 1 + StringTail(s[1..])
    else if StartsLine(s) then LineEnd(s)
    else if StartsBlock(s) then BlockEnd(s)
    else 0
  }

  lemma OpaquePositive(s: string)
    ensures Opaque(s) > 0 <==> StartsString(s) || StartsLine(s) || StartsBlock(s)
  {
  }

  // ---------------------------------------------------------------------
  // Splitting on semicolons
  // ---------------------------------------------------------------------

  /** The first semicolon outside strings and comments, or the end. */
  function FirstSemicolon(s: string): (n: nat)
    ensures n <= |s|
    ensures n < |s| ==> s[n] == ';'
    decreases |s|
  {
    if s == [] then 0
    else if Opaque(s) > 0 then Opaque(s) + FirstSemicolon(s[Opaque(s)..])
    else if s[0] == ';' then 0
    else 1 + FirstSemicolon(s[1..])
  }

  function Statement(s: string): seq<string> { if Strip(s) == [] then [] else [Strip(s)] }

  /** The statements of s, when buf has been collected already for the first one. */
  function SplitFrom(buf: string, s: string): seq<string>
    decreases |s|
  {
    var k := FirstSemicolon(s);
    if k == |s| then Statement(buf + s)
    else Statement(buf + s[..k]) + SplitFrom([], s[k + 1..])
  }

  function Split(body: string): seq<string> { SplitFrom([], body) }

  lemma SemicolonUnfold(s: string)
    requires s != []
    ensures FirstSemicolon(s) ==
      if Opaque(s) > 0 then Opaque(s) + FirstSemicolon(s[Opaque(s)..])
      else if s[0] == ';' then 0
      else 1 + FirstSemicolon(s[1..])
  {
  }

  lemma SplitFromUnfold(buf: string, s: string)
    ensures var k := FirstSemicolon(s);
      SplitFrom(buf, s) ==
        if k == |s| then Statement(buf + s) else Statement(buf + s[..k]) + SplitFrom([], s[k + 1..])
  {
    hide FirstSemicolon, Statement;
  }

  lemma ShiftedCut(buf: string, s: string, t: nat, k: nat)
    requires t <= k <= |s|
    ensures (buf + s[..t]) + s[t..][..k - t] == buf + s[..k]
    ensures k < |s| ==> s[t..][k - t + 1..] == s[k + 1..]
  {
    assert s[..k] == s[..t] + s[t..][..k - t];
    Associate(buf, s[..t], s[t..][..k - t]);
  }

  /** Characters before the first semicolon can be collected one stretch at a time. */
  lemma SplitFromShift(buf: string, s: string, t: nat)
    requires t <= |s| && FirstSemicolon(s) == t + FirstSemicolon(s[t..])
    ensures SplitFrom(buf, s) == SplitFrom(buf + s[..t], s[t..])
  {
    hide FirstSemicolon, Statement, SplitFrom;
    SplitFromUnfold(buf, s);
    SplitFromUnfold(buf + s[..t], s[t..]);
    var k := FirstSemicolon(s);
    ShiftedCut(buf, s, t, k);
    if k == |s| {
      assert s[..k] == s && s[t..][..k - t] == s[t..];
    }
  }

  lemma SplitFromOpaque(buf: string, s: string)
    requires Opaque(s) > 0
    ensures SplitFrom(buf, s) == SplitFrom(buf + s[..Opaque(s)], s[Opaque(s)..])
  {
    hide Opaque, FirstSemicolon, SplitFrom;
    SemicolonUnfold(s);
    SplitFromShift(buf, s, Opaque(s));
  }

  lemma SplitFromChar(buf: string, s: string)
    requires s != [] && Opaque(s) == 0 && s[0] != ';'
    ensures SplitFrom(buf, s) == SplitFrom(buf + [s[0]], s[1..])
  {
    hide Opaque, FirstSemicolon, SplitFrom;
    SemicolonUnfold(s);
    SplitFromShift(buf, s, 1);
    assert s[..1] == [s[0]];
  }

  lemma SplitFromSemicolon(buf: string, s: string)
    requires s != [] && Opaque(s) == 0 && s[0] == ';'
    ensures SplitFrom(buf, s) == Statement(buf) + SplitFrom([], s[1..])
  {
    hide Opaque, FirstSemicolon, Statement;
    SemicolonUnfold(s);
    assert buf + s[..0] == buf;
  }

  /** One step inside a string literal, by index. */
  lemma StringStep(body: string, i: nat)
    requires i <= |body|
    ensures StringTail(body[i..]) ==
      if i == |body| then 0
      else if body[i] != '\'' then 1 + StringTail(body[i + 1..])
      else if i + 1 < |body| && body[i + 1] == '\'' then 2 + StringTail(body[i + 2..])
      else 1
  {
    if i < |body| { assert body[i..][1..] == body[i + 1..]; }
    if i + 1 < |body| { assert body[i..][2..] == body[i + 2..]; }
  }

  lemma StringStart(body: string, start: nat)
    requires start < |body| && body[start] == '\''
    ensures Opaque(body[start..]) == 1 + StringTail(body[start + 1..])
  {
    assert body[start..][1..] == body[start + 1..];
  }

  /** The inner loop over a string literal: copies it, doubled quotes and all. */
  method CopyString(body: string, start: nat, buf0: string) returns (i: nat, buf: string)
    requires start < |body| && body[start] == '\''
    ensures i == start + Opaque(body[start..]) && i <= |body|
    ensures buf == buf0 + body[start..i]
  {
    hide Opaque, StringTail;
    buf := buf0 + [body[start]];
    i := start + 1;
    StringStart(body, start);
    StringStep(body, |body|);
    while i < |body|
      invariant start < i <= |body|
      invariant buf == buf0 + body[start..i]
      invariant i + StringTail(body[i..]) == start + Opaque(body[start..])
    {
      StringStep(body, i);
      buf := buf + [body[i]];
      if body[i] == '\'' {
        if i + 1 < |body| && body[i + 1] == '\'' {
          buf := buf + "'";
          i := i + 2;
          continue;
        }
        i := i + 1;
        return;
      }
      i := i + 1;
    }
  }

  /** Where a search for a newline, or for the end of a block comment, stops. */
  method FindLineEnd(body: string, start: nat) returns (j: nat)
    requires start <= |body|
    ensures j == start + LineEnd(body[start..]) && j <= |body|
  {
    j := start;
    while j < |body| && body[j] != '\n'
      invariant start <= j <= |body| && j + LineEnd(body[j..]) == start + LineEnd(body[start..])
    {
      assert body[j..][1..] == body[j + 1..];
      j := j + 1;
    }
  }

  method FindBlockEnd(body: string, start: nat) returns (j: nat)
    requires start <= |body|
    ensures j == start + BlockEnd(body[start..]) && j <= |body|
  {
    j := start;
    while j + 1 < |body| && !(body[j] == '*' && body[j + 1] == '/')
      invariant start <= j <= |body| && j + BlockEnd(body[j..]) == start + BlockEnd(body[start..])
    {
      assert body[j..][1..] == body[j + 1..];
      j := j + 1;
    }
    j := if j + 1 < |body| then j + 2 else |body|;
  }

  lemma Slices(s: string, i: nat, n: nat)
    requires i + n <= |s|
    ensures s[i..][..n] == s[i..i + n] && s[i..][n..] == s[i + n..]
  {
  }

  /** Copies the string literal or comment at i, if there is one. */
  method CopyRegion(body: string, i: nat, buf0: string) returns (j: nat, buf: string)
    requires i < |body|
    ensures j == i + Opaque(body[i..]) && j <= |body|
    ensures buf == buf0 + body[i..j]
  {
    var ch := body[i];
    j, buf := i, buf0;
    if ch == '\'' {
      j, buf := CopyString(body, i, buf);
    } else if ch == '-' && i + 1 < |body| && body[i + 1] == '-' {
      j := FindLineEnd(body, i);
      buf := buf + body[i..j];
    } else if ch == '/' && i + 1 < |body| && body[i + 1] == '*' {
      j := FindBlockEnd(body, i);
      buf := buf + body[i..j];
    }
  }

  /** Splits a PL/SQL body into its statements. */
  method SplitStatements(body: string) returns (out: seq<string>)
    ensures out == Split(body)
  {
    hide Opaque, SplitFrom;
    out := [];
    var buf := "";
    var i := 0;
    assert body[0..] == body;
    while i < |body|
      invariant 0 <= i <= |body|
      invariant out + SplitFrom(buf, body[i..]) == Split(body)
      decreases |body| - i
    {
      ghost var s := body[i..];
      var j, copied := CopyRegion(body, i, buf);
      Slices(body, i, Opaque(s));
      Slices(body, i, 1);
      if j > i {
        SplitFromOpaque(buf, s);
        i, buf := j, copied;
      } else if body[i] == ';' {
        SplitFromSemicolon(buf, s);
        var stmt := Strip(buf);
        if stmt != [] {
          out := out + [stmt];
        }
        buf := "";
        i := i + 1;
      } else {
        SplitFromChar(buf, s);
        buf := buf + [body[i]];
        i := i + 1;
      }
    }
    SplitFromEnd(buf, body[i..]);
    var tail := Strip(buf);
    if tail != [] {
      out := out + [tail];
    }
  }

  lemma SplitFromEnd(buf: string, s: string)
    requires s == []
    ensures SplitFrom(buf, s) == Statement(buf)
  {
    assert buf + s == buf;
  }

  // ---------------------------------------------------------------------
  // Bind names
  // ---------------------------------------------------------------------

  predicate NameStart(c: char) { IsLetter(c) || c == '_' }

  predicate NameChar(c: char) { IsWord(c) || c == '$' || c == '#' }

  /** A letter may not start a bind name right after this character. */
  predicate Blocks(c: char) { c == ':' || IsWord(c) }

  function NameRun(s: string): (n: nat)
    ensures n <= |s|
  {
    if s != [] && NameChar(s[0]) then 1 + NameRun(s[1..]) else 0
  }

  function DigitRun(s: string): (n: nat)
    ensures n <= |s|
  {
    if s != [] && IsDigit(s[0]) then 1 + DigitRun(s[1..]) else 0
  }

  /** The length of the bind at the front of s, colon included, or 0; blocked says whether the
      character before s rules a name out. Digits are not subject to that. */
  function BindLength(blocked: bool, s: string): (n: nat)
    ensures n <= |s| && n != 1
  {
    if |s| < 2 || s[0] != ':' then 0
    else if !blocked && NameStart(s[1]) then 1 + NameRun(s[1..])
    else if IsDigit(s[1]) then 1 + DigitRun(s[1..])
    else 0
  }

  function UpperChar(c: char): char { if 'a' <= c <= 'z' then c - 32 as char else c }

  function Upper(s: string): string { seq(|s|, i requires 0 <= i < |s| => UpperChar(s[i])) }

  predicate StartsQuoted(s: string) { s != [] && (s[0] == '"' || s[0] == '`') }

  /** A quoted identifier, up to its own kind of quote. */
  function QuotedTail(q: char, s: string): (n: nat)
    ensures n <= |s|
    ensures s != [] ==> n > 0
  {
    if s == [] then 0 else if s[0] == q then 1 else 1 + QuotedTail(q, s[1..])
  }

  /** Strings, comments and quoted identifiers, none of which hold binds. */
  function Masked(s: string): (n: nat)
    ensures n <= |s|
    ensures Opaque(s) > 0 ==> n == Opaque(s)
  {
    if StartsQuoted(s) then 1 + QuotedTail(s[0], s[1..]) else Opaque(s)
  }

  /** The bind names of s in order. */
  function Names(blocked: bool, s: string): seq<string>
    decreases |s|
  {
    if s == [] then []
    else if Masked(s) > 0 then Names(Blocks(s[Masked(s) - 1]), s[Masked(s)..])
    else if s[0] == ':' && |s| > 1 && s[1] == ':' then Names(true, s[2..])
    else if BindLength(blocked, s) > 0 then
      var n := BindLength(blocked, s);
      [Upper(s[1..n])] + Names(Blocks(s[n - 1]), s[n..])
    else Names(Blocks(s[0]), s[1..])
  }

  function FindNames(sql: string): seq<string> { Names(false, sql) }

  predicate BlockedAt(sql: string, i: nat)
    requires i <= |sql|
  {
    i > 0 && Blocks(sql[i - 1])
  }

  method SkipString(sql: string, start: nat) returns (i: nat)
    requires start < |sql| && sql[start] == '\''
    ensures i == start + Opaque(sql[start..]) && i <= |sql|
  {
    hide Opaque, StringTail;
    i := start + 1;
    StringStart(sql, start);
    StringStep(sql, |sql|);
    while i < |sql|
      invariant start < i <= |sql|
      invariant i + StringTail(sql[i..]) == start + Opaque(sql[start..])
    {
      StringStep(sql, i);
      if sql[i] == '\'' {
        if i + 1 < |sql| && sql[i + 1] == '\'' {
          i := i + 2;
          continue;
        }
        i := i + 1;
        return;
      }
      i := i + 1;
    }
  }

  method SkipQuoted(sql: string, start: nat) returns (i: nat)
    requires start < |sql| && StartsQuoted(sql[start..])
    ensures i == start + Masked(sql[start..]) && i <= |sql|
  {
    var q := sql[start];
    i := start + 1;
    assert sql[start..][1..] == sql[start + 1..];
    while i < |sql| && sql[i] != q
      invariant start < i <= |sql|
      invariant i + QuotedTail(q, sql[i..]) == start + Masked(sql[start..])
    {
      assert sql[i..][1..] == sql[i + 1..];
      i := i + 1;
    }
    i := if i < |sql| then i + 1 else i;
  }

  /** Passes over the string, comment or quoted identifier at i, if there is one. */
  method SkipRegion(sql: string, i: nat) returns (j: nat)
    requires i < |sql|
    ensures j == i + Masked(sql[i..]) && j <= |sql|
  {
    var ch := sql[i];
    j := i;
    if ch == '\'' {
      j := SkipString(sql, i);
    } else if ch == '-' && i + 1 < |sql| && sql[i + 1] == '-' {
      j := FindLineEnd(sql, i);
    } else if ch == '/' && i + 1 < |sql| && sql[i + 1] == '*' {
      j := FindBlockEnd(sql, i);
    } else if ch == '"' || ch == '`' {
      j := SkipQuoted(sql, i);
    }
  }

  /** The names from index i on. */
  function NamesAt(sql: string, i: nat): seq<string>
    requires i <= |sql|
  {
    Names(BlockedAt(sql, i), sql[i..])
  }

  lemma NamesMasked(sql: string, i: nat)
    requires i < |sql| && Masked(sql[i..]) > 0
    ensures NamesAt(sql, i) == NamesAt(sql, i + Masked(sql[i..]))
  {
    var n := Masked(sql[i..]);
    assert sql[i..][n..] == sql[i + n..] && sql[i..][n - 1] == sql[i + n - 1];
  }

  lemma NamesPair(sql: string, i: nat)
    requires i + 1 < |sql| && sql[i] == ':' && sql[i + 1] == ':'
    ensures NamesAt(sql, i) == NamesAt(sql, i + 2)
  {
    assert sql[i..][2..] == sql[i + 2..];
  }

  lemma NamesBind(sql: string, i: nat)
    requires i < |sql| && BindLength(BlockedAt(sql, i), sql[i..]) > 0
    ensures var n := BindLength(BlockedAt(sql, i), sql[i..]);
      NamesAt(sql, i) == [Upper(sql[i + 1..i + n])] + NamesAt(sql, i + n)
  {
    var n := BindLength(BlockedAt(sql, i), sql[i..]);
    assert sql[i..][n..] == sql[i + n..] && sql[i..][1..n] == sql[i + 1..i + n] && sql[i..][n - 1] == sql[i + n - 1];
  }

  lemma NamesChar(sql: string, i: nat)
    requires i < |sql| && Masked(sql[i..]) == 0 && (sql[i] == ':' ==> BindLength(BlockedAt(sql, i), sql[i..]) == 0)
    requires !(sql[i] == ':' && i + 1 < |sql| && sql[i + 1] == ':')
    ensures NamesAt(sql, i) == NamesAt(sql, i + 1)
  {
    assert sql[i..][1..] == sql[i + 1..];
  }

  /** Collects the bind names of a statement. */
  method FindBindNames(sql: string) returns (names: seq<string>)
    ensures names == FindNames(sql)
  {
    hide Masked, BindLength, Upper, NamesAt;
    names := [];
    var i := 0;
    assert NamesAt(sql, 0) == FindNames(sql) by { NamesFromStart(sql); }
    while i < |sql|
      invariant 0 <= i <= |sql|
      invariant names + NamesAt(sql, i) == FindNames(sql)
      decreases |sql| - i
    {
      var j := SkipRegion(sql, i);
      if j > i {
        NamesMasked(sql, i);
        i := j;
      } else if sql[i] == ':' {
        if i + 1 < |sql| && sql[i + 1] == ':' {
          NamesPair(sql, i);
          i := i + 2;
          continue;
        }
        var n := BindLength(i > 0 && Blocks(sql[i - 1]), sql[i..]);
        if n > 0 {
          NamesBind(sql, i);
          names := names + [Upper(sql[i + 1..i + n])];
          i := i + n;
          continue;
        }
        NamesChar(sql, i);
        i := i + 1;
      } else {
        NamesChar(sql, i);
        i := i + 1;
      }
    }
    NamesAtEnd(sql);
  }

  lemma NamesFromStart(sql: string)
    ensures NamesAt(sql, 0) == FindNames(sql)
  {
    assert sql[0..] == sql;
  }

  lemma NamesAtEnd(sql: string)
    ensures NamesAt(sql, |sql|) == []
  {
  }

  // ---------------------------------------------------------------------
  // Substitution by regular expression
  // ---------------------------------------------------------------------

  /** The names a left-to-right regular-expression scan matches, strings and comments included. */
  function Matches(blocked: bool, s: string): seq<string>
    decreases |s|
  {
    if s == [] then []
    else if BindLength(blocked, s) > 0 then
      var n := BindLength(blocked, s);
      [Upper(s[1..n])] + Matches(Blocks(s[n - 1]), s[n..])
    else Matches(Blocks(s[0]), s[1..])
  }

  function Placeholder(name: string): string { "%(" + name + ")s" }

  function Substitute(blocked: bool, s: string): string
    decreases |s|
  {
    if s == [] then []
    else if BindLength(blocked, s) > 0 then
      var n := BindLength(blocked, s);
      Placeholder(Upper(s[1..n])) + Substitute(Blocks(s[n - 1]), s[n..])
    else [s[0]] + Substitute(Blocks(s[0]), s[1..])
  }

  /** The rewritten statement, and the names reported with it. */
  function ReplaceBinds(sql: string): (string, seq<string>) { (Substitute(false, sql), FindNames(sql)) }
}
