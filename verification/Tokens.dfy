/** SQL text written token by token, and that the scanners see the tokens: literals, comments, quoted
    identifiers, binds and separators. */
module Tokens {
  import opened Basics
  import opened Text
  import opened Scanner
  import opened ScannerLaws

  // ---------------------------------------------------------------------
  // Tokens
  // ---------------------------------------------------------------------

  /** A character of a bind name: a letter of either case, a digit, or one of underscore, dollar and hash. */
  datatype Symbol = Letter(index: nat, capital: bool) | Digit(digit: nat) | Mark(mark: nat) {
    predicate Valid() {
      match this
      case Letter(index, _) => index < 26
      case Digit(digit) => digit < 10
      case Mark(mark) => mark < 3
    }

    function Written(): char
      requires Valid()
    {
      match this
      case Letter(index, capital) =>
        if capital then ('A' as int + index) as char else ('a' as int + index) as char
      case Digit(digit) => ('0' as int + digit) as char
      case Mark(mark) => "_$#"[mark]
    }

    function Capital(): char
      requires Valid()
    {
      if Letter? then ('A' as int + index) as char else Written()
    }

    /** A letter or the underscore, which a name may start with. */
    predicate Starts() { Letter? || this == Mark(0) }
  }

  datatype Token =
    | Other(c: char)                       // a character that starts nothing
    | Dash
    | Slash
    | Separator
    | Quote(body: string)                  // a string literal
    | Line(body: string)                   // a comment up to the end of its line
    | Block(body: string)                  // a block comment
    | Stub                                 // slash-star-slash
    | Quoted(quote: char, body: string)    // a quoted identifier
    | Pair                                 // a double colon
    | Colon                                // a colon that starts no bind
    | Bind(name: seq<Symbol>)

  /** A string literal's body as it is written, its quotes doubled. */
  function Doubled(body: string): string {
    if body == [] then []
    else (if body[0] == '\'' then "''" else [body[0]]) + Doubled(body[1..])
  }

  predicate SymbolsValid(name: seq<Symbol>) { forall i :: 0 <= i < |name| ==> name[i].Valid() }

  function WrittenName(name: seq<Symbol>): (s: string)
    requires SymbolsValid(name)
    ensures |s| == |name|
  {
    seq(|name|, i requires 0 <= i < |name| => name[i].Written())
  }

  /** The name of a bind, in capitals. */
  function CapitalName(name: seq<Symbol>): (s: string)
    requires SymbolsValid(name)
    ensures |s| == |name|
  {
    seq(|name|, i requires 0 <= i < |name| => name[i].Capital())
  }

  predicate Wellformed(t: Token) { t.Bind? ==> SymbolsValid(t.name) && t.name != [] }

  function ShowToken(t: Token): string
    requires Wellformed(t)
  {
    match t
    case Other(c) => [c]
    case Dash => "-"
    case Slash => "/"
    case Separator => ";"
    case Quote(body) => "'" + Doubled(body) + "'"
    case Line(body) => "--" + body
    case Block(body) => "/*" + body + "*/"
    case Stub => "/*/"
    case Quoted(quote, body) => [quote] + body + [quote]
    case Pair => "::"
    case Colon => ":"
    case Bind(name) => ":" + WrittenName(name)
  }

  predicate AllWellformed(ts: seq<Token>) { forall i :: 0 <= i < |ts| ==> Wellformed(ts[i]) }

  function Show(ts: seq<Token>): string
    requires AllWellformed(ts)
  {
    if ts == [] then [] else ShowToken(ts[0]) + Show(ts[1..])
  }

  // ---------------------------------------------------------------------
  // Tokens that stay apart
  // ---------------------------------------------------------------------

  predicate Letterlike(c: char) { 'a' <= c <= 'z' || 'A' <= c <= 'Z' || c == '_' }
  predicate Digitlike(c: char) { '0' <= c <= '9' }
  predicate Wordlike(c: char) { Letterlike(c) || Digitlike(c) }
  predicate Namelike(c: char) { Wordlike(c) || c == '$' || c == '#' }

  /** A name may not start right behind a word character or a colon. */
  predicate Behind(before: string) { before != [] && (Wordlike(before[|before| - 1]) || before[|before| - 1] == ':') }

  /** What a token needs of the text around it not to run into it. */
  predicate Apart(blocked: bool, t: Token, rest: string)
    requires Wellformed(t)
  {
    match t
    case Other(c) => c !in "'\"`;:-/"
    case Dash => !(rest != [] && rest[0] == '-')
    case Slash => !(rest != [] && rest[0] == '*')
    case Separator => true
    case Quote(_) => !(rest != [] && rest[0] == '\'')
    case Line(body) => (forall i :: 0 <= i < |body| ==> body[i] != '\n') && (rest != [] ==> rest[0] == '\n')
    case Block(body) => forall i :: 0 <= i < |body| ==> !(("*" + body)[i] == '*' && body[i] == '/')
    case Stub => true
    case Quoted(quote, body) => quote in "\"`" && forall i :: 0 <= i < |body| ==> body[i] != quote
    case Pair => true
    case Colon =>
      !(rest != [] && (rest[0] == ':' || Digitlike(rest[0]) || (Letterlike(rest[0]) && !blocked)))
    case Bind(name) =>
      if name[0].Starts() then !blocked && !(rest != [] && Namelike(rest[0]))
      else (forall i :: 0 <= i < |name| ==> name[i].Digit?) && !(rest != [] && Digitlike(rest[0]))
  }

  predicate Valid(blocked: bool, ts: seq<Token>)
    decreases |ts|
  {
    && AllWellformed(ts)
    && (ts != [] ==> Apart(blocked, ts[0], Show(ts[1..])) && Valid(Behind(ShowToken(ts[0])), ts[1..]))
  }

  /** The names the tokens hold. */
  function NamesIn(ts: seq<Token>): seq<string>
    requires AllWellformed(ts)
  {
    if ts == [] then [] else (if ts[0].Bind? then [CapitalName(ts[0].name)] else []) + NamesIn(ts[1..])
  }

  lemma WrittenSymbol(x: Symbol)
    requires x.Valid()
    ensures Namelike(x.Written()) && UpperChar(x.Written()) == x.Capital()
    ensures (x.Starts() <==> Letterlike(x.Written())) && (x.Digit? <==> Digitlike(x.Written()))
  {
  }

  lemma SameClasses(c: char)
    ensures NameStart(c) == Letterlike(c) && IsDigit(c) == Digitlike(c) && NameChar(c) == Namelike(c)
    ensures Blocks(c) == (Wordlike(c) || c == ':')
  {
  }

  // ---------------------------------------------------------------------
  // Regions
  // ---------------------------------------------------------------------

  /** A literal is passed over whole, unless a quote follows it. */
  lemma {:induction false} QuoteTail(body: string, rest: string)
    requires !(rest != [] && rest[0] == '\'')
    ensures StringTail(Doubled(body) + ("'" + rest)) == |Doubled(body)| + 1
  {
    hide StringTail;
    var s := Doubled(body) + ("'" + rest);
    TailUnfold(s);
    if body == [] {
      NothingBefore("'" + rest);
      NextChar("'", rest);
    } else {
      var more := Doubled(body[1..]) + ("'" + rest);
      QuoteTail(body[1..], rest);
      if body[0] == '\'' {
        Associate("''", Doubled(body[1..]), "'" + rest);
        assert s[2..] == more;
      } else {
        Associate([body[0]], Doubled(body[1..]), "'" + rest);
        assert s[1..] == more;
      }
    }
  }

  lemma {:induction false} LineTail(body: string, rest: string)
    requires (forall i :: 0 <= i < |body| ==> body[i] != '\n') && (rest != [] ==> rest[0] == '\n')
    ensures LineEnd(body + rest) == |body|
  {
    if body == [] {
      assert body + rest == rest;
    } else {
      assert (body + rest)[1..] == body[1..] + rest;
      LineTail(body[1..], rest);
    }
  }

  /** The end of a comment body is found where it is written. */
  lemma {:induction false} BlockTail(before: char, body: string, rest: string)
    requires forall i :: 0 <= i < |body| ==> !(([before] + body)[i] == '*' && body[i] == '/')
    ensures BlockEnd([before] + body + ("*/" + rest)) == 1 + |body| + 2
    decreases |body|
  {
    var s := [before] + body + ("*/" + rest);
    if body == [] {
      assert s[1..] == "*/" + rest && s[1] == '*';
    } else {
      assert ([before] + body)[0] == before && s[1] == body[0];
      assert [body[0]] + body[1..] == body;
      forall i | 0 <= i < |body[1..]| ensures !(([body[0]] + body[1..])[i] == '*' && body[1..][i] == '/') {
        assert ([before] + body)[i + 1] == body[i];
      }
      BlockTail(body[0], body[1..], rest);
      assert s[1..] == [body[0]] + body[1..] + ("*/" + rest);
    }
  }

  lemma {:induction false} IdentifierTail(quote: char, body: string, rest: string)
    requires forall i :: 0 <= i < |body| ==> body[i] != quote
    ensures QuotedTail(quote, body + ([quote] + rest)) == |body| + 1
  {
    var s := body + ([quote] + rest);
    if body == [] {
      assert s == [quote] + rest;
    } else {
      assert s[1..] == body[1..] + ([quote] + rest);
      IdentifierTail(quote, body[1..], rest);
    }
  }

  predicate Region(t: Token) { t.Quote? || t.Line? || t.Block? || t.Stub? }

  lemma QuoteRegion(body: string, rest: string)
    requires !(rest != [] && rest[0] == '\'')
    ensures Opaque("'" + Doubled(body) + "'" + rest) == |Doubled(body)| + 2
  {
    hide Doubled, StringTail;
    var s := "'" + Doubled(body) + "'" + rest;
    QuoteTail(body, rest);
    assert s[1..] == Doubled(body) + ("'" + rest);
  }

  lemma StubRegion(rest: string)
    ensures Opaque("/*/" + rest) == 3
  {
    var s := "/*/" + rest;
    assert s[0] == '/' && s[1] == '*' && s[1..][0] == '*' && s[1..][1] == '/';
    assert BlockEnd(s) == 1 + BlockEnd(s[1..]);
  }

  /** Nothing opaque starts with any other character, or with a lone dash or slash. */
  lemma NoRegion(s: string)
    requires s != [] && s[0] != '\''
    requires s[0] == '-' ==> !(|s| > 1 && s[1] == '-')
    requires s[0] == '/' ==> !(|s| > 1 && s[1] == '*')
    ensures Opaque(s) == 0
  {
  }

  /** Literals and comments are regions of exactly their length; other tokens start none. */
  lemma RegionLength(blocked: bool, t: Token, rest: string)
    requires Wellformed(t) && Apart(blocked, t, rest)
    ensures Opaque(ShowToken(t) + rest) == if Region(t) then |ShowToken(t)| else 0
  {
    hide Opaque, Doubled;
    var s := ShowToken(t) + rest;
    match t
    case Quote(body) => QuoteRegion(body, rest);
    case Line(body) => LineRegion(body, rest);
    case Block(body) => BlockRegion(body, rest);
    case Stub => StubRegion(rest);
    case _ =>
      NextChar(ShowToken(t), rest);
      NoRegion(s);
  }

  lemma NextChar(x: string, rest: string)
    requires x != []
    ensures (x + rest)[0] == x[0]
    ensures |x| == 1 ==> |x + rest| == 1 + |rest| && (rest != [] ==> (x + rest)[1] == rest[0])
  {
  }

  lemma LineRegion(body: string, rest: string)
    requires (forall i :: 0 <= i < |body| ==> body[i] != '\n') && (rest != [] ==> rest[0] == '\n')
    ensures Opaque("--" + body + rest) == 2 + |body|
  {
    var s := "--" + body + rest;
    LineTail(body, rest);
    assert s[1..][1..] == body + rest;
    assert s[1..][0] == '-';
    assert LineEnd(s) == 1 + LineEnd(s[1..]);
  }

  lemma BlockRegion(body: string, rest: string)
    requires forall i :: 0 <= i < |body| ==> !(("*" + body)[i] == '*' && body[i] == '/')
    ensures Opaque("/*" + body + "*/" + rest) == |body| + 4
  {
    var s := "/*" + body + "*/" + rest;
    BlockTail('*', body, rest);
    assert s[1..] == ['*'] + body + ("*/" + rest);
    assert BlockEnd(s) == 1 + BlockEnd(s[1..]);
  }

  /** The bind scanner passes over quoted identifiers as well. */
  lemma MaskedLength(blocked: bool, t: Token, rest: string)
    requires Wellformed(t) && Apart(blocked, t, rest)
    ensures Masked(ShowToken(t) + rest) == if Region(t) || t.Quoted? then |ShowToken(t)| else 0
  {
    hide Opaque;
    var s := ShowToken(t) + rest;
    RegionLength(blocked, t, rest);
    if t.Quoted? {
      IdentifierTail(t.quote, t.body, rest);
      assert s[1..] == t.body + ([t.quote] + rest);
    } else {
      assert s[0] == ShowToken(t)[0];
    }
  }

  // ---------------------------------------------------------------------
  // Binds
  // ---------------------------------------------------------------------

  lemma {:induction false} NameRunEnds(name: string, rest: string)
    requires (forall i :: 0 <= i < |name| ==> NameChar(name[i])) && !(rest != [] && NameChar(rest[0]))
    ensures NameRun(name + rest) == |name|
  {
    if name == [] {
      assert name + rest == rest;
    } else {
      assert (name + rest)[1..] == name[1..] + rest;
      NameRunEnds(name[1..], rest);
    }
  }

  lemma {:induction false} DigitRunEnds(name: string, rest: string)
    requires (forall i :: 0 <= i < |name| ==> IsDigit(name[i])) && !(rest != [] && IsDigit(rest[0]))
    ensures DigitRun(name + rest) == |name|
  {
    if name == [] {
      assert name + rest == rest;
    } else {
      assert (name + rest)[1..] == name[1..] + rest;
      DigitRunEnds(name[1..], rest);
    }
  }

  lemma CapitalIsUpper(name: seq<Symbol>)
    requires SymbolsValid(name)
    ensures Upper(WrittenName(name)) == CapitalName(name)
  {
    forall i | 0 <= i < |name| ensures UpperChar(WrittenName(name)[i]) == CapitalName(name)[i] { WrittenSymbol(name[i]); }
  }

  /** A bind is exactly a colon and its name; no other token starts one. */
  lemma BindExtent(blocked: bool, t: Token, rest: string)
    requires Wellformed(t) && Apart(blocked, t, rest)
    ensures t.Bind? ==> BindLength(blocked, ShowToken(t) + rest) == |ShowToken(t)|
    ensures !t.Bind? ==> BindLength(blocked, ShowToken(t) + rest) == 0
  {
    var s := ShowToken(t) + rest;
    if t.Bind? {
      NameExtent(blocked, t.name, rest);
    } else if t.Colon? {
      if rest != [] {
        assert s[1] == rest[0];
        SameClasses(rest[0]);
      }
    } else if t.Pair? {
      assert s[1] == ':';
    } else {
      assert s[0] == ShowToken(t)[0];
    }
  }

  lemma NameExtent(blocked: bool, name: seq<Symbol>, rest: string)
    requires SymbolsValid(name) && name != [] && Apart(blocked, Bind(name), rest)
    ensures BindLength(blocked, ":" + WrittenName(name) + rest) == 1 + |name|
  {
    var w := WrittenName(name);
    var s := ":" + w + rest;
    assert s[1..] == w + rest && s[1] == w[0];
    forall i | 0 <= i < |name| ensures Namelike(w[i]) && (name[i].Digit? <==> Digitlike(w[i])) {
      WrittenSymbol(name[i]);
    }
    WrittenSymbol(name[0]);
    forall c: char ensures NameStart(c) == Letterlike(c) && IsDigit(c) == Digitlike(c) && NameChar(c) == Namelike(c) {
      SameClasses(c);
    }
    if name[0].Starts() { NameRunEnds(w, rest); } else { DigitRunEnds(w, rest); }
  }

  // ---------------------------------------------------------------------
  // The bind scanner
  // ---------------------------------------------------------------------

  /** One token of the scan. */
  lemma TokenNames(blocked: bool, t: Token, rest: string)
    requires Wellformed(t) && Apart(blocked, t, rest)
    ensures Names(blocked, ShowToken(t) + rest)
         == (if t.Bind? then [CapitalName(t.name)] else []) + Names(Behind(ShowToken(t)), rest)
  {
    hide Masked, BindLength, Names, Doubled, Upper;
    var x := ShowToken(t);
    var s := x + rest;
    MaskedLength(blocked, t, rest);
    BindExtent(blocked, t, rest);
    assert s[|x|..] == rest && s[|x| - 1] == x[|x| - 1];
    SameClasses(x[|x| - 1]);
    NamesStep(blocked, s);
    NothingBefore(Names(Behind(x), rest));
    StepOf(blocked, t, rest);
  }

  lemma StepOf(blocked: bool, t: Token, rest: string)
    requires Wellformed(t) && Apart(blocked, t, rest)
    ensures var s := ShowToken(t) + rest;
      && StepLength(blocked, s) == |ShowToken(t)|
      && StepNames(blocked, s) == if t.Bind? then [CapitalName(t.name)] else []
  {
    hide Masked, BindLength, Doubled, Upper;
    var x := ShowToken(t);
    var s := x + rest;
    MaskedLength(blocked, t, rest);
    BindExtent(blocked, t, rest);
    if !Region(t) && !t.Quoted? { PairsAre(blocked, t, rest); }
    if t.Bind? {
      assert s[1..|x|] == WrittenName(t.name);
      CapitalIsUpper(t.name);
    }
  }

  lemma PairsAre(blocked: bool, t: Token, rest: string)
    requires Wellformed(t) && Apart(blocked, t, rest) && !Region(t) && !t.Quoted?
    ensures ColonPair(ShowToken(t) + rest) <==> t.Pair?
  {
    var s := ShowToken(t) + rest;
    assert s[0] == ShowToken(t)[0];
    if t.Bind? {
      WrittenSymbol(t.name[0]);
      assert s[1] == WrittenName(t.name)[0];
    } else if t.Colon? && rest != [] {
      assert s[1] == rest[0];
    }
  }

  /** The bind scanner finds exactly the binds, in capitals and in order, wherever they stand among literals,
      comments, quoted identifiers and double colons. */
  lemma {:induction false} NamesOfTokens(blocked: bool, ts: seq<Token>)
    requires Valid(blocked, ts)
    ensures Names(blocked, Show(ts)) == NamesIn(ts)
    decreases |ts|
  {
    hide Names, Apart, ShowToken;
    if ts == [] {
      NoNamesBehind(blocked);
    } else {
      TokenNames(blocked, ts[0], Show(ts[1..]));
      NamesOfTokens(Behind(ShowToken(ts[0])), ts[1..]);
    }
  }

  lemma NoNamesBehind(blocked: bool)
    ensures Names(blocked, []) == []
  {
  }

  // ---------------------------------------------------------------------
  // The splitter
  // ---------------------------------------------------------------------

  /** Quoted identifiers hold nothing that the splitter sees. */
  predicate Splittable(t: Token) { t.Quoted? ==> forall i :: 0 <= i < |t.body| ==> t.body[i] !in "';-/" }

  predicate AllSplittable(ts: seq<Token>) { forall i :: 0 <= i < |ts| ==> Splittable(ts[i]) }

  /** The tokens before the first separator, and those behind it. */
  function Upto(ts: seq<Token>): (n: nat)
    ensures n <= |ts| && (n < |ts| ==> ts[n].Separator?)
    ensures forall i :: 0 <= i < n ==> !ts[i].Separator?
  {
    if ts == [] || ts[0].Separator? then 0 else 1 + Upto(ts[1..])
  }

  /** The statements the tokens make up: the texts between separators, trimmed, unless blank. */
  function StatementsOf(ts: seq<Token>): seq<string>
    requires AllWellformed(ts)
    decreases |ts|
  {
    var n := Upto(ts);
    var first := Strip(Show(ts[..n]));
    (if first == [] then [] else [first]) + if n < |ts| then StatementsOf(ts[n + 1..]) else []
  }

  /** A token that is no separator holds none for the splitter either. */
  lemma TokenCut(blocked: bool, t: Token, rest: string)
    requires Wellformed(t) && Apart(blocked, t, rest) && Splittable(t)
    ensures FirstSemicolon(ShowToken(t) + rest) == if t.Separator? then 0 else |ShowToken(t)| + FirstSemicolon(rest)
  {
    hide Opaque, Doubled, FirstSemicolon;
    var x := ShowToken(t);
    var s := x + rest;
    RegionLength(blocked, t, rest);
    assert s[|x|..] == rest && s[0] == x[0];
    if Region(t) || t.Separator? || t.Dash? || t.Slash? {
      SemicolonUnfold(s);
    } else {
      PlainToken(t);
      hide ShowToken;
      assert forall i :: 0 <= i < |x| ==> s[i] == x[i];
      PlainRun(s, |x|);
    }
  }

  lemma PlainToken(t: Token)
    requires Wellformed(t) && Splittable(t) && !Region(t) && !t.Separator? && !t.Dash? && !t.Slash?
    requires t.Other? ==> t.c !in "'\"`;:-/"
    requires t.Quoted? ==> t.quote in "\"`"
    ensures forall i :: 0 <= i < |ShowToken(t)| ==> PlainChar(ShowToken(t)[i])
  {
    var x := ShowToken(t);
    if t.Bind? {
      forall i | 0 < i < |x| ensures PlainChar(x[i]) {
        WrittenSymbol(t.name[i - 1]);
        assert x[i] == t.name[i - 1].Written();
      }
    }
  }

  /** The first separator is where it is written. */
  lemma {:induction false} FirstCut(blocked: bool, ts: seq<Token>)
    requires Valid(blocked, ts) && AllSplittable(ts)
    ensures FirstSemicolon(Show(ts)) == |Show(ts[..Upto(ts)])|
    ensures Upto(ts) < |ts| ==> Show(ts) == Show(ts[..Upto(ts)]) + (";" + Show(ts[Upto(ts) + 1..]))
    decreases |ts|
  {
    hide Apart, ShowToken, Splittable, FirstSemicolon;
    if ts == [] {
      NothingShown();
    } else {
      var t, rest := ts[0], ts[1..];
      TokenCut(blocked, t, Show(rest));
      if t.Separator? {
        assert ts[..0] == [];
        SeparatorShown(t);
        NothingShown();
        NothingBefore(";" + Show(rest));
      } else {
        FirstCut(Behind(ShowToken(t)), rest);
        var n := Upto(rest);
        assert ts[..n + 1][0] == t && ts[..n + 1][1..] == rest[..n];
        if n < |rest| {
          assert ts[n + 2..] == rest[n + 1..];
          Associate(ShowToken(t), Show(rest[..n]), ";" + Show(rest[n + 1..]));
        }
      }
    }
  }

  lemma SeparatorShown(t: Token)
    requires t.Separator?
    ensures ShowToken(t) == ";"
  {
  }

  lemma NothingShown()
    ensures Show([]) == [] && FirstSemicolon([]) == 0
  {
  }

  lemma {:induction false} ValidBehind(blocked: bool, ts: seq<Token>, n: nat)
    requires Valid(blocked, ts) && n < |ts|
    ensures Valid(Behind(ShowToken(ts[n])), ts[n + 1..])
    decreases n
  {
    hide Apart, ShowToken;
    if n > 0 {
      ValidBehind(Behind(ShowToken(ts[0])), ts[1..], n - 1);
      assert ts[1..][n..] == ts[n + 1..] && ts[1..][n - 1] == ts[n];
    }
  }

  lemma {:induction false} AllShown(ts: seq<Token>, n: nat)
    requires AllWellformed(ts) && n == |ts|
    ensures ts[..n] == ts
  {
  }

  /** The splitter finds exactly the statements between the separators. */
  lemma {:induction false} SplitOfTokens(blocked: bool, ts: seq<Token>)
    requires Valid(blocked, ts) && AllSplittable(ts)
    ensures Split(Show(ts)) == StatementsOf(ts)
    decreases |ts|
  {
    hide Apart, ShowToken, Splittable, FirstSemicolon, Split, Strip, Show;
    var s, n := Show(ts), Upto(ts);
    FirstCut(blocked, ts);
    SplitUnfold(s);
    if n < |ts| {
      var first, later := Show(ts[..n]), Show(ts[n + 1..]);
      CutParts(first, later);
      ValidBehind(blocked, ts, n);
      SplitOfTokens(Behind(ShowToken(ts[n])), ts[n + 1..]);
    } else {
      AllShown(ts, n);
      assert s[..|s|] == s;
    }
  }

  lemma CutParts(first: string, later: string)
    ensures var s := first + (";" + later); s[..|first|] == first && s[|first| + 1..] == later && |first| < |s|
  {
  }

  // ---------------------------------------------------------------------
  // The substitution
  // ---------------------------------------------------------------------

  /** Nothing the regular expression could match stands inside the token, nor a digit behind a double colon. */
  predicate Replaceable(t: Token, rest: string) {
    match t
    case Quote(body) => ':' !in body
    case Line(body) => ':' !in body
    case Block(body) => ':' !in body
    case Quoted(_, body) => ':' !in body
    case Pair => !(rest != [] && Digitlike(rest[0]))
    case _ => true
  }

  predicate AllReplaceable(ts: seq<Token>)
    requires AllWellformed(ts)
  {
    ts != [] ==> Replaceable(ts[0], Show(ts[1..])) && AllReplaceable(ts[1..])
  }

  /** Every bind as its placeholder, everything else as it stands. */
  function Rewritten(ts: seq<Token>): string
    requires AllWellformed(ts)
  {
    if ts == [] then []
    else (if ts[0].Bind? then "%(" + CapitalName(ts[0].name) + ")s" else ShowToken(ts[0])) + Rewritten(ts[1..])
  }

  lemma {:induction false} NoColonDoubled(body: string)
    requires ':' !in body
    ensures ':' !in Doubled(body)
  {
    if body != [] {
      assert body[0] in body && forall c :: c in body[1..] ==> c in body;
      NoColonDoubled(body[1..]);
    }
  }

  /** Text without colons is copied. */
  lemma {:induction false} Copied(blocked: bool, p: string, rest: string)
    requires p != [] && ':' !in p
    ensures Substitute(blocked, p + rest) == p + Substitute(Blocks(p[|p| - 1]), rest)
    decreases |p|
  {
    hide BindLength, Upper, Placeholder, Blocks;
    var s := p + rest;
    assert s[0] == p[0] && p[0] in p;
    NoColonNoBind(blocked, s);
    assert s[1..] == p[1..] + rest;
    if |p| > 1 {
      assert forall c :: c in p[1..] ==> c in p;
      Copied(Blocks(p[0]), p[1..], rest);
      Associate([p[0]], p[1..], Substitute(Blocks(p[|p| - 1]), rest));
      assert [p[0]] + p[1..] == p;
    } else {
      assert p[1..] + rest == rest && p == [p[0]];
    }
  }

  lemma NoColonNoBind(blocked: bool, s: string)
    requires s != [] && s[0] != ':'
    ensures BindLength(blocked, s) == 0
  {
  }

  lemma PairCopied(blocked: bool, rest: string)
    requires !(rest != [] && Digitlike(rest[0]))
    ensures Substitute(blocked, "::" + rest) == "::" + Substitute(true, rest)
  {
    hide Upper, Placeholder;
    var s := "::" + rest;
    assert s[1..] == ":" + rest && s[1..][1..] == rest;
    assert BindLength(blocked, s) == 0;
    if rest != [] { SameClasses(rest[0]); assert s[1..][1] == rest[0]; }
    assert BindLength(true, s[1..]) == 0;
  }

  lemma NoColonShown(t: Token, rest: string)
    requires Wellformed(t) && Replaceable(t, rest) && !t.Bind? && !t.Pair? && !t.Colon?
    requires (t.Other? ==> t.c != ':') && (t.Quoted? ==> t.quote != ':')
    ensures ':' !in ShowToken(t)
  {
    hide Doubled;
    if t.Quote? { NoColonDoubled(t.body); }
  }

  /** One token of the substitution. */
  lemma TokenReplaced(blocked: bool, t: Token, rest: string)
    requires Wellformed(t) && Apart(blocked, t, rest) && Replaceable(t, rest)
    ensures Substitute(blocked, ShowToken(t) + rest)
         == (if t.Bind? then "%(" + CapitalName(t.name) + ")s" else ShowToken(t)) + Substitute(Behind(ShowToken(t)), rest)
  {
    hide Substitute, BindLength, Upper, Doubled;
    var x := ShowToken(t);
    var s := x + rest;
    assert s[|x|..] == rest;
    SameClasses(x[|x| - 1]);
    if t.Bind? {
      BindExtent(blocked, t, rest);
      assert s[1..|x|] == WrittenName(t.name) && s[|x| - 1] == x[|x| - 1];
      CapitalIsUpper(t.name);
      SubstituteUnfold(blocked, s);
    } else if t.Pair? {
      PairCopied(blocked, rest);
    } else if t.Colon? {
      BindExtent(blocked, t, rest);
      SubstituteUnfold(blocked, s);
    } else {
      NoColonShown(t, rest);
      Copied(blocked, x, rest);
    }
  }

  lemma SubstituteUnfold(blocked: bool, s: string)
    requires s != []
    ensures var n := BindLength(blocked, s);
      Substitute(blocked, s) ==
        if n > 0 then Placeholder(Upper(s[1..n])) + Substitute(Blocks(s[n - 1]), s[n..])
        else [s[0]] + Substitute(Blocks(s[0]), s[1..])
  {
    hide BindLength, Upper, Placeholder, Blocks;
  }

  /** Substitution turns exactly the binds into placeholders and reports their names, if nothing inside
      literals, comments and quoted identifiers looks like a bind. */
  lemma {:induction false} ReplacedTokens(blocked: bool, ts: seq<Token>)
    requires Valid(blocked, ts) && AllReplaceable(ts)
    ensures Substitute(blocked, Show(ts)) == Rewritten(ts)
    decreases |ts|
  {
    hide Substitute, Apart, ShowToken, Replaceable;
    if ts == [] {
      NothingReplaced(blocked);
    } else {
      TokenReplaced(blocked, ts[0], Show(ts[1..]));
      ReplacedTokens(Behind(ShowToken(ts[0])), ts[1..]);
    }
  }

  lemma NothingReplaced(blocked: bool)
    ensures Substitute(blocked, []) == []
  {
  }

  /** What a text of tokens comes to: its bind names, its statements and its rewriting. */
  lemma ScannedTokens(ts: seq<Token>)
    requires Valid(false, ts)
    ensures FindNames(Show(ts)) == NamesIn(ts)
    ensures AllSplittable(ts) ==> Split(Show(ts)) == StatementsOf(ts)
    ensures AllReplaceable(ts) ==> ReplaceBinds(Show(ts)) == (Rewritten(ts), NamesIn(ts))
  {
    hide Names, Split, Substitute, Show, StatementsOf, Rewritten, NamesIn, AllReplaceable, Apart;
    NamesOfTokens(false, ts);
    if AllSplittable(ts) { SplitOfTokens(false, ts); }
    if AllReplaceable(ts) { ReplacedTokens(false, ts); }
  }
}
