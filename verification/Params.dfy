/** Key/value parameters: read in the authentication requests, written in their responses. */
module Params {
  import opened Basics
  import opened Wire
  import opened Buffer
  import opened Messages
  import opened Responses

  /** The pairs a client sends in the authentication phases, later ones replacing earlier ones. */
  type Pairs = map<Text, (Text, int)>

  function ReadParam(s: seq<byte>): Reading<Param> {
    match ReadTextWithLength(s)
    case Err(e) => Err(e)
    case Ok((key, s1)) =>
      match ReadTextWithLength(s1)
      case Err(e) => Err(e)
      case Ok((value, s2)) =>
        match ReadVarint(s2, Some(4))
        case Err(e) => Err(e)
        case Ok((flags, s3)) => Ok((Param(key, value, flags), s3))
  }

  function ReadPairs(count: int, s: seq<byte>, pairs: Pairs): Reading<Pairs>
    decreases if count > 0 then count else 0
  {
    if count <= 0 then Ok((pairs, s))
    else
      match ReadParam(s)
      case Err(e) => Err(e)
      case Ok((p, rest)) => ReadPairs(count - 1, rest, pairs[p.key := (p.value, p.flags)])
  }

  /** Reads a run of pairs; a negative count reads none. */
  method ReadKvPairs(rdr: TTCReader, count: int) returns (r: Result<Pairs, BufferError>)
    requires rdr.Valid()
    modifies rdr
    ensures rdr.Valid() && old(rdr.pos) <= rdr.pos
    ensures match ReadPairs(count, old(rdr.Rest()), map[])
      case Ok((pairs, rest)) => r == Ok(pairs) && rdr.Rest() == rest
      case Err(e) => r == Err(e)
  {
    hide ReadVarint, ReadTextWithLength;
    var pairs: Pairs := map[];
    var i := 0;
    while i < count
      invariant rdr.Valid() && old(rdr.pos) <= rdr.pos
      invariant i <= Max(count, 0)
      invariant ReadPairs(count - i, rdr.Rest(), pairs) == ReadPairs(count, old(rdr.Rest()), map[])
    {
      var key :- rdr.StrWithLength();
      var value :- rdr.StrWithLength();
      var flags :- rdr.Varint(Some(4));
      pairs := pairs[key := (value, flags)];
      i := i + 1;
    }
    r := Ok(pairs);
  }

  datatype Param = Param(key: Text, value: Text, flags: int)

  function ParamFields(p: Param): seq<Field> { [Sized(p.key), Sized(p.value), UB(p.flags, 4)] }

  function ParamsFields(ps: seq<Param>): seq<Field> {
    if ps == [] then [] else ParamFields(ps[0]) + ParamsFields(ps[1..])
  }

  function Shown(t: Text): Text { if t.Some? then NonEmpty(t.value) else None }

  function Collect(ps: seq<Param>, pairs: Pairs): Pairs {
    if ps == [] then pairs
    else Collect(ps[1..], pairs[Shown(ps[0].key) := (Shown(ps[0].value), ps[0].flags)])
  }

  /** Parameters written as the authentication responses write them are read back by the key/value
      reader as the same dictionary, the last value of a repeated key winning. */
  lemma {:induction false} PairsRead(ps: seq<Param>, pairs: Pairs, tail: seq<byte>)
    requires AllPrintable(ParamsFields(ps))
    ensures ReadPairs(|ps|, PrintAll(ParamsFields(ps)) + tail, pairs) == Ok((Collect(ps, pairs), tail))
  {
    hide ReadParam, PrintAll, ParamFields;
    if ps == [] {
      EmptyPrint();
      assert PrintAll(ParamsFields(ps)) + tail == tail;
    } else {
      var p, more := ps[0], ParamsFields(ps[1..]);
      PrintableAppend(ParamFields(p), more);
      PrintAppend(ParamFields(p), more);
      var rest := PrintAll(more) + tail;
      ParamRead(p, rest);
      assert PrintAll(ParamsFields(ps)) + tail == PrintAll(ParamFields(p)) + rest;
      PairsRead(ps[1..], pairs[Shown(p.key) := (Shown(p.value), p.flags)], tail);
    }
  }

  lemma TextRead(t: Text, tail: seq<byte>)
    requires Printable(Sized(t))
    ensures ReadTextWithLength(TwoLengths(t) + tail) == Ok((Shown(t), tail))
  {
    hide TwoLengths, ReadTextWithLength, ReadBytesWithLength;
    TwoLengthsRead(t, tail);
    TextIsBytes(TwoLengths(t) + tail);
  }

  lemma ParamRead(p: Param, rest: seq<byte>)
    requires AllPrintable(ParamFields(p))
    ensures ReadParam(PrintAll(ParamFields(p)) + rest) == Ok((Param(Shown(p.key), Shown(p.value), p.flags), rest))
  {
    hide TwoLengths, Varint, ReadVarint, ReadTextWithLength;
    var fs := ParamFields(p);
    assert Printable(fs[0]) && Printable(fs[1]) && Printable(fs[2]);
    var flags := Varint(p.flags, 4) + rest;
    assert fs[1..] == [Sized(p.value), UB(p.flags, 4)] && fs[1..][1..] == [UB(p.flags, 4)];
    assert PrintAll([UB(p.flags, 4)]) == Varint(p.flags, 4) + [];
    assert PrintAll(fs) + rest == TwoLengths(p.key) + (TwoLengths(p.value) + flags);
    TextRead(p.key, TwoLengths(p.value) + flags);
    TextRead(p.value, flags);
    VarintRead(p.flags, 4, Some(4), rest);
  }

  // ---------------------------------------------------------------------
  // The parameter message and the responses that carry it
  // ---------------------------------------------------------------------

  function ParamMessage(ps: seq<Param>): seq<Field> {
    [U8(MSG_PARAMETER), UB(|ps|, 2)] + ParamsFields(ps)
  }

  method WriteParam(w: TTCWriter, p: Param) returns (ok: Outcome)
    requires w.Valid()
    modifies w
    ensures w.Valid()
    ensures ok.Pass? <==> AllPrintable(ParamFields(p))
    ensures ok.Pass? ==> w.Fields() == old(w.Fields()) + ParamFields(p)
  {
    hide TTCWriter.Valid;
    w.Group();
    var fs := ParamFields(p);
    assert AllPrintable(fs) <==> Printable(fs[0]) && Printable(fs[1]) && Printable(fs[2]);
    :- w.TwoLengths(p.key);
    :- w.TwoLengths(p.value);
    :- w.UB(p.flags, 4);
    return Pass;
  }

  lemma {:induction false} ParamsStep(ps: seq<Param>, i: nat)
    requires i < |ps|
    ensures ParamsFields(ps[..i + 1]) == ParamsFields(ps[..i]) + ParamFields(ps[i])
  {
    hide ParamFields;
    if i == 0 {
      assert ps[..1] == [ps[0]] && ps[..0] == [];
      assert ParamsFields([ps[0]]) == ParamFields(ps[0]) + ParamsFields([]);
    } else {
      ParamsStep(ps[1..], i - 1);
      assert ps[..i + 1][1..] == ps[1..][..i] && ps[..i][1..] == ps[1..][..i - 1];
    }
  }

  lemma {:induction false} ParamsPrintable(ps: seq<Param>)
    requires forall i :: 0 <= i < |ps| ==> AllPrintable(ParamFields(ps[i]))
    ensures AllPrintable(ParamsFields(ps))
  {
    hide ParamFields;
    if ps != [] {
      ParamsPrintable(ps[1..]);
      PrintableAppend(ParamFields(ps[0]), ParamsFields(ps[1..]));
    }
  }

  predicate ParamsFit(ps: seq<Param>) {
    VarintFits(|ps|, 2) && forall i :: 0 <= i < |ps| ==> AllPrintable(ParamFields(ps[i]))
  }

  method WriteParamMessage(w: TTCWriter, ps: seq<Param>) returns (ok: Outcome)
    requires w.Valid()
    modifies w
    ensures w.Valid()
    ensures ok.Pass? <==> ParamsFit(ps)
    ensures ok.Pass? ==> w.Fields() == old(w.Fields()) + ParamMessage(ps)
  {
    hide TTCWriter.Valid, VarintFits, ParamFields, AllPrintable;
    w.Group();
    ghost var f := w.closed;
    ghost var head: seq<Field> := [U8(MSG_PARAMETER), UB(|ps|, 2)];
    w.U8(MSG_PARAMETER);
    :- w.UB(|ps|, 2);
    assert w.Fields() == f + head + ParamsFields(ps[..0]);
    var i := 0;
    while i < |ps|
      invariant 0 <= i <= |ps| && w.Valid()
      invariant forall k :: 0 <= k < i ==> AllPrintable(ParamFields(ps[k]))
      invariant w.Fields() == f + head + ParamsFields(ps[..i])
    {
      :- WriteParam(w, ps[i]);
      ParamsStep(ps, i);
      Associate(f + head, ParamsFields(ps[..i]), ParamFields(ps[i]));
      i := i + 1;
    }
    assert ps[..i] == ps;
    Associate(f, head, ParamsFields(ps));
    return Pass;
  }

  /** An authentication response: parameters, then the message that closes it. */
  function TakeAuth(s: seq<byte>): Reading<(Pairs, Message)> {
    match ReadFields([AU8, AnUB(2)], s)
    case Err(e) => Err(e)
    case Ok((head, s1)) =>
      if Num(head[0]) != MSG_PARAMETER then Err(Malformed)
      else
        match ReadPairs(Num(head[1]), s1, map[])
        case Err(e) => Err(e)
        case Ok((pairs, s2)) =>
          match TakeMessages(0, s2)
          case Err(e) => Err(e)
          case Ok((ms, rest)) => if |ms| == 1 then Ok(((pairs, ms[0]), rest)) else Err(Malformed)
  }

  function ReadAuthResponse(s: seq<byte>): Result<(Pairs, Message), BufferError> { Whole(TakeAuth(s)) }

  lemma PartsPrintable(ps: seq<Param>)
    requires ParamsFit(ps)
    ensures Printable(UB(|ps|, 2)) && AllPrintable([U8(MSG_PARAMETER), UB(|ps|, 2)]) && AllPrintable(ParamsFields(ps))
  {
    hide VarintFits, ParamFields;
    ParamsPrintable(ps);
  }

  lemma AuthLayout(ps: seq<Param>, last: Message)
    requires ParamsFit(ps) && MessageFits(last)
    ensures AllPrintable(ParamsFields(ps)) && AllPrintable(MessageFields(last))
    ensures AllPrintable([U8(MSG_PARAMETER), UB(|ps|, 2)])
    ensures AllPrintable(ParamMessage(ps) + MessageFields(last))
    ensures PrintAll(ParamMessage(ps) + MessageFields(last))
         == PrintAll([U8(MSG_PARAMETER), UB(|ps|, 2)]) + (PrintAll(ParamsFields(ps)) + PrintAll(MessageFields(last)))
  {
    hide PrintAll, AllPrintable, MessageFits, MessageFields, ParamsFit, ParamsFields;
    PartsPrintable(ps);
    MessagePrintable(last);
    LayoutThree([U8(MSG_PARAMETER), UB(|ps|, 2)], ParamsFields(ps), MessageFields(last));
  }

  lemma LayoutThree(a: seq<Field>, b: seq<Field>, c: seq<Field>)
    requires AllPrintable(a) && AllPrintable(b) && AllPrintable(c)
    ensures AllPrintable(a + b + c) && PrintAll(a + b + c) == PrintAll(a) + (PrintAll(b) + PrintAll(c))
  {
    hide PrintAll;
    PrintableAppend(a, b);
    PrintableAppend(a + b, c);
    PrintAppend(a, b);
    PrintAppend(a + b, c);
  }

  /** Both authentication responses are read back: the same dictionary, then one closing message. */
  lemma AuthRoundTrip(ps: seq<Param>, last: Message)
    requires ParamsFit(ps) && MessageFits(last) && Closes(last)
    ensures AllPrintable(ParamMessage(ps) + MessageFields(last))
    ensures ReadAuthResponse(PrintAll(ParamMessage(ps) + MessageFields(last))) == Ok((Collect(ps, map[]), last))
  {
    hide ReadFields, PrintAll, ReadPairs, TakeMessages, MessageFits, MessageFields, VarintFits, ParamsFields, ParamMessage;
    var head: seq<Field> := [U8(MSG_PARAMETER), UB(|ps|, 2)];
    var close := MessageFields(last);
    AuthLayout(ps, last);
    FieldsRead(head, PrintAll(ParamsFields(ps)) + PrintAll(close));
    assert ShapesOf(head) == [AU8, AnUB(2)];
    PairsRead(ps, map[], PrintAll(close));
    OneMessage(last);
    MessagesRead(0, [last], []);
    NothingAfter(PrintAll(close));
    assert SeenAll([last]) == [last];
  }

  /** The bytes of an authentication response: parameters, then ERROR(0) after the first phase, STATUS
      after the second. */
  function AuthEncoding(ps: seq<Param>, firstPhase: bool): Option<seq<byte>> {
    if ParamsFit(ps) then
      AuthRoundTrip(ps, Closing(firstPhase));
      Some(PrintAll(ParamMessage(ps) + MessageFields(Closing(firstPhase))))
    else None
  }

  function Closing(firstPhase: bool): (m: Message)
    ensures MessageFits(m) && Closes(m)
  {
    ConstantsFit();
    if firstPhase then Error(MoreRows(0)) else Status
  }

  method AuthResponse(ps: seq<Param>, firstPhase: bool) returns (r: Option<seq<byte>>)
    ensures r == AuthEncoding(ps, firstPhase)
  {
    hide TTCWriter.Valid, PrintAll, ParamMessage, ParamsFit;
    ConstantsFit();
    var w := new TTCWriter();
    var ok := WriteParamMessage(w, ps);
    if ok.Raise? {
      return None;
    }
    ghost var f := w.Fields();
    assert f == ParamMessage(ps);
    if firstPhase {
      var _ := WriteError(w, MoreRows(0));
    } else {
      w.Group();
      w.U8(MSG_STATUS);
      w.Zero(4);
      w.Zero(2);
      assert w.group == MessageFields(Status);
    }
    var bytes := w.GetValue();
    PrintableFields(w);
    r := Some(bytes);
  }
}
