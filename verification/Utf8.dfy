/** Text as code points, and its UTF-8 form. */
module Utf8 {
  import opened Basics

  /** The host language's characters are code points, the surrogates among them. */
  type Code = x: int | 0 <= x < 0x110000

  predicate Surrogate(c: Code) { 0xD800 <= c < 0xE000 }

  /** A text that has a UTF-8 form: no surrogates in it. */
  predicate Encodable(s: seq<Code>) { forall i :: 0 <= i < |s| ==> !Surrogate(s[i]) }

  function CharBytes(c: Code): (bs: seq<byte>)
    ensures 1 <= |bs| <= 4
  {
    if c < 0x80 then [c]
    else if c < 0x800 then [0xC0 + c / 64, 0x80 + c % 64]
    else if c < 0x10000 then [0xE0 + c / 4096, 0x80 + c / 64 % 64, 0x80 + c % 64]
    else [0xF0 + c / 262144, 0x80 + c / 4096 % 64, 0x80 + c / 64 % 64, 0x80 + c % 64]
  }

  function Bytes(s: seq<Code>): seq<byte> {
    if s == [] then [] else CharBytes(s[0]) + Bytes(s[1..])
  }

  /** The strict encoder: a surrogate is an error. */
  function Encode(s: seq<Code>): Option<seq<byte>> { if Encodable(s) then Some(Bytes(s)) else None }

  predicate Continuation(b: byte) { 0x80 <= b < 0xC0 }

  /** What a head and its continuation bytes spell. */
  function Two(a: int, b: int): int { (a - 0xC0) * 64 + (b - 0x80) }
  function Three(a: int, b: int, c: int): int { (a - 0xE0) * 4096 + (b - 0x80) * 64 + (c - 0x80) }
  function Four(a: int, b: int, c: int, d: int): int {
    (a - 0xF0) * 262144 + (b - 0x80) * 4096 + (c - 0x80) * 64 + (d - 0x80)
  }

  /** The character at the front of bs and its length: the shortest form of a code point that is no
      surrogate, or an error. */
  function DecodeChar(bs: seq<byte>): (r: Option<(Code, nat)>)
    ensures r.Some? ==> 1 <= r.value.1 <= |bs|
  {
    if bs == [] then None
    else if bs[0] < 0x80 then Some((bs[0], 1))
    else if 0xC2 <= bs[0] < 0xE0 && |bs| > 1 && Continuation(bs[1]) then Some((Two(bs[0], bs[1]), 2))
    else if 0xE0 <= bs[0] < 0xF0 && |bs| > 2 && Continuation(bs[1]) && Continuation(bs[2]) then
      var x := Three(bs[0], bs[1], bs[2]);
      if x < 0x800 || 0xD800 <= x < 0xE000 then None else Some((x, 3))
    else if 0xF0 <= bs[0] < 0xF5 && |bs| > 3 && Continuation(bs[1]) && Continuation(bs[2]) && Continuation(bs[3]) then
      var x := Four(bs[0], bs[1], bs[2], bs[3]);
      if x < 0x10000 || x >= 0x110000 then None else Some((x, 4))
    else None
  }

  /** The strict decoder. */
  function Decode(bs: seq<byte>): Option<seq<Code>> {
    if bs == [] then Some([])
    else
      match DecodeChar(bs)
      case None => None
      case Some((c, n)) =>
        match Decode(bs[n..])
        case None => None
        case Some(more) => Some([c] + more)
  }

  /** The bytes of a text. */
  predicate IsUtf8(bs: seq<byte>) { Decode(bs).Some? }

  lemma Shift(h: int, t: int)
    requires 0 <= t < 64
    ensures (h * 64 + t) / 64 == h && (h * 64 + t) % 64 == t
  {
  }

  lemma TwoDigits(c: int)
    ensures Two(0xC0 + c / 64, 0x80 + c % 64) == c
    ensures Three(0xE0 + c / 4096, 0x80 + c / 64 % 64, 0x80 + c % 64) == c
    ensures Four(0xF0 + c / 262144, 0x80 + c / 4096 % 64, 0x80 + c / 64 % 64, 0x80 + c % 64) == c
  {
    NestedDivision(c);
  }

  lemma CharDecodes(c: Code, tail: seq<byte>)
    requires !Surrogate(c)
    ensures DecodeChar(CharBytes(c) + tail) == Some((c, |CharBytes(c)|))
  {
    TwoDigits(c);
    hide Two, Three, Four;
    var bs := CharBytes(c);
    assert forall i :: 0 <= i < |bs| ==> (bs + tail)[i] == bs[i];
  }

  lemma Digits(a: int, b: int, c: int, d: int)
    requires 0x80 <= b < 0xC0 && 0x80 <= c < 0xC0 && 0x80 <= d < 0xC0
    ensures Two(a, b) / 64 == a - 0xC0 && Two(a, b) % 64 == b - 0x80
    ensures var x := Three(a, b, c); x / 4096 == a - 0xE0 && x / 64 % 64 == b - 0x80 && x % 64 == c - 0x80
    ensures var x := Four(a, b, c, d);
      x / 262144 == a - 0xF0 && x / 4096 % 64 == b - 0x80 && x / 64 % 64 == c - 0x80 && x % 64 == d - 0x80
  {
    Shift(a - 0xC0, b - 0x80);
    var ab := (a - 0xE0) * 64 + (b - 0x80);
    Shift(a - 0xE0, b - 0x80); Shift(ab, c - 0x80);
    assert Three(a, b, c) == ab * 64 + (c - 0x80);
    NestedDivision(ab * 64 + (c - 0x80));
    var h := (a - 0xF0) * 64 + (b - 0x80);
    var m := h * 64 + (c - 0x80);
    Shift(a - 0xF0, b - 0x80); Shift(h, c - 0x80); Shift(m, d - 0x80);
    assert Four(a, b, c, d) == m * 64 + (d - 0x80);
    NestedDivision(m * 64 + (d - 0x80));
  }

  lemma NestedDivision(x: int)
    ensures x / 4096 == x / 64 / 64 && x / 262144 == x / 64 / 64 / 64
  {
  }

  lemma CharEncodes(bs: seq<byte>)
    requires DecodeChar(bs).Some?
    ensures var (c, n) := DecodeChar(bs).value;
      !Surrogate(c) && CharBytes(c) == bs[..n]
  {
    if 0xC2 <= bs[0] < 0xE0 {
      Digits(bs[0], bs[1], 0x80, 0x80);
    } else if 0xE0 <= bs[0] < 0xF0 {
      Digits(bs[0], bs[1], bs[2], 0x80);
    } else if 0xF0 <= bs[0] {
      Digits(bs[0], bs[1], bs[2], bs[3]);
    }
    hide Two, Three, Four;
  }

  /** Decoding undoes encoding. */
  lemma {:induction false} EncodeDecode(s: seq<Code>)
    requires Encodable(s)
    ensures Decode(Bytes(s)) == Some(s)
  {
    if s != [] {
      hide DecodeChar, CharBytes, Surrogate;
      var head, rest := CharBytes(s[0]), Bytes(s[1..]);
      CharDecodes(s[0], rest);
      EncodeDecode(s[1..]);
      assert (head + rest)[|head|..] == rest;
      assert [s[0]] + s[1..] == s;
    }
  }

  /** And encoding undoes decoding, so that the bytes of a text stand for the text and for no other. */
  lemma {:induction false} DecodeEncode(bs: seq<byte>)
    requires IsUtf8(bs)
    ensures Encode(Decode(bs).value) == Some(bs)
  {
    if bs != [] {
      hide DecodeChar, CharBytes, Surrogate;
      var (c, n) := DecodeChar(bs).value;
      CharEncodes(bs);
      DecodeEncode(bs[n..]);
      var s := Decode(bs).value;
      assert s[1..] == Decode(bs[n..]).value;
      assert bs == bs[..n] + bs[n..];
    }
  }

  /** Plain ASCII is its own UTF-8 form. */
  lemma {:induction false} AsciiForm(s: seq<Code>)
    requires forall i :: 0 <= i < |s| ==> s[i] < 0x80
    ensures Encodable(s) && Bytes(s) == s
  {
    if s != [] { AsciiForm(s[1..]); }
  }
}
