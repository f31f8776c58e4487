/** The two handshake messages, which are answered before any function request. */
module Greetings {
  import opened Basics
  import opened BigEndian
  import opened Wire
  import opened Responses

  const MSG_PROTOCOL := 1
  const MSG_DATA_TYPES := 2

  function Banner(): string { "OracleBridge" + (" Proxy " + ("(compatibile " + "Oracle 26ai)")) }

  const AL32UTF8 := 873
  const FIELD_VERSION := 6

  /** So many zero bytes, one of them replaced. */
  function Caps(n: nat, at: nat, value: byte): (caps: seq<byte>)
    ensures |caps| == n
  {
    seq(n, i => if i == at then value else 0)
  }

  /** The character-set descriptor: 16 bytes with the national character set at 9 and 10. */
  function Descriptor(): (fdo: seq<byte>)
    ensures |fdo| == 16
  {
    seq(16, i => if i == 9 then AL32UTF8 / 256 else if i == 10 then AL32UTF8 % 256 else 0)
  }

  /** Character set, server flags, no elements. */
  const CHARSET: seq<byte> := [AL32UTF8 % 256, AL32UTF8 / 256, 0, 0, 0]

  function Capabilities(): seq<byte> { ByteString(Caps(55, 7, FIELD_VERSION)) + ByteString(Caps(11, 6, 4)) }

  /** Version, banner, character sets, capabilities of field version 6. */
  function ProtocolResponse(): seq<byte> {
    [MSG_PROTOCOL, 6, 0] + (AsciiBytes(Banner()) + ([0] + (CHARSET + ([0, 16] + (Descriptor() + Capabilities())))))
  }

  /** No conversions. */
  function DataTypesResponse(): seq<byte> { [MSG_DATA_TYPES, 0, 0] }

  /** The answer to a message of one of the two handshake types. */
  function GreetingBytes(kind: byte): seq<byte> {
    if kind == MSG_PROTOCOL then ProtocolResponse() else DataTypesResponse()
  }

  // ---------------------------------------------------------------------
  // The client's side
  // ---------------------------------------------------------------------

  datatype Greeting =
    | Protocol(version: byte, banner: seq<byte>, charset: int, descriptor: seq<byte>, compiled: Option<seq<byte>>,
               running: Option<seq<byte>>)
    | DataTypes(conversions: nat)

  function LittleEndian(low: nat, high: nat): nat { low + 256 * high }

  /** A text up to the zero byte that ends it. */
  function TakeTerminated(s: seq<byte>): (r: Reading<seq<byte>>)
    ensures r.Ok? ==> |r.value.1| < |s|
  {
    if s == [] then Err(Underrun)
    else if s[0] == 0 then Ok(([], s[1..]))
    else
      match TakeTerminated(s[1..])
      case Err(e) => Err(e)
      case Ok((more, rest)) => Ok(([s[0]] + more, rest))
  }

  function TakeCapabilities(s: seq<byte>): Reading<(Option<seq<byte>>, Option<seq<byte>>)> {
    match ReadBytes(s)
    case Err(e) => Err(e)
    case Ok((compiled, s1)) =>
      match ReadBytes(s1)
      case Err(e) => Err(e)
      case Ok((running, rest)) => Ok(((compiled, running), rest))
  }

  /** A character-set descriptor behind its two-byte length. */
  function TakeDescriptor(s: seq<byte>): Reading<seq<byte>> {
    match ReadFixed(s, 2)
    case Err(e) => Err(e)
    case Ok((n, s1)) => Take(s1, n)
  }

  function TakeProtocol(s: seq<byte>): Reading<Greeting> {
    match Take(s, 3)
    case Err(e) => Err(e)
    case Ok((head, s1)) =>
      if head[0] != MSG_PROTOCOL then Err(Malformed)
      else
        match TakeTerminated(s1)
        case Err(e) => Err(e)
        case Ok((banner, s2)) =>
          match Take(s2, 5)
          case Err(e) => Err(e)
          case Ok((charset, s3)) =>
            match Take(s3, 5 * LittleEndian(charset[3], charset[4]))
            case Err(e) => Err(e)
            case Ok((_, s4)) =>
              match TakeDescriptor(s4)
              case Err(e) => Err(e)
              case Ok((fdo, s5)) =>
                match TakeCapabilities(s5)
                case Err(e) => Err(e)
                case Ok(((compiled, running), rest)) =>
                  Ok((Protocol(head[1], banner, LittleEndian(charset[0], charset[1]), fdo, compiled, running), rest))
  }

  /** Conversions up to the data type zero; one that converts carries four more bytes. */
  function TakeConversions(s: seq<byte>): Reading<nat>
    decreases |s|
  {
    match ReadFixed(s, 2)
    case Err(e) => Err(e)
    case Ok((dataType, s1)) =>
      if dataType == 0 then Ok((0, s1))
      else
        match ReadFixed(s1, 2)
        case Err(e) => Err(e)
        case Ok((conversion, s2)) =>
          match Take(s2, if conversion != 0 then 4 else 0)
          case Err(e) => Err(e)
          case Ok((_, s3)) =>
            match TakeConversions(s3)
            case Err(e) => Err(e)
            case Ok((n, rest)) => Ok((n + 1, rest))
  }

  function TakeGreeting(kind: byte, s: seq<byte>): Reading<Greeting> {
    if kind == MSG_PROTOCOL then TakeProtocol(s)
    else
      match ReadU8(s)
      case Err(e) => Err(e)
      case Ok((tag, s1)) =>
        if tag != MSG_DATA_TYPES then Err(Malformed)
        else
          match TakeConversions(s1)
          case Err(e) => Err(e)
          case Ok((n, rest)) => Ok((DataTypes(n), rest))
  }

  /** What the server says of itself: field version 6, and no conversions. */
  function GreetingMeant(kind: byte): Greeting {
    if kind == MSG_PROTOCOL then
      Protocol(6, AsciiBytes(Banner()), AL32UTF8, Descriptor(), Some(Caps(55, 7, FIELD_VERSION)), Some(Caps(11, 6, 4)))
    else DataTypes(0)
  }

  lemma {:induction false} TerminatedRead(text: seq<byte>, tail: seq<byte>)
    requires forall i :: 0 <= i < |text| ==> text[i] != 0
    ensures TakeTerminated(text + ([0] + tail)) == Ok((text, tail))
  {
    var s := text + ([0] + tail);
    if text == [] {
      assert s == [0] + tail;
    } else {
      assert s[1..] == text[1..] + ([0] + tail);
      TerminatedRead(text[1..], tail);
      assert [text[0]] + text[1..] == text;
    }
  }

  lemma CapabilitiesRead(tail: seq<byte>)
    ensures TakeCapabilities(Capabilities() + tail)
         == Ok(((Some(Caps(55, 7, FIELD_VERSION)), Some(Caps(11, 6, 4))), tail))
  {
    hide ByteString, ReadBytes, Caps;
    var a, b := Caps(55, 7, FIELD_VERSION), Caps(11, 6, 4);
    Associate(ByteString(a), ByteString(b), tail);
    BytesRead(a, ByteString(b) + tail);
    BytesRead(b, tail);
  }

  lemma DescriptorRead(tail: seq<byte>)
    ensures TakeDescriptor([0, 16] + (Descriptor() + tail)) == Ok((Descriptor(), tail))
  {
    hide Descriptor;
    var s := [0, 16] + (Descriptor() + tail);
    assert s[..2] == [0, 16] && s[2..] == Descriptor() + tail;
    assert FromBytes([0, 16]) == 16 by { assert [0, 16][..1] == [0] && FromBytes([0]) == 0; }
    TakeFront(Descriptor(), tail);
  }

  predicate Visible(s: string) { forall i :: 0 <= i < |s| ==> ' ' <= s[i] <= '~' }

  lemma BannerPlain()
    ensures forall i :: 0 <= i < |AsciiBytes(Banner())| ==> AsciiBytes(Banner())[i] != 0
  {
    hide Visible;
    var a, b, c, d := "OracleBridge", " Proxy ", "(compatibile ", "Oracle 26ai)";
    VisibleWords();
    VisibleBoth(c, d); VisibleBoth(b, c + d); VisibleBoth(a, b + (c + d));
    NoZero(Banner());
  }

  lemma VisibleWords()
    ensures Visible("OracleBridge") && Visible(" Proxy ") && Visible("(compatibile ") && Visible("Oracle 26ai)")
  {
  }

  lemma VisibleBoth(a: string, b: string)
    requires Visible(a) && Visible(b)
    ensures Visible(a + b)
  {
  }

  lemma NoZero(s: string)
    requires Visible(s)
    ensures forall i :: 0 <= i < |AsciiBytes(s)| ==> AsciiBytes(s)[i] != 0
  {
  }

  lemma ProtocolRead(tail: seq<byte>)
    ensures TakeProtocol(ProtocolResponse() + tail) == Ok((GreetingMeant(MSG_PROTOCOL), tail))
  {
    hide AsciiBytes, Descriptor, Capabilities, TakeTerminated, TakeDescriptor, TakeCapabilities, Take;
    var c := Capabilities() + tail;
    var d := [0, 16] + (Descriptor() + c);
    var e := AsciiBytes(Banner()) + ([0] + (CHARSET + d));
    ProtocolLayout(tail);
    TakeFront([MSG_PROTOCOL, 6, 0], e);
    BannerPlain();
    TerminatedRead(AsciiBytes(Banner()), CHARSET + d);
    TakeFront(CHARSET, d);
    TakeFront([], d);
    NothingBefore(d);
    DescriptorRead(c);
    CapabilitiesRead(tail);
  }

  lemma ProtocolLayout(tail: seq<byte>)
    ensures ProtocolResponse() + tail
         == [MSG_PROTOCOL, 6, 0]
            + (AsciiBytes(Banner()) + ([0] + (CHARSET + ([0, 16] + (Descriptor() + (Capabilities() + tail))))))
  {
    hide AsciiBytes, Descriptor, Capabilities;
    var a, d, c := AsciiBytes(Banner()), Descriptor(), Capabilities();
    var four := [0, 16] + (d + c);
    var three := CHARSET + four;
    var two := [0] + three;
    Associate(d, c, tail);
    Associate([0, 16], d + c, tail);
    Associate(CHARSET, four, tail);
    Associate([0], three, tail);
    Associate(a, two, tail);
    Associate([MSG_PROTOCOL, 6, 0], a + two, tail);
  }

  /** The client reads both greetings as they are meant, up to any tail. */
  lemma GreetingRead(kind: byte, tail: seq<byte>)
    ensures TakeGreeting(kind, GreetingBytes(kind) + tail) == Ok((GreetingMeant(kind), tail))
  {
    hide ProtocolResponse, TakeProtocol;
    if kind == MSG_PROTOCOL {
      ProtocolRead(tail);
    } else {
      var s := GreetingBytes(kind) + tail;
      assert s[1..][..2] == [0, 0] && s[1..][2..] == tail;
      assert FromBytes([0, 0]) == 0 by { assert [0, 0][..1] == [0] && FromBytes([0]) == 0; }
    }
  }
}
