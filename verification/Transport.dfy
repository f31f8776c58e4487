/** The TNS layer: packets over a byte stream that arrives in arbitrary pieces. */
module Transport {
  import opened Basics
  import opened PlaceValue
  import opened BigEndian

  const CONNECT: byte := 1
  const ACCEPT: byte := 2
  const DATA: byte := 6
  const MARKER: byte := 12

  const RESET: byte := 2

  const HEADER_SIZE := 8
  const SDU_SIZE := 8192

  // ---------------------------------------------------------------------
  // Packets
  // ---------------------------------------------------------------------

  /** payload is missing when the stream ended inside the packet. */
  datatype Packet = Packet(ptype: byte, payload: Option<seq<byte>>, flags: byte, dataFlags: nat)

  /** Nothing more to read, a DATA packet too short for its flags, or a packet. */
  datatype Arrival = Closed | Malformed | Arrived(packet: Packet)

  /** A packet's bytes, unless its length does not fit the header. */
  function BuildPacket(ptype: byte, payload: seq<byte>, flags: byte, wide: bool): (r: Option<seq<byte>>)
    ensures r.Some? <==> HEADER_SIZE + |payload| < if wide then 0x1_0000_0000 else 0x1_0000
    ensures r.Some? ==> |r.value| == HEADER_SIZE + |payload|
  {
    var total := HEADER_SIZE + |payload|;
    if wide then
      if total < 0x1_0000_0000 then Some(ToBytes(total, 4) + [ptype, flags, 0, 0] + payload) else None
    else
      if total < 0x1_0000 then Some(ToBytes(total, 2) + [0, 0, ptype, flags, 0, 0] + payload) else None
  }

  function BuildDataPacket(chunk: seq<byte>, dataFlags: nat, wide: bool): Option<seq<byte>> {
    if dataFlags >= 0x1_0000 then None else BuildPacket(DATA, ToBytes(dataFlags, 2) + chunk, 0, wide)
  }

  function DeclaredLength(header: seq<byte>, wide: bool): nat
    requires |header| == HEADER_SIZE
  {
    FromBytes(header[..if wide then 4 else 2])
  }

  /** What a header says follows it; a length that does not cover the header itself counts as none. */
  function PayloadLength(header: seq<byte>, wide: bool): nat
    requires |header| == HEADER_SIZE
  {
    Max(DeclaredLength(header, wide) - HEADER_SIZE, 0)
  }

  /** The packet made of a header and the payload read after it. */
  function Interpret(header: seq<byte>, payload: Option<seq<byte>>): Arrival
    requires |header| == HEADER_SIZE
  {
    if header[4] == DATA && payload.Some? && payload.value != [] then
      if |payload.value| < 2 then Malformed
      else Arrived(Packet(DATA, Some(payload.value[2..]), header[5], FromBytes(payload.value[..2])))
    else Arrived(Packet(header[4], payload, header[5], 0))
  }

  /** The first packet of a stream, and what is left of the stream. */
  function Parse(stream: seq<byte>, wide: bool): (r: (Arrival, seq<byte>))
    ensures r.0.Closed? ==> r.1 == stream
    ensures !r.0.Closed? ==> |r.1| <= |stream| - HEADER_SIZE
  {
    if |stream| < HEADER_SIZE then (Closed, stream)
    else
      var header, rest := stream[..HEADER_SIZE], stream[HEADER_SIZE..];
      var n := PayloadLength(header, wide);
      if n > |rest| then (Interpret(header, None), rest) else (Interpret(header, Some(rest[..n])), rest[n..])
  }

  lemma Widths()
    ensures Pow(256, 2) == 0x1_0000 && Pow(256, 4) == 0x1_0000_0000
  {
  }

  /** A packet built is read back as it was, wherever it stands in a stream. */
  lemma PacketRead(ptype: byte, payload: seq<byte>, flags: byte, wide: bool, tail: seq<byte>)
    requires BuildPacket(ptype, payload, flags, wide).Some?
    ensures var bytes, (arrival, rest) := BuildPacket(ptype, payload, flags, wide).value,
                                          Parse(BuildPacket(ptype, payload, flags, wide).value + tail, wide);
      rest == tail && arrival == Interpret(bytes[..HEADER_SIZE], Some(payload)) && bytes[4] == ptype && bytes[5] == flags
  {
    var bytes := BuildPacket(ptype, payload, flags, wide).value;
    var stream, width := bytes + tail, if wide then 4 else 2;
    Widths();
    RoundTrip(|bytes|, width);
    assert stream[..HEADER_SIZE] == bytes[..HEADER_SIZE];
    assert bytes[..HEADER_SIZE][..width] == ToBytes(|bytes|, width);
    assert stream[HEADER_SIZE..] == payload + tail;
    assert (payload + tail)[..|payload|] == payload && (payload + tail)[|payload|..] == tail;
  }

  /** Data comes back from a DATA packet together with its flags. */
  lemma DataPacketRead(chunk: seq<byte>, dataFlags: nat, wide: bool, tail: seq<byte>)
    requires BuildDataPacket(chunk, dataFlags, wide).Some?
    ensures Parse(BuildDataPacket(chunk, dataFlags, wide).value + tail, wide)
         == (Arrived(Packet(DATA, Some(chunk), 0, dataFlags)), tail)
  {
    Widths();
    var payload := ToBytes(dataFlags, 2) + chunk;
    RoundTrip(dataFlags, 2);
    PacketRead(DATA, payload, 0, wide, tail);
    assert payload[2..] == chunk && payload[..2] == ToBytes(dataFlags, 2);
  }

  /** Any other packet comes back whole. */
  lemma OtherPacketRead(ptype: byte, payload: seq<byte>, flags: byte, wide: bool, tail: seq<byte>)
    requires BuildPacket(ptype, payload, flags, wide).Some? && ptype != DATA
    ensures Parse(BuildPacket(ptype, payload, flags, wide).value + tail, wide)
         == (Arrived(Packet(ptype, Some(payload), flags, 0)), tail)
  {
    PacketRead(ptype, payload, flags, wide, tail);
  }

  // ---------------------------------------------------------------------
  // Reading from a socket
  // ---------------------------------------------------------------------

  /** The socket's side: the pieces in which the rest of the stream will arrive, then its end. */
  class StreamReader {
    var segments: seq<seq<byte>>

    constructor (segments: seq<seq<byte>>)
      ensures this.segments == segments
    {
      this.segments := segments;
    }

    method Read() returns (data: seq<byte>)
      modifies this
      ensures old(segments) == [] ==> data == [] && segments == []
      ensures old(segments) != [] ==> data == old(segments)[0] && segments == old(segments)[1..]
    {
      data := [];
      if segments != [] {
        data, segments := segments[0], segments[1..];
      }
    }
  }

  class SocketReader {
    const reader: StreamReader
    var buf: seq<byte>

    constructor (reader: StreamReader)
      ensures this.reader == reader && buf == []
    {
      this.reader, this.buf := reader, [];
    }

    /** Only the end of the stream reads as no bytes. */
    ghost predicate Valid()
      reads reader
    {
      forall i :: 0 <= i < |reader.segments| ==> reader.segments[i] != []
    }

    /** Everything not yet handed out. */
    ghost function Pending(): seq<byte>
      reads this, reader
    {
      buf + Flatten(reader.segments)
    }

    /** The next n bytes however they were split up, or nothing at all when fewer are left. */
    method ReadExact(n: nat) returns (r: Option<seq<byte>>)
      requires Valid()
      modifies this`buf, reader
      ensures Valid()
      ensures r == if n <= |old(Pending())| then Some(old(Pending())[..n]) else None
      ensures Pending() == if r.Some? then old(Pending())[n..] else old(Pending())
    {
      while |buf| < n
        invariant Valid() && Pending() == old(Pending())
        decreases |reader.segments|
      {
        ghost var before, coming := buf, reader.segments;
        var data := reader.Read();
        if data == [] {
          return None;
        }
        buf := buf + data;
        assert before + Flatten(coming) == (before + coming[0]) + Flatten(coming[1..]);
      }
      ghost var held, coming := buf, Flatten(reader.segments);
      r, buf := Some(buf[..n]), buf[n..];
      assert (held + coming)[..n] == held[..n] && (held + coming)[n..] == held[n..] + coming;
    }
  }

  /** Reads one packet. */
  method ReadPacket(rdr: SocketReader, wide: bool) returns (arrival: Arrival)
    requires rdr.Valid()
    modifies rdr`buf, rdr.reader
    ensures rdr.Valid()
    ensures (arrival, rdr.Pending()) == Parse(old(rdr.Pending()), wide)
  {
    var header := rdr.ReadExact(HEADER_SIZE);
    if header.None? {
      return Closed;
    }
    var length := FromBytes(if wide then header.value[..4] else header.value[..2]);
    var ptype, flags := header.value[4], header.value[5];
    var payloadLength := length - HEADER_SIZE;
    if payloadLength < 0 {
      payloadLength := 0;
    }
    var payload := Some([]);
    if payloadLength != 0 {
      payload := rdr.ReadExact(payloadLength);
    }
    var dataFlags := 0;
    if ptype == DATA && payload.Some? && payload.value != [] {
      if |payload.value| < 2 {
        return Malformed;
      }
      dataFlags := FromBytes(payload.value[..2]);
      payload := Some(payload.value[2..]);
    }
    arrival := Arrived(Packet(ptype, payload, flags, dataFlags));
  }

  // ---------------------------------------------------------------------
  // Sending a response
  // ---------------------------------------------------------------------

  const CHUNK_SIZE := SDU_SIZE - 16

  /** A response cut into pieces, each as long as a packet may carry but the last. */
  function Chunked(data: seq<byte>): (chunks: seq<seq<byte>>)
    ensures forall i :: 0 <= i < |chunks| ==> 0 < |chunks[i]| <= CHUNK_SIZE
    ensures |chunks| == (|data| + CHUNK_SIZE - 1) / CHUNK_SIZE
  {
    if data == [] then []
    else
      var n := Min(CHUNK_SIZE, |data|);
      [data[..n]] + Chunked(data[n..])
  }

  lemma {:induction false} ChunkedWhole(data: seq<byte>)
    ensures Flatten(Chunked(data)) == data
    decreases |data|
  {
    if data != [] {
      var n := Min(CHUNK_SIZE, |data|);
      ChunkedWhole(data[n..]);
      assert Chunked(data)[1..] == Chunked(data[n..]);
    }
  }

  lemma NoChunks()
    ensures Chunked([]) == []
  {
  }

  lemma ChunkedStep(before: seq<seq<byte>>, rest: seq<byte>)
    requires rest != []
    ensures var n := Min(CHUNK_SIZE, |rest|);
      before + Chunked(rest) == (before + [rest[..n]]) + Chunked(rest[n..])
  {
    var n := Min(CHUNK_SIZE, |rest|);
    Associate(before, [rest[..n]], Chunked(rest[n..]));
  }

  method Chunks(data: seq<byte>) returns (chunks: seq<seq<byte>>)
    ensures chunks == Chunked(data)
  {
    hide Chunked;
    NoChunks();
    chunks := [];
    var i := 0;
    assert data[0..] == data;
    while i < |data|
      invariant 0 <= i
      invariant chunks + Chunked(if i <= |data| then data[i..] else []) == Chunked(data)
      decreases |data| - i
    {
      var end := Min(i + CHUNK_SIZE, |data|);
      ChunkedStep(chunks, data[i..]);
      assert data[i..][..end - i] == data[i..end] && data[i..][end - i..] == data[end..];
      chunks := chunks + [data[i..end]];
      i := i + CHUNK_SIZE;
    }
  }

  /** One chunk as a DATA packet. */
  function Framed(chunk: seq<byte>): (packet: seq<byte>)
    requires |chunk| <= CHUNK_SIZE
    ensures |packet| == HEADER_SIZE + 2 + |chunk| <= SDU_SIZE
  {
    BuildDataPacket(chunk, 0, true).value
  }

  function FramedAll(chunks: seq<seq<byte>>): seq<byte>
    requires forall i :: 0 <= i < |chunks| ==> |chunks[i]| <= CHUNK_SIZE
  {
    if chunks == [] then [] else Framed(chunks[0]) + FramedAll(chunks[1..])
  }

  /** A response as it goes over the wire. */
  function Sent(response: seq<byte>): seq<byte> { FramedAll(Chunked(response)) }

  class StreamWriter {
    var sent: seq<byte>

    constructor ()
      ensures sent == []
    {
      sent := [];
    }

    method Write(data: seq<byte>)
      modifies this
      ensures sent == old(sent) + data
    {
      sent := sent + data;
    }
  }

  lemma {:induction false} FramedAppend(chunks: seq<seq<byte>>, last: seq<byte>)
    requires forall i :: 0 <= i < |chunks| ==> |chunks[i]| <= CHUNK_SIZE
    requires |last| <= CHUNK_SIZE
    ensures FramedAll(chunks + [last]) == FramedAll(chunks) + Framed(last)
  {
    hide Framed;
    if chunks == [] {
      assert [] + [last] == [last] && FramedAll([]) + Framed(last) == Framed(last) + FramedAll([]);
      assert [last][1..] == [];
    } else {
      assert (chunks + [last])[1..] == chunks[1..] + [last];
      FramedAppend(chunks[1..], last);
    }
  }

  /** Writes a response chunk by chunk. */
  method SendResponse(writer: StreamWriter, response: seq<byte>)
    modifies writer
    ensures writer.sent == old(writer.sent) + Sent(response)
  {
    hide Chunked, Framed, FramedAll;
    var chunks := Chunks(response);
    assert FramedAll([]) == [] by { FramedNone(); }
    for i := 0 to |chunks|
      invariant writer.sent == old(writer.sent) + FramedAll(chunks[..i])
    {
      assert chunks[..i + 1] == chunks[..i] + [chunks[i]];
      FramedAppend(chunks[..i], chunks[i]);
      var packet := DataPacket(chunks[i]);
      writer.Write(packet);
    }
    assert chunks[..|chunks|] == chunks;
  }

  lemma FramedNone()
    ensures FramedAll([]) == []
  {
  }

  method DataPacket(chunk: seq<byte>) returns (packet: seq<byte>)
    requires |chunk| <= CHUNK_SIZE
    ensures packet == Framed(chunk)
  {
    packet := BuildDataPacket(chunk, 0, true).value;
  }

  // ---------------------------------------------------------------------
  // Serving a client
  // ---------------------------------------------------------------------

  /** What the session makes of a payload. */
  datatype Handled = Respond(bytes: seq<byte>, last: bool) | Silent | Raised

  function ResetPacket(): seq<byte> { BuildPacket(MARKER, [1, 0, RESET], 0, true).value }

  function MarkerOf(payload: seq<byte>): byte { if |payload| > 2 then payload[2] else 0 }

  /** The bytes written for a client stream. answer is the session: its reply to the last of the payloads
      it has been given, which may depend on all of them; cancel is the message that confirms a reset. A
      packet without its payload, like any failure, ends the connection. */
  function ServeStream(answer: seq<seq<byte>> -> Handled, cancel: seq<byte>, past: seq<seq<byte>>,
                       stream: seq<byte>): seq<byte>
    decreases |stream|
  {
    var (arrival, rest) := Parse(stream, true);
    if !arrival.Arrived? || arrival.packet.payload.None? then []
    else
      var payload := arrival.packet.payload.value;
      if arrival.packet.ptype == MARKER then
        ResetPacket() +
        if MarkerOf(payload) != RESET then ServeStream(answer, cancel, past, rest)
        else
          match BuildDataPacket(cancel, 0, true)
          case None => []
          case Some(packet) => packet + ServeStream(answer, cancel, past, rest)
      else if arrival.packet.ptype != DATA then ServeStream(answer, cancel, past, rest)
      else
        match answer(past + [payload])
        case Raised => []
        case Silent => ServeStream(answer, cancel, past + [payload], rest)
        case Respond(bytes, last) => Sent(bytes) + if last then [] else ServeStream(answer, cancel, past + [payload], rest)
  }

  function AcceptPayload(): seq<byte> {
    ToBytes(319, 2) + ToBytes(1, 2) + seq(10, _ => 0) + [0] + seq(9, _ => 0)
    + ToBytes(SDU_SIZE, 4) + seq(5, _ => 0) + ToBytes(0, 4)
  }

  function AcceptPacket(): seq<byte> { BuildPacket(ACCEPT, AcceptPayload(), 0, false).value }

  /** The bytes written for a whole connection, which must open with a narrow CONNECT packet. */
  function Connection(answer: seq<seq<byte>> -> Handled, cancel: seq<byte>, stream: seq<byte>): seq<byte> {
    var (arrival, rest) := Parse(stream, false);
    if !arrival.Arrived? || arrival.packet.ptype != CONNECT || arrival.packet.payload.None? then []
    else AcceptPacket() + ServeStream(answer, cancel, [], rest)
  }

  // ---------------------------------------------------------------------
  // Nothing is lost on the way
  // ---------------------------------------------------------------------

  /** All the data in the packets of a stream, as read up to its end. */
  function Payloads(stream: seq<byte>): seq<byte>
    decreases |stream|
  {
    var (arrival, rest) := Parse(stream, true);
    if !arrival.Arrived? || arrival.packet.payload.None? then []
    else (if arrival.packet.ptype == DATA then arrival.packet.payload.value else []) + Payloads(rest)
  }

  /** A stream made of whole packets, none longer than the session data unit. */
  predicate Packed(stream: seq<byte>)
    decreases |stream|
  {
    stream == [] ||
    var (arrival, rest) := Parse(stream, true);
    arrival.Arrived? && arrival.packet.payload.Some? && |stream| - |rest| <= SDU_SIZE && Packed(rest)
  }

  lemma FramedRead(chunk: seq<byte>, tail: seq<byte>)
    requires |chunk| <= CHUNK_SIZE
    ensures Payloads(Framed(chunk) + tail) == chunk + Payloads(tail)
    ensures Packed(tail) ==> Packed(Framed(chunk) + tail)
  {
    hide BuildDataPacket, Parse;
    assert BuildDataPacket(chunk, 0, true).Some? by { DataFits(chunk, 0); }
    DataPacketRead(chunk, 0, true, tail);
    assert |Framed(chunk)| <= SDU_SIZE;
  }

  lemma DataFits(chunk: seq<byte>, dataFlags: nat)
    ensures BuildDataPacket(chunk, dataFlags, true).Some? <==> dataFlags < 0x1_0000 && HEADER_SIZE + 2 + |chunk| < 0x1_0000_0000
    ensures var packet := BuildDataPacket(chunk, dataFlags, true);
      packet.Some? ==> |packet.value| == HEADER_SIZE + 2 + |chunk|
  {
  }

  lemma {:induction false} FramedAllRead(chunks: seq<seq<byte>>, tail: seq<byte>)
    requires forall i :: 0 <= i < |chunks| ==> |chunks[i]| <= CHUNK_SIZE
    ensures Payloads(FramedAll(chunks) + tail) == Flatten(chunks) + Payloads(tail)
    ensures Packed(tail) ==> Packed(FramedAll(chunks) + tail)
  {
    hide Framed, Payloads, Packed;
    if chunks == [] {
      assert FramedAll(chunks) + tail == tail;
    } else {
      var rest := FramedAll(chunks[1..]) + tail;
      FramedAllRead(chunks[1..], tail);
      FramedRead(chunks[0], rest);
      assert FramedAll(chunks) + tail == Framed(chunks[0]) + rest;
    }
  }

  /** Whatever its length, a response comes out of its packets byte for byte, and no packet is longer
      than the session data unit. */
  lemma ResponseArrives(response: seq<byte>, tail: seq<byte>)
    ensures Payloads(Sent(response) + tail) == response + Payloads(tail)
    ensures Packed(tail) ==> Packed(Sent(response) + tail)
  {
    hide FramedAll, Payloads, Packed, Chunked;
    ChunkedWhole(response);
    FramedAllRead(Chunked(response), tail);
  }

  lemma ResetRead(tail: seq<byte>)
    ensures Payloads(ResetPacket() + tail) == Payloads(tail)
    ensures Packed(tail) ==> Packed(ResetPacket() + tail)
  {
    hide Parse;
    OtherPacketRead(MARKER, [1, 0, RESET], 0, true, tail);
  }

  /** Every byte written after the handshake, whatever the client sends, belongs to a whole packet that
      fits the session data unit. */
  lemma {:induction false} ServePacked(answer: seq<seq<byte>> -> Handled, cancel: seq<byte>,
                                       past: seq<seq<byte>>, stream: seq<byte>)
    requires |cancel| <= CHUNK_SIZE
    ensures Packed(ServeStream(answer, cancel, past, stream))
    decreases |stream|
  {
    hide Sent, ResetPacket, Parse, Packed, Framed;
    assert Packed([]) by { NothingPacked(); }
    var (arrival, rest) := Parse(stream, true);
    if arrival.Arrived? && arrival.packet.payload.Some? {
      var payload := arrival.packet.payload.value;
      if arrival.packet.ptype == MARKER {
        ServePacked(answer, cancel, past, rest);
        var next := ServeStream(answer, cancel, past, rest);
        if MarkerOf(payload) == RESET {
          assert BuildDataPacket(cancel, 0, true) == Some(Framed(cancel)) by { CancelFramed(cancel); }
          FramedRead(cancel, next);
          ResetRead(Framed(cancel) + next);
        } else {
          ResetRead(next);
        }
      } else if arrival.packet.ptype != DATA {
        ServePacked(answer, cancel, past, rest);
      } else {
        var handled := answer(past + [payload]);
        ServePacked(answer, cancel, past + [payload], rest);
        if handled.Respond? {
          ResponseArrives(handled.bytes, if handled.last then [] else ServeStream(answer, cancel, past + [payload], rest));
        }
      }
    }
  }

  lemma NothingPacked()
    ensures Packed([]) && Payloads([]) == []
  {
  }

  lemma CancelFramed(cancel: seq<byte>)
    requires |cancel| <= CHUNK_SIZE
    ensures BuildDataPacket(cancel, 0, true) == Some(Framed(cancel))
  {
  }

  /** Requests a client can send: each as one DATA packet with these flags. */
  predicate Sendable(flags: nat, requests: seq<seq<byte>>) {
    forall i :: 0 <= i < |requests| ==> BuildDataPacket(requests[i], flags, true).Some?
  }

  function RequestStream(flags: nat, requests: seq<seq<byte>>): seq<byte>
    requires Sendable(flags, requests)
  {
    if requests == [] then [] else BuildDataPacket(requests[0], flags, true).value + RequestStream(flags, requests[1..])
  }

  /** What the session has to say to a list of requests, until a reply ends it. */
  function Answers(answer: seq<seq<byte>> -> Handled, past: seq<seq<byte>>, requests: seq<seq<byte>>): seq<byte>
    decreases |requests|
  {
    if requests == [] then []
    else
      match answer(past + [requests[0]])
      case Raised => []
      case Silent => Answers(answer, past + [requests[0]], requests[1..])
      case Respond(bytes, last) => bytes + if last then [] else Answers(answer, past + [requests[0]], requests[1..])
  }

  /** The transport is transparent: the session is asked exactly the requests the client sent, and the
      client reads back exactly the bytes the session answered. */
  lemma {:induction false} Transparent(answer: seq<seq<byte>> -> Handled, cancel: seq<byte>,
                                       past: seq<seq<byte>>, flags: nat, requests: seq<seq<byte>>)
    requires Sendable(flags, requests)
    ensures Payloads(ServeStream(answer, cancel, past, RequestStream(flags, requests))) == Answers(answer, past, requests)
    decreases |requests|
  {
    hide Sent, Parse, Payloads, BuildDataPacket;
    assert Payloads([]) == [] by { NothingPacked(); }
    if requests == [] {
      assert Parse([], true).0 == Closed by { NothingToParse(); }
    } else {
      var later := RequestStream(flags, requests[1..]);
      DataPacketRead(requests[0], flags, true, later);
      var handled := answer(past + [requests[0]]);
      Transparent(answer, cancel, past + [requests[0]], flags, requests[1..]);
      if handled.Respond? {
        ResponseArrives(handled.bytes, if handled.last then [] else ServeStream(answer, cancel, past + [requests[0]], later));
      }
    }
  }

  lemma NothingToParse()
    ensures Parse([], true).0 == Closed
  {
  }

  /** What a client sends over a connection: a CONNECT packet and its requests. */
  predicate Connectable(connect: seq<byte>, flags: nat, requests: seq<seq<byte>>) {
    BuildPacket(CONNECT, connect, 0, false).Some? && Sendable(flags, requests)
  }

  function ClientStream(connect: seq<byte>, flags: nat, requests: seq<seq<byte>>): seq<byte>
    requires Connectable(connect, flags, requests)
  {
    BuildPacket(CONNECT, connect, 0, false).value + RequestStream(flags, requests)
  }

  /** What a client reads over a connection: an ACCEPT packet, then the data of the packets behind it. */
  function ConnectionData(stream: seq<byte>): Option<seq<byte>> {
    var (arrival, rest) := Parse(stream, false);
    if arrival == Arrived(Packet(ACCEPT, Some(AcceptPayload()), 0, 0)) then Some(Payloads(rest)) else None
  }

  lemma AcceptFits()
    ensures BuildPacket(ACCEPT, AcceptPayload(), 0, false) == Some(AcceptPacket())
  {
  }

  /** From the CONNECT packet on, a client reads back exactly the bytes the session answered. */
  lemma ConnectionTransparent(answer: seq<seq<byte>> -> Handled, cancel: seq<byte>, connect: seq<byte>, flags: nat,
                              requests: seq<seq<byte>>)
    requires Connectable(connect, flags, requests)
    ensures ConnectionData(Connection(answer, cancel, ClientStream(connect, flags, requests)))
         == Some(Answers(answer, [], requests))
  {
    hide Parse, BuildPacket, ServeStream, RequestStream, Payloads, Answers, AcceptPayload, AcceptPacket, Sendable;
    OtherPacketRead(CONNECT, connect, 0, false, RequestStream(flags, requests));
    Transparent(answer, cancel, [], flags, requests);
    AcceptFits();
    OtherPacketRead(ACCEPT, AcceptPayload(), 0, false, ServeStream(answer, cancel, [], RequestStream(flags, requests)));
  }

  /** All output of a connection is an ACCEPT packet and whole packets that fit the session data unit behind
      it, or nothing at all. */
  lemma ConnectionPacked(answer: seq<seq<byte>> -> Handled, cancel: seq<byte>, stream: seq<byte>)
    requires |cancel| <= CHUNK_SIZE
    ensures var sent, accept := Connection(answer, cancel, stream), AcceptPacket();
      sent == [] || (accept <= sent && Packed(sent[|accept|..]))
  {
    hide Parse, AcceptPacket, ServeStream, Packed;
    ServePacked(answer, cancel, [], Parse(stream, false).1);
  }

  // ---------------------------------------------------------------------
  // Every kind of packet
  // ---------------------------------------------------------------------

  /** What a client may send after the handshake: a request, a marker, a packet of another type. */
  datatype Sending = Ask(request: seq<byte>) | Mark(marker: seq<byte>) | Ignored(ptype: byte, payload: seq<byte>) {
    predicate Valid(flags: nat) {
      match this
      case Ask(request) => flags < 0x1_0000 && |request| < 0xFFFF_FFF6
      case Mark(marker) => |marker| < 0xFFFF_FFF8
      case Ignored(ptype, payload) => ptype != 6 && ptype != 12 && |payload| < 0xFFFF_FFF8
    }

    function Bytes(flags: nat): seq<byte>
      requires Valid(flags)
    {
      match this
      case Ask(request) => ToBytes(10 + |request|, 4) + [6, 0, 0, 0] + (ToBytes(flags, 2) + request)
      case Mark(marker) => ToBytes(8 + |marker|, 4) + [12, 0, 0, 0] + marker
      case Ignored(ptype, payload) => ToBytes(8 + |payload|, 4) + [ptype, 0, 0, 0] + payload
    }
  }

  predicate SendingsValid(flags: nat, sendings: seq<Sending>) { forall i :: 0 <= i < |sendings| ==> sendings[i].Valid(flags) }

  function SendingBytes(flags: nat, sendings: seq<Sending>): seq<byte>
    requires SendingsValid(flags, sendings)
  {
    if sendings == [] then [] else sendings[0].Bytes(flags) + SendingBytes(flags, sendings[1..])
  }

  /** All the packets of a server's stream. */
  function PacketsOf(stream: seq<byte>): seq<Packet>
    decreases |stream|
  {
    var (arrival, rest) := Parse(stream, true);
    if !arrival.Arrived? || arrival.packet.payload.None? then [] else [arrival.packet] + PacketsOf(rest)
  }

  function DataPackets(chunks: seq<seq<byte>>): seq<Packet> {
    seq(|chunks|, i requires 0 <= i < |chunks| => Packet(6, Some(chunks[i]), 0, 0))
  }

  /** What a client gets: to a request the reply in pieces, up to the last; to a marker a reset, and to a reset
      the confirmation as well; to anything else nothing. */
  function Expected(answer: seq<seq<byte>> -> Handled, cancel: seq<byte>, past: seq<seq<byte>>,
                    sendings: seq<Sending>): seq<Packet>
    decreases |sendings|
  {
    if sendings == [] then []
    else
      match sendings[0]
      case Ask(request) =>
        (match answer(past + [request])
         case Raised => []
         case Silent => Expected(answer, cancel, past + [request], sendings[1..])
         case Respond(bytes, last) =>
           DataPackets(Chunked(bytes)) + if last then [] else Expected(answer, cancel, past + [request], sendings[1..]))
      case Mark(marker) =>
        [Packet(12, Some([1, 0, 2]), 0, 0)]
        + (if |marker| > 2 && marker[2] == 2 then [Packet(6, Some(cancel), 0, 0)] else [])
        + Expected(answer, cancel, past, sendings[1..])
      case Ignored(_, _) => Expected(answer, cancel, past, sendings[1..])
  }

  lemma SendingRead(x: Sending, flags: nat, tail: seq<byte>)
    requires x.Valid(flags)
    ensures var r := Parse(x.Bytes(flags) + tail, true);
      && (x.Ask? ==> r == (Arrived(Packet(6, Some(x.request), 0, flags)), tail))
      && (x.Mark? ==> r == (Arrived(Packet(12, Some(x.marker), 0, 0)), tail))
      && (x.Ignored? ==> r == (Arrived(Packet(x.ptype, Some(x.payload), 0, 0)), tail))
  {
    hide Parse;
    match x
    case Ask(request) =>
      assert BuildDataPacket(request, flags, true) == Some(x.Bytes(flags));
      DataPacketRead(request, flags, true, tail);
    case Mark(marker) =>
      assert BuildPacket(12, marker, 0, true) == Some(x.Bytes(flags));
      OtherPacketRead(12, marker, 0, true, tail);
    case Ignored(ptype, payload) =>
      assert BuildPacket(ptype, payload, 0, true) == Some(x.Bytes(flags));
      OtherPacketRead(ptype, payload, 0, true, tail);
  }

  lemma FramedPacket(chunk: seq<byte>, tail: seq<byte>)
    requires |chunk| <= CHUNK_SIZE
    ensures PacketsOf(Framed(chunk) + tail) == [Packet(6, Some(chunk), 0, 0)] + PacketsOf(tail)
  {
    hide BuildDataPacket, Parse;
    assert BuildDataPacket(chunk, 0, true).Some? by { DataFits(chunk, 0); }
    DataPacketRead(chunk, 0, true, tail);
    assert |Framed(chunk)| > 0;
  }

  lemma {:induction false} FramedPackets(chunks: seq<seq<byte>>, tail: seq<byte>)
    requires forall i :: 0 <= i < |chunks| ==> |chunks[i]| <= CHUNK_SIZE
    ensures PacketsOf(FramedAll(chunks) + tail) == DataPackets(chunks) + PacketsOf(tail)
  {
    hide Framed, PacketsOf;
    if chunks == [] {
      assert FramedAll(chunks) + tail == tail;
      NothingBefore(PacketsOf(tail));
    } else {
      var rest := FramedAll(chunks[1..]) + tail;
      FramedPackets(chunks[1..], tail);
      FramedPacket(chunks[0], rest);
      Associate(Framed(chunks[0]), FramedAll(chunks[1..]), tail);
      assert DataPackets(chunks) == [Packet(6, Some(chunks[0]), 0, 0)] + DataPackets(chunks[1..]);
      Associate([Packet(6, Some(chunks[0]), 0, 0)], DataPackets(chunks[1..]), PacketsOf(tail));
    }
  }

  lemma ResetPacketRead(tail: seq<byte>)
    ensures PacketsOf(ResetPacket() + tail) == [Packet(12, Some([1, 0, 2]), 0, 0)] + PacketsOf(tail)
  {
    hide Parse;
    OtherPacketRead(MARKER, [1, 0, RESET], 0, true, tail);
  }

  lemma NoPackets()
    ensures PacketsOf([]) == []
  {
  }

  /** One packet of the client's. */
  lemma SendingStep(answer: seq<seq<byte>> -> Handled, cancel: seq<byte>, past: seq<seq<byte>>, x: Sending, flags: nat,
                    tail: seq<byte>)
    requires |cancel| <= CHUNK_SIZE && x.Valid(flags)
    ensures var stream := x.Bytes(flags) + tail;
      var out := ServeStream(answer, cancel, past, stream);
      && (x.Ask? ==>
            var handled := answer(past + [x.request]);
            out == if handled.Raised? then []
                   else if handled.Silent? then ServeStream(answer, cancel, past + [x.request], tail)
                   else Sent(handled.bytes)
                        + if handled.last then [] else ServeStream(answer, cancel, past + [x.request], tail))
      && (x.Mark? ==>
            var next := ServeStream(answer, cancel, past, tail);
            out == ResetPacket() + if |x.marker| > 2 && x.marker[2] == 2 then Framed(cancel) + next else next)
      && (x.Ignored? ==> out == ServeStream(answer, cancel, past, tail))
  {
    hide Parse, Sent, ResetPacket, Framed, Sending.Bytes;
    SendingRead(x, flags, tail);
    assert BuildDataPacket(cancel, 0, true) == Some(Framed(cancel)) by { CancelFramed(cancel); }
    hide BuildDataPacket;
  }

  /** Whatever a client sends, it gets what is expected. */
  lemma {:induction false} SendingsAnswered(answer: seq<seq<byte>> -> Handled, cancel: seq<byte>,
                                            past: seq<seq<byte>>, flags: nat, sendings: seq<Sending>)
    requires |cancel| <= CHUNK_SIZE && SendingsValid(flags, sendings)
    ensures PacketsOf(ServeStream(answer, cancel, past, SendingBytes(flags, sendings)))
         == Expected(answer, cancel, past, sendings)
    decreases |sendings|
  {
    hide Sent, ServeStream, PacketsOf, ResetPacket, Framed, Sending.Bytes, Sending.Valid;
    NoPackets();
    if sendings == [] {
      NothingServed(answer, cancel, past);
    } else {
      var later := SendingBytes(flags, sendings[1..]);
      SendingStep(answer, cancel, past, sendings[0], flags, later);
      match sendings[0]
      case Ask(request) =>
        SendingsAnswered(answer, cancel, past + [request], flags, sendings[1..]);
        var handled := answer(past + [request]);
        if handled.Respond? {
          SentPackets(handled.bytes, if handled.last then [] else ServeStream(answer, cancel, past + [request], later));
        }
      case Mark(marker) =>
        SendingsAnswered(answer, cancel, past, flags, sendings[1..]);
        var next := ServeStream(answer, cancel, past, later);
        MarkPackets(marker, cancel, next);
      case Ignored(_, _) => SendingsAnswered(answer, cancel, past, flags, sendings[1..]);
    }
  }

  lemma NothingServed(answer: seq<seq<byte>> -> Handled, cancel: seq<byte>, past: seq<seq<byte>>)
    ensures ServeStream(answer, cancel, past, []) == []
  {
  }

  lemma SentPackets(bytes: seq<byte>, tail: seq<byte>)
    ensures PacketsOf(Sent(bytes) + tail) == DataPackets(Chunked(bytes)) + PacketsOf(tail)
  {
    hide PacketsOf, Chunked, FramedAll;
    FramedPackets(Chunked(bytes), tail);
  }

  lemma MarkPackets(marker: seq<byte>, cancel: seq<byte>, next: seq<byte>)
    requires |cancel| <= CHUNK_SIZE
    ensures PacketsOf(ResetPacket() + if |marker| > 2 && marker[2] == 2 then Framed(cancel) + next else next)
         == [Packet(12, Some([1, 0, 2]), 0, 0)]
            + (if |marker| > 2 && marker[2] == 2 then [Packet(6, Some(cancel), 0, 0)] else []) + PacketsOf(next)
  {
    hide PacketsOf, ResetPacket, Framed;
    var reset := [Packet(12, Some([1, 0, 2]), 0, 0)];
    if |marker| > 2 && marker[2] == 2 {
      ResetPacketRead(Framed(cancel) + next);
      FramedPacket(cancel, next);
      Associate(reset, [Packet(6, Some(cancel), 0, 0)], PacketsOf(next));
    } else {
      ResetPacketRead(next);
      assert reset + [] == reset;
    }
  }

  /** A response goes out in pieces of 8176 bytes, the last of them shorter. */
  lemma {:induction false} ChunkSizes(data: seq<byte>)
    ensures var chunks := Chunked(data);
      && |chunks| == (|data| + 8175) / 8176
      && forall i :: 0 <= i < |chunks| ==>
           chunks[i] == if i < |chunks| - 1 then data[8176 * i..8176 * i + 8176] else data[8176 * i..]
    decreases |data|
  {
    var chunks := Chunked(data);
    if data != [] {
      var n := Min(CHUNK_SIZE, |data|);
      ChunkSizes(data[n..]);
      forall i | 0 <= i < |chunks|
        ensures chunks[i] == if i < |chunks| - 1 then data[8176 * i..8176 * i + 8176] else data[8176 * i..]
      {
        if i == 0 {
          assert n == |data| ==> data[..n] == data;
        } else {
          assert chunks[i] == Chunked(data[n..])[i - 1] && n == 8176;
        }
      }
    }
  }

  /** The ACCEPT packet: version 319, one option, a session data unit of 8192 bytes, and zeros. */
  lemma AcceptTells(tail: seq<byte>)
    ensures var (arrival, rest) := Parse(AcceptPacket() + tail, false);
      && rest == tail && arrival.Arrived? && arrival.packet.ptype == 2 && arrival.packet.payload.Some?
      && var p := arrival.packet.payload.value;
      && |p| == 37 && p[0] == 1 && p[1] == 63 && p[3] == 1 && p[26] == 32
      && forall i :: 0 <= i < 37 && i !in {0, 1, 3, 26} ==> p[i] == 0
  {
    hide Parse;
    AcceptFits();
    OtherPacketRead(ACCEPT, AcceptPayload(), 0, false, tail);
    AcceptLayout();
  }

  lemma AcceptNumbers()
    ensures ToBytes(319, 2) == [1, 63] && ToBytes(1, 2) == [0, 1]
    ensures ToBytes(8192, 4) == [0, 0, 32, 0] && ToBytes(0, 4) == [0, 0, 0, 0]
  {
    assert ToBytes(319, 2) == ToBytes(1, 1) + [63];
    assert ToBytes(1, 2) == ToBytes(0, 1) + [1];
    assert ToBytes(0, 2) == ToBytes(0, 1) + [0];
    assert ToBytes(32, 3) == ToBytes(0, 2) + [32];
    assert ToBytes(8192, 4) == ToBytes(32, 3) + [0];
    assert ToBytes(0, 3) == ToBytes(0, 2) + [0];
    assert ToBytes(0, 4) == ToBytes(0, 3) + [0];
  }

  lemma AcceptLayout()
    ensures var p := AcceptPayload();
      && |p| == 37 && p[0] == 1 && p[1] == 63 && p[3] == 1 && p[26] == 32
      && forall i :: 0 <= i < 37 && i !in {0, 1, 3, 26} ==> p[i] == 0
  {
    AcceptNumbers();
    hide ToBytes;
    var a, b := ToBytes(319, 2) + ToBytes(1, 2) + seq(10, _ => 0) + [0] + seq(9, _ => 0), seq(5, _ => 0);
    assert |a| == 24 && forall i :: 0 <= i < 24 && i !in {0, 1, 3} ==> a[i] == 0;
    var p := AcceptPayload();
    assert p == a + (ToBytes(8192, 4) + (b + ToBytes(0, 4)));
    forall i | 24 <= i < 37 && i != 26 ensures p[i] == 0 {
      assert p[i] == (ToBytes(8192, 4) + (b + ToBytes(0, 4)))[i - 24];
    }
  }

  /** Cut short, a stream still opens with the same packet, or with none that is complete. */
  lemma ParsePrefix(stream: seq<byte>, m: nat)
    requires m <= |stream|
    ensures var (arrival, rest), (early, left) := Parse(stream, true), Parse(stream[..m], true);
      || !early.Arrived? || early.packet.payload.None?
      || (early == arrival && left <= rest && |rest| - |left| == |stream| - m)
  {
    var cut := stream[..m];
    if m >= HEADER_SIZE {
      var header, rest, left := stream[..HEADER_SIZE], stream[HEADER_SIZE..], cut[HEADER_SIZE..];
      assert cut[..HEADER_SIZE] == header && left == rest[..m - HEADER_SIZE];
      var n := PayloadLength(header, true);
      if n <= |left| {
        assert left[..n] == rest[..n] && left[n..] == rest[n..][..|left| - n];
      }
    }
  }

  /** A connection that breaks off anywhere has been sent a prefix of what the whole stream would be. */
  lemma {:induction false} ServePrefix(answer: seq<seq<byte>> -> Handled, cancel: seq<byte>,
                                       past: seq<seq<byte>>, stream: seq<byte>, m: nat)
    requires m <= |stream|
    ensures ServeStream(answer, cancel, past, stream[..m]) <= ServeStream(answer, cancel, past, stream)
    decreases |stream|
  {
    hide Sent, ResetPacket, Parse, BuildDataPacket;
    ParsePrefix(stream, m);
    var (arrival, rest) := Parse(stream, true);
    var (early, left) := Parse(stream[..m], true);
    if early.Arrived? && early.packet.payload.Some? {
      assert left == rest[..|left|];
      ServePrefix(answer, cancel, past, rest, |left|);
      ServePrefix(answer, cancel, past + [early.packet.payload.value], rest, |left|);
    }
  }
}
