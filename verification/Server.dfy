/** The server: one session per connection, behind the packets. */
module Server {
  import opened Basics
  import opened Buffer
  import opened Messages
  import opened Responses
  import opened Cursors
  import opened Requests
  import opened Sessions
  import opened Session
  import opened Transport
  import opened Stack

  /** The cursor table and the database connection of a session. */
  ghost function Held(session: Session): (State, Database)
    reads session, session.refCursors.Values
  {
    (session.Abs(), session.database)
  }

  /** A session does with one more payload what it is said to answer. */
  lemma HeldNext(world: nat -> Outside, past: seq<seq<byte>>, payload: seq<byte>)
    ensures var (s, db) := After(INITIAL, NoLogin, Exchanges(world, past));
      var r, outside := PayloadReply(s, db, payload, world(|past|)), world(|past|);
      && Inv(Run(s, PayloadOps(payload, outside)))
      && After(INITIAL, NoLogin, Exchanges(world, past + [payload]))
         == (Run(s, PayloadOps(payload, outside)), PayloadDatabase(db, payload, outside))
      && AnswerOf(world, past + [payload])
         == if r.Ok? then Respond(r.value, PayloadDatabase(db, payload, outside).Gone?) else Raised
  {
    hide PayloadReply, PayloadDatabase, PayloadOps, After;
    var now := past + [payload];
    assert now[..|past|] == past;
    assert Exchanges(world, now) == Exchanges(world, past) + [Exchange(payload, world(|past|))];
    AfterAppend(INITIAL, NoLogin, Exchanges(world, past), Exchange(payload, world(|past|)));
    RunInv(After(INITIAL, NoLogin, Exchanges(world, past)).0, PayloadOps(payload, world(|past|)));
  }

  /** Confirms a marker, and a reset with the message that closes the cancelled call. */
  method ConfirmMarker(writer: StreamWriter, payload: seq<byte>)
    modifies writer
    ensures writer.sent == old(writer.sent) + MarkerReply(payload)
  {
    hide ResetPacket, CancelBytes, Framed, Encoding;
    writer.Write(ResetPacket());
    if MarkerOf(payload) == RESET {
      var cancel := ErrorMessage(CANCEL, false);
      assert cancel == Some(CancelBytes());
      var packet := DataPacket(cancel.value);
      Associate(old(writer.sent), ResetPacket(), packet);
      writer.Write(packet);
    }
  }

  function MarkerReply(payload: seq<byte>): seq<byte> {
    if MarkerOf(payload) == RESET then ResetPacket() + Framed(CancelBytes()) else ResetPacket()
  }

  /** What is written for the rest of a stream, past payloads having been answered. */
  function Serving(world: nat -> Outside, past: seq<seq<byte>>, stream: seq<byte>): seq<byte> {
    ServeStream(Answering(world), CancelBytes(), past, stream)
  }

  /** One packet of the stream at a time. */
  lemma ServingStep(world: nat -> Outside, past: seq<seq<byte>>, stream: seq<byte>)
    ensures var (arrival, rest) := Parse(stream, true);
      if !arrival.Arrived? || arrival.packet.payload.None? then Serving(world, past, stream) == []
      else
        var payload := arrival.packet.payload.value;
        var handled := AnswerOf(world, past + [payload]);
        Serving(world, past, stream) ==
          if arrival.packet.ptype == MARKER then MarkerReply(payload) + Serving(world, past, rest)
          else if arrival.packet.ptype != DATA then Serving(world, past, rest)
          else if handled.Raised? then []
          else if handled.Silent? then Serving(world, past + [payload], rest)
          else if handled.last then Sent(handled.bytes)
          else Sent(handled.bytes) + Serving(world, past + [payload], rest)
  {
    hide Parse, ResetPacket, CancelBytes, Framed, Sent, AnswerOf, BuildDataPacket;
    var (arrival, rest) := Parse(stream, true);
    CancelFramed(CancelBytes());
    if arrival.Arrived? && arrival.packet.payload.Some? {
      var handled := AnswerOf(world, past + [arrival.packet.payload.value]);
      Associate(ResetPacket(), Framed(CancelBytes()), Serving(world, past, rest));
      if handled.Respond? { assert Sent(handled.bytes) + [] == Sent(handled.bytes); }
    }
  }

  /** Hands a payload to the session and sends what it answers; the outside world of the payload is a
      parameter. Says whether the connection goes on. */
  method AnswerPayload(writer: StreamWriter, session: Session, payload: seq<byte>, outside: Outside,
                       ghost world: nat -> Outside, ghost past: seq<seq<byte>>) returns (more: bool)
    requires session.Valid() && Held(session) == After(INITIAL, NoLogin, Exchanges(world, past)) && outside == world(|past|)
    modifies writer, session, session.refCursors.Values
    ensures session.Valid() && fresh(session.refCursors.Values - old(session.refCursors.Values))
    ensures Held(session) == After(INITIAL, NoLogin, Exchanges(world, past + [payload]))
    ensures var handled := AnswerOf(world, past + [payload]);
      && !handled.Silent?
      && (more <==> handled.Respond? && !handled.last)
      && writer.sent == old(writer.sent) + if handled.Respond? then Sent(handled.bytes) else []
  {
    hide Sent, AnswerOf, PayloadReply, PayloadDatabase, PayloadOps, After, Run, Exchanges;
    HeldNext(world, past, payload);
    ghost var sent := writer.sent;
    var response := session.HandleTtc(payload, outside);
    if response.Err? {
      assert sent + [] == sent;
      return false;
    }
    SendResponse(writer, response.value);
    more := !session.database.Gone?;
  }

  /** The loop after the handshake. What is written is a function of the client's bytes. */
  method ServeLoop(rdr: SocketReader, writer: StreamWriter, session: Session, world: nat -> Outside)
    requires rdr.Valid() && session.Valid() && Held(session) == (INITIAL, NoLogin)
    modifies rdr`buf, rdr.reader, writer, session, session.refCursors.Values
    ensures writer.sent == old(writer.sent) + Serving(world, [], old(rdr.Pending()))
  {
    hide Serving, Sent, Parse, AnswerOf, MarkerReply, After, Exchanges, Held;
    ghost var past := [];
    var count := 0;
    NothingYet(world);
    ghost var all := writer.sent + Serving(world, [], rdr.Pending());
    while true
      invariant rdr.Valid() && session.Valid() && count == |past|
      invariant fresh(session.refCursors.Values - old(session.refCursors.Values))
      invariant Held(session) == After(INITIAL, NoLogin, Exchanges(world, past))
      invariant writer.sent + Serving(world, past, rdr.Pending()) == all
      decreases |rdr.Pending()|
    {
      ghost var stream, sent := rdr.Pending(), writer.sent;
      ServingStep(world, past, stream);
      var arrival := ReadPacket(rdr, true);
      ghost var rest := rdr.Pending();
      if !arrival.Arrived? || arrival.packet.payload.None? {
        NothingAfter(sent);
        return;
      }
      var packet := arrival.packet;
      if packet.ptype == MARKER {
        ConfirmMarker(writer, packet.payload.value);
        Associate(sent, MarkerReply(packet.payload.value), Serving(world, past, rest));
        continue;
      }
      if packet.ptype != DATA {
        continue;
      }
      ghost var handled := AnswerOf(world, past + [packet.payload.value]);
      var more := AnswerPayload(writer, session, packet.payload.value, world(count), world, past);
      if !more {
        NothingAfter(sent);
        return;
      }
      past, count := past + [packet.payload.value], count + 1;
      Associate(sent, Sent(handled.bytes), Serving(world, past, rest));
    }
  }

  lemma NothingYet(world: nat -> Outside)
    ensures After(INITIAL, NoLogin, Exchanges(world, [])) == (INITIAL, NoLogin)
  {
  }

  /** Serves a connection. What is written depends on the client's bytes alone, not on how they were split
      up on their way; and to a client that opens with CONNECT, it reads back as the session's replies. */
  method HandleClient(reader: StreamReader, writer: StreamWriter, world: nat -> Outside)
    requires forall i :: 0 <= i < |reader.segments| ==> reader.segments[i] != []
    modifies reader, writer
    ensures writer.sent == old(writer.sent) + Served(world, old(Flatten(reader.segments)))
    ensures forall connect, flags, requests | Connectable(connect, flags, requests) ::
      old(Flatten(reader.segments)) == ClientStream(connect, flags, requests) && old(writer.sent) == [] ==>
        ConnectionData(writer.sent) == Some(AllBytes(ConnectionTurns(world, requests)))
  {
    hide Serving, Served, AcceptPacket, Parse, ClientStream, ConnectionData, AllBytes, ConnectionTurns, Connectable;
    var rdr := new SocketReader(reader);
    ghost var stream, before := Flatten(reader.segments), writer.sent;
    assert rdr.Pending() == stream;
    ConnectionIs(world, stream);
    forall connect, flags, requests
      | Connectable(connect, flags, requests) && stream == ClientStream(connect, flags, requests)
      ensures ConnectionData(Served(world, stream)) == Some(AllBytes(ConnectionTurns(world, requests)))
    {
      ClientReadsReplies(world, connect, flags, requests);
    }
    NothingBefore(Served(world, stream));
    var arrival := ReadPacket(rdr, false);
    if !arrival.Arrived? || arrival.packet.ptype != CONNECT || arrival.packet.payload.None? {
      assert before + [] == before;
      return;
    }
    writer.Write(AcceptPacket());
    var session := new Session();
    ghost var rest := rdr.Pending();
    ServeLoop(rdr, writer, session, world);
    Associate(before, AcceptPacket(), Serving(world, [], rest));
  }

  lemma ConnectionIs(world: nat -> Outside, stream: seq<byte>)
    ensures var (arrival, rest) := Parse(stream, false);
      Served(world, stream) ==
        if !arrival.Arrived? || arrival.packet.ptype != CONNECT || arrival.packet.payload.None? then []
        else AcceptPacket() + Serving(world, [], rest)
  {
    hide Parse, AcceptPacket, ServeStream, CancelBytes;
  }
}
