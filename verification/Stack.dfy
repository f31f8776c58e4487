/** The whole stack: the session behind the transport. */
module Stack {
  import opened Basics
  import opened PlaceValue
  import opened BigEndian
  import opened Wire
  import opened Buffer
  import opened Messages
  import opened Cursors
  import opened Responses
  import opened Requests
  import opened Replies
  import opened Sessions
  import opened Transport

  /** The payloads of a connection, each with what the outside world made of it. */
  function Exchanges(world: nat -> Outside, payloads: seq<seq<byte>>): seq<Exchange> {
    seq(|payloads|, i requires 0 <= i < |payloads| => Exchange(payloads[i], world(i)))
  }

  lemma {:induction false} AfterAppend(s: State, db: Database, xs: seq<Exchange>, x: Exchange)
    requires Inv(s)
    ensures var (t, open) := After(s, db, xs);
      After(s, db, xs + [x]) == (Next(t, x), PayloadDatabase(open, x.payload, x.outside))
    decreases |xs|
  {
    hide Next, PayloadDatabase;
    if xs == [] {
      assert [x][1..] == [] && xs + [x] == [x];
    } else {
      AfterAppend(Next(s, xs[0]), PayloadDatabase(db, xs[0].payload, xs[0].outside), xs[1..], x);
      assert (xs + [x])[1..] == xs[1..] + [x];
    }
  }

  /** The bytes of a reply, if there is one. */
  function ReplyBytes(r: Bytes): seq<byte> { if r.Ok? then r.value else [] }

  /** A session that starts without cursors and without a login, as the transport sees it. Its last reply
      is the one that leaves it without its database connection. */
  function AnswerOf(world: nat -> Outside, payloads: seq<seq<byte>>): Handled {
    if payloads == [] then Silent
    else
      var k := |payloads| - 1;
      var (s, db) := After(INITIAL, NoLogin, Exchanges(world, payloads[..k]));
      var r := PayloadReply(s, db, payloads[k], world(k));
      if r.Ok? then Respond(r.value, PayloadDatabase(db, payloads[k], world(k)).Gone?) else Raised
  }

  function Answering(world: nat -> Outside): seq<seq<byte>> -> Handled { payloads => AnswerOf(world, payloads) }

  function AllBytes(turns: seq<Turn>): seq<byte> {
    if turns == [] then [] else ReplyBytes(turns[0].reply) + AllBytes(turns[1..])
  }

  /** The exchanges that are still to come after past payloads. */
  function Coming(world: nat -> Outside, past: seq<seq<byte>>, requests: seq<seq<byte>>): seq<Exchange> {
    seq(|requests|, i requires 0 <= i < |requests| => Exchange(requests[i], world(|past| + i)))
  }

  lemma ComingStep(world: nat -> Outside, past: seq<seq<byte>>, requests: seq<seq<byte>>)
    requires requests != []
    ensures Coming(world, past, requests)
         == [Exchange(requests[0], world(|past|))] + Coming(world, past + [requests[0]], requests[1..])
    ensures Exchanges(world, past + [requests[0]]) == Exchanges(world, past) + [Exchange(requests[0], world(|past|))]
  {
  }

  lemma {:induction false} RepliesAreSessions(world: nat -> Outside, past: seq<seq<byte>>, requests: seq<seq<byte>>)
    ensures var (s, db) := After(INITIAL, NoLogin, Exchanges(world, past));
      Answers(Answering(world), past, requests)
      == AllBytes(SessionTurns(s, db, Coming(world, past, requests)))
    decreases |requests|
  {
    hide PayloadReply, PayloadDatabase, Next, After, PayloadTurn;
    var (s, db) := After(INITIAL, NoLogin, Exchanges(world, past));
    if requests != [] {
      var x := Exchange(requests[0], world(|past|));
      var now := past + [requests[0]];
      ComingStep(world, past, requests);
      AfterAppend(INITIAL, NoLogin, Exchanges(world, past), x);
      RepliesAreSessions(world, now, requests[1..]);
      SessionStep(s, db, x, Coming(world, now, requests[1..]));
      AnswerStep(world, past, requests);
      var (t, open) := After(INITIAL, NoLogin, Exchanges(world, now));
      var later := SessionTurns(t, open, Coming(world, now, requests[1..]));
      AllBytesStep(PayloadTurn(s, db, x.payload, x.outside), later);
      TurnReply(s, db, x);
    }
  }

  lemma TurnReply(s: State, db: Database, x: Exchange)
    requires Inv(s)
    ensures PayloadTurn(s, db, x.payload, x.outside).reply == PayloadReply(s, db, x.payload, x.outside)
  {
    hide PayloadReply;
  }

  lemma SessionStep(s: State, db: Database, x: Exchange, xs: seq<Exchange>)
    requires Inv(s)
    ensures SessionTurns(s, db, [x] + xs) ==
      [PayloadTurn(s, db, x.payload, x.outside)] +
      if PayloadReply(s, db, x.payload, x.outside).Ok? && !PayloadDatabase(db, x.payload, x.outside).Gone? then
        SessionTurns(Next(s, x), PayloadDatabase(db, x.payload, x.outside), xs)
      else []
  {
    hide PayloadReply, PayloadDatabase, Next, PayloadTurn;
    assert ([x] + xs)[1..] == xs;
  }

  lemma AnswerStep(world: nat -> Outside, past: seq<seq<byte>>, requests: seq<seq<byte>>)
    requires requests != []
    ensures var (s, db) := After(INITIAL, NoLogin, Exchanges(world, past));
      var r := PayloadReply(s, db, requests[0], world(|past|));
      Answers(Answering(world), past, requests) ==
        if r.Err? then []
        else if PayloadDatabase(db, requests[0], world(|past|)).Gone? then ReplyBytes(r)
        else ReplyBytes(r) + Answers(Answering(world), past + [requests[0]], requests[1..])
  {
    hide PayloadReply, PayloadDatabase, After, Exchanges;
    var now := past + [requests[0]];
    assert now[..|past|] == past;
    var (s, db) := After(INITIAL, NoLogin, Exchanges(world, past));
    var r := PayloadReply(s, db, requests[0], world(|past|));
    assert ReplyBytes(r) + [] == ReplyBytes(r);
  }

  lemma AllBytesStep(turn: Turn, later: seq<Turn>)
    ensures AllBytes([turn] + later) == ReplyBytes(turn.reply) + AllBytes(later)
    ensures AllBytes([turn]) == ReplyBytes(turn.reply)
    ensures turn.reply.Err? ==> ReplyBytes(turn.reply) == []
  {
    assert ([turn] + later)[1..] == later;
    assert [turn][1..] == [];
    assert ReplyBytes(turn.reply) + [] == ReplyBytes(turn.reply);
  }

  // ---------------------------------------------------------------------
  // Reading reply by reply
  // ---------------------------------------------------------------------

  /** What a client hears when it reads one reply after the other off its data, each as its request calls for. */
  function TakeReplies(awaited: seq<Awaited>, s: seq<byte>): Reading<seq<Heard>> {
    if awaited == [] then Ok(([], s))
    else
      match TakeReply(awaited[0], s)
      case Err(e) => Err(e)
      case Ok((heard, s1)) =>
        match TakeReplies(awaited[1..], s1)
        case Err(e) => Err(e)
        case Ok((more, rest)) => Ok(([heard] + more, rest))
  }

  function AwaitedBy(turns: seq<Turn>): seq<Awaited> {
    seq(|turns|, i requires 0 <= i < |turns| => turns[i].awaited)
  }

  function MeantBy(turns: seq<Turn>): seq<Heard> { seq(|turns|, i requires 0 <= i < |turns| => turns[i].meant) }

  lemma TurnTaken(turn: Turn, tail: seq<byte>)
    requires turn.reply.Ok? && turn.Understood()
    ensures TakeReply(turn.awaited, turn.reply.value + tail) == Ok((turn.meant, tail))
  {
    hide TakeReply;
    ReplyLocal(turn.awaited, turn.reply.value, tail);
    NothingBefore(tail);
  }

  /** Replies that are understood one by one are understood in one stretch of data: each is read off exactly
      where it ends. */
  lemma {:induction false} RepliesTaken(turns: seq<Turn>, tail: seq<byte>)
    requires forall i :: 0 <= i < |turns| ==> turns[i].reply.Ok? && turns[i].Understood()
    ensures TakeReplies(AwaitedBy(turns), AllBytes(turns) + tail) == Ok((MeantBy(turns), tail))
  {
    hide TakeReply, Turn.Understood;
    if turns == [] {
      assert AllBytes(turns) + tail == tail;
    } else {
      var later := turns[1..];
      TurnTaken(turns[0], AllBytes(later) + tail);
      RepliesTaken(later, tail);
      Associate(turns[0].reply.value, AllBytes(later), tail);
      assert AwaitedBy(turns)[1..] == AwaitedBy(later);
      assert MeantBy(turns) == [turns[0].meant] + MeantBy(later);
    }
  }

  lemma {:induction false} AllBytesSplit(turns: seq<Turn>, n: nat)
    requires n <= |turns|
    ensures AllBytes(turns) == AllBytes(turns[..n]) + AllBytes(turns[n..])
  {
    if n == 0 {
      assert turns[..0] == [] && turns[0..] == turns;
      NothingBefore(AllBytes(turns));
    } else {
      AllBytesSplit(turns[1..], n - 1);
      assert turns[..n][1..] == turns[1..][..n - 1] && turns[1..][n - 1..] == turns[n..];
      Associate(ReplyBytes(turns[0].reply), AllBytes(turns[..n][1..]), AllBytes(turns[n..]));
    }
  }

  // ---------------------------------------------------------------------
  // Whole connections
  // ---------------------------------------------------------------------

  /** The turns of a whole connection. */
  function ConnectionTurns(world: nat -> Outside, requests: seq<seq<byte>>): seq<Turn> {
    SessionTurns(INITIAL, NoLogin, Exchanges(world, requests))
  }

  /** The first n turns are answered, and their answers are clear. */
  predicate ClearTo(world: nat -> Outside, requests: seq<seq<byte>>, n: nat) {
    var turns := ConnectionTurns(world, requests);
    && n <= |turns| <= |requests|
    && forall i :: 0 <= i < n ==>
         var (s, db) := After(INITIAL, NoLogin, Exchanges(world, requests[..i]));
         turns[i].reply.Ok? && PayloadClear(s, db, requests[i], world(i))
  }

  const CANCEL := ErrorInfo(1013, AsciiBytes("ORA-01013: user requested cancel of current operation"), 0, 0, 0, 0)

  /** The message that confirms a reset; it fits one packet. */
  function CancelBytes(): (bytes: seq<byte>)
    ensures |bytes| <= CHUNK_SIZE && Encoding(ErrorMessages(CANCEL, false)) == Some(bytes)
  {
    CancelFits();
    Encoding(ErrorMessages(CANCEL, false)).value
  }

  predicate Narrow(f: Field) { (f.UB? && f.width <= 8) || f.U8? || f.SB1? }

  predicate AllNarrow(fs: seq<Field>) { forall i :: 0 <= i < |fs| ==> Narrow(fs[i]) }

  lemma NarrowField(f: Field)
    requires Narrow(f) && Printable(f)
    ensures |Print(f)| <= 9
  {
    hide DropZeros, ToBytes;
  }

  lemma {:induction false} NarrowSize(fs: seq<Field>)
    requires AllPrintable(fs) && AllNarrow(fs)
    ensures |PrintAll(fs)| <= 9 * |fs|
  {
    hide Print, Printable, Narrow;
    if fs != [] {
      NarrowField(fs[0]);
      NarrowSize(fs[1..]);
    }
  }

  /** The numbers of an error body, which stand before its text. */
  function ErrorNumbers(e: ErrorInfo): seq<Field> {
    [U8(MSG_ERROR)] + (ErrorHead(e) + ERROR_FLAGS + ERROR_ROWID + ERROR_BATCH + [UB(e.num, 4), UB(e.rowcount, 8)])
  }

  lemma NumbersAreNarrow(e: ErrorInfo)
    ensures AllNarrow(ErrorHead(e)) && AllNarrow(ERROR_FLAGS) && AllNarrow(ERROR_ROWID) && AllNarrow(ERROR_BATCH)
    ensures AllNarrow([UB(e.num, 4), UB(e.rowcount, 8)]) && AllNarrow([U8(MSG_ERROR)])
  {
  }

  lemma BothNarrow(xs: seq<Field>, ys: seq<Field>)
    requires AllNarrow(xs) && AllNarrow(ys)
    ensures AllNarrow(xs + ys)
  {
    hide Narrow;
  }

  lemma ErrorSplits(e: ErrorInfo)
    ensures MessageFields(Error(e)) == ErrorNumbers(e) + [Octets(e.message)]
    ensures |ErrorNumbers(e)| == 31 && AllNarrow(ErrorNumbers(e))
  {
    var front := ErrorHead(e) + ERROR_FLAGS + ERROR_ROWID + ERROR_BATCH;
    var tail: seq<Field> := [UB(e.num, 4), UB(e.rowcount, 8)];
    NumbersAreNarrow(e);
    BothNarrow(ErrorHead(e), ERROR_FLAGS);
    BothNarrow(ErrorHead(e) + ERROR_FLAGS, ERROR_ROWID);
    BothNarrow(ErrorHead(e) + ERROR_FLAGS + ERROR_ROWID, ERROR_BATCH);
    BothNarrow(front, tail);
    BothNarrow([U8(MSG_ERROR)], front + tail);
    hide AllNarrow;
    assert ErrorTail(e) == [UB(e.num, 4), UB(e.rowcount, 8)] + [Octets(e.message)];
    Associate(front, [UB(e.num, 4), UB(e.rowcount, 8)], [Octets(e.message)]);
    Associate([U8(MSG_ERROR)], front + [UB(e.num, 4), UB(e.rowcount, 8)], [Octets(e.message)]);
  }

  /** An error with a short text takes little room. */
  lemma ErrorSize(e: ErrorInfo)
    requires ErrorFits(e) && |e.message| <= MAX_SHORT
    ensures var r := Encoding(ErrorMessages(e, false));
      r.Some? && |r.value| <= 280 + |e.message|
  {
    hide PrintAll, ErrorNumbers, ErrorFits, MessageFields, Print;
    var ms := ErrorMessages(e, false);
    assert ms == [Error(e)];
    ErrorMessagesFit(e, false);
    ErrorSplits(e);
    MessagePrintable(Error(e));
    OneMessage(Error(e));
    var ns, text := ErrorNumbers(e), [Octets(e.message)];
    FrontPrintable(ns, text);
    PrintAppend(ns, text);
    NarrowSize(ns);
    OneField(Octets(e.message));
    assert |Print(Octets(e.message))| == 1 + |e.message| by { TextSize(e.message); }
  }

  lemma TextSize(text: seq<byte>)
    requires |text| <= MAX_SHORT
    ensures |Print(Octets(text))| == 1 + |text|
  {
  }

  lemma FrontPrintable(xs: seq<Field>, ys: seq<Field>)
    requires AllPrintable(xs + ys)
    ensures AllPrintable(xs) && AllPrintable(ys)
  {
    hide Printable;
    assert forall i :: 0 <= i < |xs| ==> xs[i] == (xs + ys)[i];
    assert forall i :: 0 <= i < |ys| ==> ys[i] == (xs + ys)[|xs| + i];
  }

  lemma CancelFits()
    ensures var r := Encoding(ErrorMessages(CANCEL, false)); r.Some? && |r.value| <= CHUNK_SIZE
  {
    hide ErrorMessages, Encoding;
    ConstantsFit();
    assert ErrorFits(CANCEL) by { assert Pow(256, 4) == 0x1_0000_0000 && Pow(256, 2) == 0x1_0000; }
    ErrorSize(CANCEL);
  }

  /** What the server writes over a connection, for what the client sends. */
  function Served(world: nat -> Outside, stream: seq<byte>): seq<byte> {
    Connection(Answering(world), CancelBytes(), stream)
  }

  /** End to end: whatever requests a client sends behind its CONNECT packet, the data it reads out of the
      packets behind ACCEPT is the session's replies in order, byte for byte, up to the one after which the
      server hangs up. */
  lemma ClientReadsReplies(world: nat -> Outside, connect: seq<byte>, flags: nat, requests: seq<seq<byte>>)
    requires Connectable(connect, flags, requests)
    ensures ConnectionData(Served(world, ClientStream(connect, flags, requests)))
         == Some(AllBytes(ConnectionTurns(world, requests)))
  {
    hide SessionTurns, Answers, AllBytes, Connection, ConnectionData, ClientStream, CancelBytes, Connectable;
    ConnectionTransparent(Answering(world), CancelBytes(), connect, flags, requests);
    RepliesAreSessions(world, [], requests);
    assert Exchanges(world, []) == [] && After(INITIAL, NoLogin, []) == (INITIAL, NoLogin);
    assert Coming(world, [], requests) == Exchanges(world, requests);
  }

  /** And reading that data reply by reply, each as its request calls for, the client hears what the session
      means, for as long as the answers are clear, and stands exactly at the next reply. */
  lemma ClientHearsReplies(world: nat -> Outside, connect: seq<byte>, flags: nat, requests: seq<seq<byte>>, n: nat)
    requires Connectable(connect, flags, requests)
    requires forall k :: RectangularStatement(world(k).statement)
    requires ClearTo(world, requests, n)
    ensures var turns := ConnectionTurns(world, requests);
      var data := ConnectionData(Served(world, ClientStream(connect, flags, requests)));
      data.Some? && TakeReplies(AwaitedBy(turns[..n]), data.value) == Ok((MeantBy(turns[..n]), AllBytes(turns[n..])))
  {
    hide SessionTurns, AllBytes, Served, ConnectionData, ClientStream, Connectable, Turn.Understood, TakeReplies,
      RectangularStatement, PayloadClear, After, AwaitedBy, MeantBy;
    ClientReadsReplies(world, connect, flags, requests);
    var turns := ConnectionTurns(world, requests);
    RepliesHeard(world, requests);
    forall i | 0 <= i < n ensures turns[i].reply.Ok? && turns[i].Understood() {
      assert TurnHeard(INITIAL, NoLogin, Exchanges(world, requests), turns, i);
      assert Exchanges(world, requests)[..i] == Exchanges(world, requests[..i]);
    }
    assert forall i :: 0 <= i < n ==> turns[..n][i] == turns[i];
    RepliesTaken(turns[..n], AllBytes(turns[n..]));
    AllBytesSplit(turns, n);
  }

  /** Over a whole connection, every answer is heard as the session means it exactly when it is clear. */
  lemma RepliesHeard(world: nat -> Outside, requests: seq<seq<byte>>)
    requires forall k :: RectangularStatement(world(k).statement)
    ensures var turns, xs := ConnectionTurns(world, requests), Exchanges(world, requests);
      |turns| <= |xs| && forall i :: 0 <= i < |turns| ==> TurnHeard(INITIAL, NoLogin, xs, turns, i)
  {
    hide RectangularStatement, SessionTurns, TurnHeard;
    SessionHeard(INITIAL, NoLogin, Exchanges(world, requests));
  }

  /** Behind CONNECT, requests, markers and anything else are answered packet by packet as expected. */
  lemma ConnectionAnswered(world: nat -> Outside, connect: seq<byte>, flags: nat, sendings: seq<Sending>)
    requires BuildPacket(CONNECT, connect, 0, false).Some? && SendingsValid(flags, sendings)
    ensures var sent, accept := Served(world, BuildPacket(CONNECT, connect, 0, false).value + SendingBytes(flags, sendings)),
                                AcceptPacket();
      && accept <= sent
      && PacketsOf(sent[|accept|..]) == Expected(Answering(world), CancelBytes(), [], sendings)
  {
    hide CancelBytes, AcceptPacket, ServeStream, PacketsOf, Expected, SendingBytes, Parse, BuildPacket, SendingsValid;
    OtherPacketRead(CONNECT, connect, 0, false, SendingBytes(flags, sendings));
    SendingsAnswered(Answering(world), CancelBytes(), [], flags, sendings);
  }

  /** The confirmation of a reset says ORA-01013 and nothing else. */
  lemma CancelTells()
    ensures var r := ReadResponse(0, CancelBytes());
      && r.Ok? && |r.value| == 1 && r.value[0].Error?
      && r.value[0].info.num == 1013 && r.value[0].info.message == AsciiBytes("ORA-01013: user requested cancel of current operation")
      && r.value[0].info.cursorId == 0
  {
    hide ReadResponse, AsciiBytes, Encoding;
    ErrorRoundTrip(CANCEL, false, 0);
    assert ErrorMessages(CANCEL, false) == [Error(CANCEL)];
  }

  /** Every byte the server writes belongs to the ACCEPT packet or to a whole packet that fits the session
      data unit, whatever the client sends. */
  lemma ServedPacked(world: nat -> Outside, stream: seq<byte>)
    ensures var sent, accept := Served(world, stream), AcceptPacket();
      sent == [] || (accept <= sent && Packed(sent[|accept|..]))
  {
    hide CancelBytes, Connection, AcceptPacket, Packed;
    ConnectionPacked(Answering(world), CancelBytes(), stream);
  }

  /** The server hangs up once a logged-in client logs off, whatever it sends after that. */
  lemma LogOffIsLast(s: State, sequence: byte, outside: Outside, more: seq<Exchange>)
    requires Inv(s) && outside.ends.None?
    ensures |SessionTurns(s, Live, [Exchange([3, 9, sequence], outside)] + more)| == 1
    ensures SessionTurns(s, Live, [Exchange([3, 9, sequence], outside)] + more)[0].reply.Ok?
  {
    hide PayloadTurn, Next, Encoding;
    var x := Exchange([3, 9, sequence], outside);
    SessionStep(s, Live, x, more);
    TurnReply(s, Live, x);
    NoPiggyback(s, Live, x);
    StatusReported();
  }

  /** And after a login whose database connection fails. */
  lemma FailedLoginIsLast(s: State, db: Database, payload: seq<byte>, outside: Outside, more: seq<Exchange>)
    requires Inv(s) && |payload| >= 3 && payload[0] == 3 && payload[1] == 115
    requires LoginOf(payload[3..], outside).Unconnected?
    ensures |SessionTurns(s, db, [Exchange(payload, outside)] + more)| == 1
  {
    hide PayloadTurn, PayloadReply, PayloadDatabase, Next, LoginOf, SessionTurns;
    var x := Exchange(payload, outside);
    SessionStep(s, db, x, more);
    NoPiggyback(s, db, x);
  }

  lemma NoPiggyback(s: State, db: Database, x: Exchange)
    requires Inv(s) && !IsPiggyback(x.payload)
    ensures PayloadReply(s, db, x.payload, x.outside) == MessageReply(s, db, x.payload, x.outside)
    ensures PayloadDatabase(db, x.payload, x.outside) == MessageDatabase(db, x.payload, x.outside)
  {
    hide MessageReply, MessageDatabase;
  }
}
