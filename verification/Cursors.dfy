/** The cursor table of a session as a state machine, and what every run of it keeps. */
module Cursors {
  import opened Basics
  import opened PlaceValue
  import opened Wire
  import opened Messages

  /** A materialised result being paged out; pos counts the rows already delivered. */
  datatype Cursor = Cursor(meta: seq<Column>, rows: seq<Row>, pos: nat)

  datatype State = State(cursors: map<int, Cursor>, nextId: int)

  const INITIAL := State(map[], 1)

  datatype Op =
    | Query(meta: seq<Column>, rows: seq<Row>, numIters: int)  // SQL whose result set is rows
    | Serve(id: int, numIters: int)                            // execute without SQL text
    | Fetch(id: int, arraySize: int)
    | OpenRef(meta: seq<Column>, rows: seq<Row>)               // a REF CURSOR bind
    | Close(ids: seq<int>)                                     // CLOSE_CURSORS piggyback
    | Other

  datatype Reply =
    | Rows(cursorId: int, batch: seq<Row>, code: int)
    | Failed(num: int)
    | Done

  const UNKNOWN_CURSOR := 1007
  const BROKEN := 3113

  /** The host language's rows[lo:hi]: a negative end counts from the back. */
  function Slice(rows: seq<Row>, lo: nat, hi: int): (batch: seq<Row>)
    requires lo <= |rows|
    ensures |batch| <= |rows| - lo && batch == rows[lo..lo + |batch|]
    ensures hi >= lo ==> |batch| == Min(hi, |rows|) - lo
  {
    var end := if hi < 0 then Max(hi + |rows|, 0) else Min(hi, |rows|);
    if lo < end then rows[lo..end] else []
  }

  predicate Paged(c: Cursor) { c.pos <= |c.rows| }

  function Remaining(c: Cursor): seq<Row>
    requires Paged(c)
  {
    c.rows[c.pos..]
  }

  /** What a reply can carry: a two-byte cursor id, values that encode and, when described, columns that fit. */
  predicate Writable(described: bool, meta: seq<Column>, id: int, batch: seq<Row>) {
    VarintFits(id, 2) && (described ==> DescribeFits(meta)) && Encodes(batch)
  }

  function TakeBatch(c: Cursor, asked: int): seq<Row>
    requires Paged(c)
  {
    Slice(c.rows, c.pos, c.pos + asked)
  }

  /** Delivers a batch of a live cursor and moves its position, even when the reply cannot be written. */
  function Deliver(s: State, id: int, asked: int, described: bool): (State, Reply)
    requires id in s.cursors && Paged(s.cursors[id])
  {
    var c := s.cursors[id];
    var batch := TakeBatch(c, asked);
    var moved := c.(pos := c.pos + |batch|);
    (s.(cursors := s.cursors[id := moved]),
     if !Writable(described, c.meta, id, batch) then Failed(BROKEN)
     else Rows(id, batch, if moved.pos >= |moved.rows| then END_OF_ROWS else 0))
  }

  function FirstBatch(rows: seq<Row>, numIters: int): (batch: seq<Row>)
    ensures |batch| <= |rows| && batch == rows[..|batch|]
  {
    if numIters <= 0 then rows else rows[..Min(numIters, |rows|)]
  }

  function Open(s: State, meta: seq<Column>, rows: seq<Row>): State {
    State(s.cursors[s.nextId := Cursor(meta, rows, 0)], s.nextId + 1)
  }

  /** A query delivers its first batch at once and opens a cursor only for what is left. */
  function RunQuery(s: State, meta: seq<Column>, rows: seq<Row>, numIters: int): (State, Reply) {
    var first := FirstBatch(rows, numIters);
    var rest := rows[|first|..];
    if meta == [] then (s, Done)
    else if rest == [] then
      (s, if Writable(true, meta, 0, first) then Rows(0, first, END_OF_ROWS) else Failed(BROKEN))
    else
      (Open(s, meta, rest), if Writable(true, meta, s.nextId, first) then Rows(s.nextId, first, 0) else Failed(BROKEN))
  }

  /** How many rows a serve or fetch asks for; a serve of zero asks for all. */
  function Asked(op: Op, c: Cursor): int
    requires op.Serve? || op.Fetch?
  {
    if op.Fetch? then op.arraySize else if op.numIters != 0 then op.numIters else |c.rows|
  }

  function IdSet(ids: seq<int>): set<int> { set id | id in ids }

  function Step(s: State, op: Op): (State, Reply)
    requires Inv(s)
  {
    match op
    case Query(meta, rows, numIters) => RunQuery(s, meta, rows, numIters)
    case Serve(id, numIters) =>
      if id !in s.cursors then (s, Failed(UNKNOWN_CURSOR)) else Deliver(s, id, Asked(op, s.cursors[id]), true)
    case Fetch(id, arraySize) =>
      if id !in s.cursors then (s, Failed(UNKNOWN_CURSOR)) else Deliver(s, id, Asked(op, s.cursors[id]), false)
    case OpenRef(meta, rows) => (Open(s, meta, rows), Done)
    case Close(ids) => (s.(cursors := s.cursors - IdSet(ids)), Done)
    case Other => (s, Done)
  }

  /** Live ids were handed out earlier, so the next one is new; no cursor is past its end. */
  predicate Inv(s: State) {
    s.nextId >= 1 && forall id :: id in s.cursors ==> 1 <= id < s.nextId && Paged(s.cursors[id])
  }

  lemma StepInv(s: State, op: Op)
    requires Inv(s)
    ensures Inv(Step(s, op).0) && s.nextId <= Step(s, op).0.nextId
  {
  }

  function Run(s: State, ops: seq<Op>): State
    requires Inv(s)
    decreases |ops|
  {
    if ops == [] then s
    else
      StepInv(s, ops[0]);
      Run(Step(s, ops[0]).0, ops[1..])
  }

  /** The rows a reply delivers for a cursor. */
  function BatchFor(id: int, r: Reply): seq<Row> {
    if r.Rows? && r.cursorId == id then r.batch else []
  }

  /** All the rows delivered for a cursor over a run, in order. */
  function Delivered(s: State, ops: seq<Op>, id: int): seq<Row>
    requires Inv(s)
    decreases |ops|
  {
    if ops == [] then []
    else
      StepInv(s, ops[0]);
      BatchFor(id, Step(s, ops[0]).1) + Delivered(Step(s, ops[0]).0, ops[1..], id)
  }

  predicate Reads(op: Op, id: int) { (op.Serve? || op.Fetch?) && op.id == id }

  /** The rows a step takes out of a cursor, whether or not its reply can carry them. */
  function Taken(s: State, op: Op, id: int): seq<Row>
    requires Inv(s)
  {
    if Reads(op, id) && id in s.cursors then TakeBatch(s.cursors[id], Asked(op, s.cursors[id])) else []
  }

  function AllTaken(s: State, ops: seq<Op>, id: int): seq<Row>
    requires Inv(s)
    decreases |ops|
  {
    if ops == [] then []
    else
      StepInv(s, ops[0]);
      Taken(s, ops[0], id) + AllTaken(Step(s, ops[0]).0, ops[1..], id)
  }

  /** A step does not lose rows of a cursor: what it takes, if anything, its reply can carry. */
  predicate KeepsRows(s: State, op: Op, id: int)
    requires Inv(s)
  {
    Taken(s, op, id) != [] ==> Writable(op.Serve?, s.cursors[id].meta, id, Taken(s, op, id))
  }

  predicate NothingLost(s: State, ops: seq<Op>, id: int)
    requires Inv(s)
    decreases |ops|
  {
    ops == [] ||
    (StepInv(s, ops[0]);
     KeepsRows(s, ops[0], id) && NothingLost(Step(s, ops[0]).0, ops[1..], id))
  }

  predicate Targets(op: Op, id: int) {
    Reads(op, id) || (op.Close? && id in op.ids)
  }

  // ---------------------------------------------------------------------
  // One step
  // ---------------------------------------------------------------------

  /** The id a query or REF CURSOR opens is never live already. */
  lemma FreshId(s: State)
    requires Inv(s)
    ensures s.nextId !in s.cursors
  {
  }

  /** A step changes at most the cursor it names: every other live cursor is untouched and gets no rows. */
  lemma StepFrame(s: State, op: Op, id: int)
    requires Inv(s) && id < s.nextId && id != 0 && !Targets(op, id)
    ensures var (t, r) := Step(s, op);
      && (id in t.cursors <==> id in s.cursors)
      && (id in s.cursors ==> t.cursors[id] == s.cursors[id])
      && BatchFor(id, r) == []
  {
  }

  /** A fetch or serve moves its batch out of what remains, no more and no less. Its reply carries that
      batch exactly when id, columns and values can be written, and then reports end of rows exactly
      when nothing is left. */
  lemma DeliverConserves(s: State, op: Op, id: int)
    requires Inv(s) && id in s.cursors && Reads(op, id)
    ensures var (t, r) := Step(s, op);
      && Inv(t) && id in t.cursors && t.cursors[id].meta == s.cursors[id].meta && t.cursors[id].rows == s.cursors[id].rows
      && Taken(s, op, id) + Remaining(t.cursors[id]) == Remaining(s.cursors[id])
      && (r.Rows? <==> Writable(op.Serve?, s.cursors[id].meta, id, Taken(s, op, id)))
      && (if r.Rows? then
            r == Rows(id, Taken(s, op, id), if Remaining(t.cursors[id]) == [] then END_OF_ROWS else 0)
          else r == Failed(BROKEN))
  {
    hide Writable;
    StepInv(s, op);
    var (t, r) := Step(s, op);
    var c, batch := s.cursors[id], Taken(s, op, id);
    assert c.rows[c.pos..] == c.rows[c.pos..c.pos + |batch|] + c.rows[c.pos + |batch|..];
  }

  // ---------------------------------------------------------------------
  // Whole runs
  // ---------------------------------------------------------------------

  lemma {:induction false} RunInv(s: State, ops: seq<Op>)
    requires Inv(s)
    ensures Inv(Run(s, ops)) && s.nextId <= Run(s, ops).nextId
    decreases |ops|
  {
    if ops != [] {
      StepInv(s, ops[0]);
      RunInv(Step(s, ops[0]).0, ops[1..]);
    }
  }

  /** Once an id is gone it never comes back: no later step serves rows for it. */
  lemma {:induction false} ClosedForever(s: State, ops: seq<Op>, id: int)
    requires Inv(s) && 1 <= id < s.nextId && id !in s.cursors
    ensures id !in Run(s, ops).cursors && Delivered(s, ops, id) == []
    decreases |ops|
  {
    if ops != [] {
      StepInv(s, ops[0]);
      assert id !in Step(s, ops[0]).0.cursors && BatchFor(id, Step(s, ops[0]).1) == [];
      ClosedForever(Step(s, ops[0]).0, ops[1..], id);
    }
  }

  /** Closing removes exactly the named ids, for good. */
  lemma CloseIsFinal(s: State, ids: seq<int>, ops: seq<Op>, id: int)
    requires Inv(s) && id in ids && id in s.cursors
    ensures var t := Step(s, Close(ids)).0;
      Inv(t) && id !in Run(t, ops).cursors && Delivered(t, ops, id) == []
  {
    StepInv(s, Close(ids));
    ClosedForever(Step(s, Close(ids)).0, ops, id);
  }

  lemma CloseStep(s: State, op: Op, id: int)
    requires Inv(s) && op.Close? && id in op.ids
    ensures id !in Step(s, op).0.cursors && BatchFor(id, Step(s, op).1) == []
  {
  }

  /** Whatever other cursors do in between, the rows taken out of a cursor and those it still holds are
      exactly the rows it held at the start. */
  lemma {:induction false} TakingConserves(s: State, ops: seq<Op>, id: int)
    requires Inv(s) && id in s.cursors
    ensures Inv(Run(s, ops))
    ensures var t, held := Run(s, ops), Remaining(s.cursors[id]);
      && AllTaken(s, ops, id) <= held
      && (id in t.cursors ==> AllTaken(s, ops, id) + Remaining(t.cursors[id]) == held
                              && t.cursors[id].rows == s.cursors[id].rows
                              && t.cursors[id].meta == s.cursors[id].meta)
    decreases |ops|
  {
    hide Step, Paged, Taken, Writable, Remaining;
    RunInv(s, ops);
    if ops != [] {
      var op := ops[0];
      var t := Step(s, op).0;
      StepInv(s, op);
      if op.Close? && id in op.ids {
        CloseStep(s, op, id);
        ClosedForever(t, ops[1..], id);
        NothingTaken(t, ops[1..], id);
        NoneTaken(s, op, id);
      } else {
        StepTakes(s, op, id);
        TakingConserves(t, ops[1..], id);
        var t' := Run(t, ops[1..]);
        Prefix(Taken(s, op, id), AllTaken(t, ops[1..], id), Remaining(t.cursors[id]));
        if id in t'.cursors {
          Associate(Taken(s, op, id), AllTaken(t, ops[1..], id), Remaining(t'.cursors[id]));
        }
      }
    }
  }

  lemma Prefix(a: seq<Row>, b: seq<Row>, c: seq<Row>)
    requires b <= c
    ensures a + b <= a + c
  {
  }

  lemma NoneTaken(s: State, op: Op, id: int)
    requires Inv(s) && !Reads(op, id)
    ensures Taken(s, op, id) == []
  {
  }

  /** One step that does not close the cursor. */
  lemma StepTakes(s: State, op: Op, id: int)
    requires Inv(s) && id in s.cursors && !(op.Close? && id in op.ids)
    ensures var t := Step(s, op).0;
      && Inv(t) && id in t.cursors && t.cursors[id].meta == s.cursors[id].meta && t.cursors[id].rows == s.cursors[id].rows
      && Taken(s, op, id) + Remaining(t.cursors[id]) == Remaining(s.cursors[id])
  {
    hide Step, Writable, Taken;
    StepInv(s, op);
    if Reads(op, id) {
      DeliverConserves(s, op, id);
    } else {
      StepFrame(s, op, id);
      NoneTaken(s, op, id);
      NothingBefore(Remaining(s.cursors[id]));
    }
  }

  lemma {:induction false} NothingTaken(s: State, ops: seq<Op>, id: int)
    requires Inv(s) && 1 <= id < s.nextId && id !in s.cursors
    ensures AllTaken(s, ops, id) == [] && NothingLost(s, ops, id)
    decreases |ops|
  {
    if ops != [] {
      StepInv(s, ops[0]);
      assert id !in Step(s, ops[0]).0.cursors;
      NothingTaken(Step(s, ops[0]).0, ops[1..], id);
    }
  }

  /** What one step delivers for a cursor is what it takes, unless it loses that. */
  lemma StepDelivers(s: State, op: Op, id: int)
    requires Inv(s) && id in s.cursors
    ensures var batch := BatchFor(id, Step(s, op).1);
      if KeepsRows(s, op, id) then batch == Taken(s, op, id) else batch == [] && Taken(s, op, id) != []
  {
    hide Step, Writable, Taken;
    if Reads(op, id) {
      DeliverConserves(s, op, id);
    } else {
      NoneTaken(s, op, id);
      if Targets(op, id) { CloseStep(s, op, id); } else { StepFrame(s, op, id); }
    }
  }

  /** What a run delivers for a cursor is exactly what it takes if and only if no step loses rows. */
  lemma {:induction false} DeliveredIsTaken(s: State, ops: seq<Op>, id: int)
    requires Inv(s) && id in s.cursors
    ensures |Delivered(s, ops, id)| <= |AllTaken(s, ops, id)|
    ensures |Delivered(s, ops, id)| == |AllTaken(s, ops, id)| <==> NothingLost(s, ops, id)
    ensures Delivered(s, ops, id) == AllTaken(s, ops, id) <==> NothingLost(s, ops, id)
    decreases |ops|
  {
    hide Step, KeepsRows, Taken, BatchFor;
    if ops != [] {
      var op := ops[0];
      var t := Step(s, op).0;
      StepInv(s, op);
      StepDelivers(s, op, id);
      if op.Close? && id in op.ids {
        CloseStep(s, op, id);
        ClosedForever(t, ops[1..], id);
        NothingTaken(t, ops[1..], id);
      } else {
        StepTakes(s, op, id);
        DeliveredIsTaken(t, ops[1..], id);
      }
    }
  }

  /** Conservation over every run: the batches delivered for a cursor are, in order, a prefix of the rows
      it held, and with those it still holds they are all of them, if and only if no reply to it had to
      drop a batch for its id, its columns or its values. */
  lemma PagingConserves(s: State, ops: seq<Op>, id: int)
    requires Inv(s) && id in s.cursors
    ensures Inv(Run(s, ops))
    ensures var t, held, sent := Run(s, ops), Remaining(s.cursors[id]), Delivered(s, ops, id);
      && (NothingLost(s, ops, id) ==> sent <= held)
      && (id in t.cursors ==> (sent + Remaining(t.cursors[id]) == held <==> NothingLost(s, ops, id)))
  {
    hide Delivered, AllTaken, NothingLost, Run, Remaining;
    TakingConserves(s, ops, id);
    DeliveredIsTaken(s, ops, id);
  }

  lemma SomeEncode(rows: seq<Row>, part: seq<Row>, rest: seq<Row>)
    requires rows == part + rest && Encodes(rows)
    ensures Encodes(part) && Encodes(rest)
  {
    hide RowEncodes;
    assert forall i :: 0 <= i < |part| ==> part[i] == rows[i];
    assert forall i :: 0 <= i < |rest| ==> rest[i] == rows[|part| + i];
  }

  lemma {:induction false} WritableKeepsAll(s: State, ops: seq<Op>, id: int)
    requires Inv(s) && id in s.cursors
    requires Writable(true, s.cursors[id].meta, id, Remaining(s.cursors[id]))
    ensures NothingLost(s, ops, id)
    decreases |ops|
  {
    hide Step, Taken, Remaining, Encodes, DescribeFits, VarintFits;
    if ops != [] {
      var op := ops[0];
      var t := Step(s, op).0;
      StepInv(s, op);
      if op.Close? && id in op.ids {
        CloseStep(s, op, id);
        NoneTaken(s, op, id);
        NothingTaken(t, ops[1..], id);
      } else {
        StepTakes(s, op, id);
        SomeEncode(Remaining(s.cursors[id]), Taken(s, op, id), Remaining(t.cursors[id]));
        WritableKeepsAll(t, ops[1..], id);
      }
    }
  }

  lemma {:induction false} DrainedKeepsAll(s: State, ops: seq<Op>, id: int)
    requires Inv(s) && id in s.cursors && Remaining(s.cursors[id]) == []
    ensures NothingLost(s, ops, id)
    decreases |ops|
  {
    hide Step, Taken, Remaining, Writable;
    if ops != [] {
      var op := ops[0];
      var t := Step(s, op).0;
      StepInv(s, op);
      if op.Close? && id in op.ids {
        CloseStep(s, op, id);
        NoneTaken(s, op, id);
        NothingTaken(t, ops[1..], id);
      } else {
        StepTakes(s, op, id);
        DrainedKeepsAll(t, ops[1..], id);
      }
    }
  }

  lemma ServeAllTakesAll(s: State, id: int)
    requires Inv(s) && id in s.cursors
    ensures Taken(s, Serve(id, 0), id) == Remaining(s.cursors[id])
  {
  }

  /** Which cursors never lose a row, whatever is done with them: exactly the empty ones, and those whose
      id fits two bytes, whose columns can be described and all of whose remaining values encode. */
  lemma ConservesAlways(s: State, id: int)
    requires Inv(s) && id in s.cursors
    ensures var c := s.cursors[id];
      (forall ops: seq<Op> :: NothingLost(s, ops, id))
      <==> Remaining(c) == [] || Writable(true, c.meta, id, Remaining(c))
  {
    hide Step, Taken, Remaining, Writable;
    var c := s.cursors[id];
    if Remaining(c) == [] {
      forall ops: seq<Op> ensures NothingLost(s, ops, id) { DrainedKeepsAll(s, ops, id); }
    } else if Writable(true, c.meta, id, Remaining(c)) {
      forall ops: seq<Op> ensures NothingLost(s, ops, id) { WritableKeepsAll(s, ops, id); }
    } else {
      ServeAllTakesAll(s, id);
      OneLost(s, Serve(id, 0), id);
    }
  }

  lemma OneLost(s: State, op: Op, id: int)
    requires Inv(s) && !KeepsRows(s, op, id)
    ensures !NothingLost(s, [op], id)
  {
    hide KeepsRows;
  }

  /** Runs compose, and so does what they deliver. */
  lemma {:induction false} RunAppend(s: State, ops: seq<Op>, more: seq<Op>, id: int)
    requires Inv(s)
    ensures Inv(Run(s, ops))
    ensures Run(s, ops + more) == Run(Run(s, ops), more)
    ensures Delivered(s, ops + more, id) == Delivered(s, ops, id) + Delivered(Run(s, ops), more, id)
    decreases |ops|
  {
    hide Step, BatchFor;
    RunInv(s, ops);
    var all := ops + more;
    if ops == [] {
      assert all == more;
      assert [] + Delivered(s, more, id) == Delivered(s, more, id);
    } else {
      StepInv(s, ops[0]);
      assert all[0] == ops[0] && all[1..] == ops[1..] + more;
      RunAppend(Step(s, ops[0]).0, ops[1..], more, id);
    }
  }

  lemma RunOne(s: State, op: Op, id: int)
    requires Inv(s)
    ensures Run(s, [op]) == Step(s, op).0 && Delivered(s, [op], id) == BatchFor(id, Step(s, op).1)
  {
    hide Step, BatchFor;
    StepInv(s, op);
    var t := Step(s, op).0;
    assert [op][1..] == [];
    assert Run(t, []) == t && Delivered(t, [], id) == [];
    assert BatchFor(id, Step(s, op).1) + [] == BatchFor(id, Step(s, op).1);
  }

  /** Whenever in a run a cursor is read, the reply carries a batch exactly when that batch can be
      written, and says 1403 exactly when every row the cursor held has now been taken; if none was
      lost, that is when every row has been delivered. */
  lemma EndCodeExact(s: State, ops: seq<Op>, op: Op, id: int)
    requires Inv(s) && id in s.cursors && Reads(op, id)
    ensures Inv(Run(s, ops))
    ensures var t, held := Run(s, ops), Remaining(s.cursors[id]);
      var r, all := Step(t, op).1, ops + [op];
      if id !in t.cursors then r == Failed(UNKNOWN_CURSOR)
      else
        && (r.Rows? <==> Writable(op.Serve?, s.cursors[id].meta, id, Taken(t, op, id)))
        && (r.Rows? ==> r.code == if AllTaken(s, all, id) == held then END_OF_ROWS else 0)
        && (r.Rows? && NothingLost(s, all, id) ==> r.code == if Delivered(s, all, id) == held then END_OF_ROWS else 0)
  {
    hide Writable, Taken, AllTaken, NothingLost, Run, Remaining, Delivered, BatchFor;
    TakingConserves(s, ops, id);
    TakingConserves(s, ops + [op], id);
    DeliveredIsTaken(s, ops + [op], id);
    RunAppend(s, ops, [op], id);
    RunOne(Run(s, ops), op, id);
    var t := Run(s, ops);
    if id in t.cursors {
      DeliverConserves(t, op, id);
      var t' := Step(t, op).0;
      assert Remaining(t'.cursors[id]) == [] <==> AllTaken(s, ops + [op], id) == Remaining(s.cursors[id]);
    }
  }

  /** A query delivers its first batch exactly when that can be written. It then answers 1403 exactly when
      that is everything, and otherwise opens a new cursor holding the rest. */
  lemma QueryOpens(s: State, meta: seq<Column>, rows: seq<Row>, numIters: int)
    requires Inv(s) && meta != []
    ensures var (t, r) := Step(s, Query(meta, rows, numIters));
      var first := FirstBatch(rows, numIters);
      && Inv(t)
      && (r.Rows? <==> Writable(true, meta, if first == rows then 0 else s.nextId, first))
      && (if r.Rows? then r.batch == first && (r.code == END_OF_ROWS <==> first == rows) else r == Failed(BROKEN))
      && if first == rows then t == s && (r.Rows? ==> r.cursorId == 0)
         else s.nextId !in s.cursors && s.nextId in t.cursors && t.cursors[s.nextId].meta == meta
              && first + Remaining(t.cursors[s.nextId]) == rows
              && (r.Rows? ==> r.code == 0 && r.cursorId == s.nextId)
  {
    hide Writable;
    StepInv(s, Query(meta, rows, numIters));
    var first := FirstBatch(rows, numIters);
    assert rows == first + rows[|first|..];
    assert rows[|first|..][0..] == rows[|first|..];
  }

  /** How many rows a query delivers at once: all of them when none is asked for, or as many as asked for. A
      cursor is opened exactly when some are asked for and more are there, on the rest of them. */
  lemma QueryBatch(s: State, meta: seq<Column>, rows: seq<Row>, numIters: int)
    requires Inv(s) && meta != []
    ensures var (t, r) := Step(s, Query(meta, rows, numIters));
      var k := if numIters <= 0 then |rows| else if numIters < |rows| then numIters else |rows|;
      && (r.Rows? ==> r.batch == rows[..k])
      && (s.nextId in t.cursors <==> 0 < numIters < |rows|)
      && (if 0 < numIters < |rows| then
            && t.cursors == s.cursors[s.nextId := Cursor(meta, rows[k..], 0)] && t.nextId == s.nextId + 1
            && (r.Rows? ==> r.code == 0 && r.cursorId == s.nextId)
          else t == s && (r.Rows? ==> r.code == 1403 && r.cursorId == 0))
  {
    hide Writable;
    assert rows[..|rows|] == rows;
  }

  /** How many rows a fetch or serve takes. A serve of zero takes all that are left; a negative count ends that
      far before the end of the rows, if it reaches back over the position at all. */
  lemma BatchSize(s: State, op: Op, id: int)
    requires Inv(s) && id in s.cursors && Reads(op, id)
    ensures var c, batch := s.cursors[id], Taken(s, op, id);
      var left, n := Remaining(c), if op.Fetch? then op.arraySize else op.numIters;
      && |batch| <= |left| && batch == left[..|batch|]
      && |batch| == if n == 0 then (if op.Serve? then |left| else 0)
                    else if n > 0 then (if n < |left| then n else |left|)
                    else if c.pos + n < 0 && |c.rows| + n > 0 then |c.rows| + n
                    else 0
  {
  }

  /** A whole query that opened a cursor: its first batch, then everything delivered for the cursor in any
      later run, is a prefix of its rows, and all of them but what the cursor still holds, if and only
      if no later reply loses a batch. */
  lemma QueryConserves(s: State, meta: seq<Column>, rows: seq<Row>, numIters: int, ops: seq<Op>)
    requires Inv(s) && meta != []
    ensures Inv(Step(s, Query(meta, rows, numIters)).0)
    ensures var (t, r) := Step(s, Query(meta, rows, numIters));
      && Inv(Run(t, ops))
      && (r.Rows? && r.code != END_OF_ROWS ==>
            && (NothingLost(t, ops, r.cursorId) ==> r.batch + Delivered(t, ops, r.cursorId) <= rows)
            && (r.cursorId in Run(t, ops).cursors ==>
                  (r.batch + (Delivered(t, ops, r.cursorId) + Remaining(Run(t, ops).cursors[r.cursorId])) == rows
                   <==> NothingLost(t, ops, r.cursorId))))
  {
    hide Writable, Step, Remaining, NothingLost, Delivered, Run;
    var (t, r) := Step(s, Query(meta, rows, numIters));
    QueryOpens(s, meta, rows, numIters);
    RunInv(t, ops);
    if r.Rows? && r.code != END_OF_ROWS {
      PagingConserves(t, ops, r.cursorId);
      var held, d := Remaining(t.cursors[r.cursorId]), Delivered(t, ops, r.cursorId);
      if d <= held { Prefix(r.batch, d, held); }
      if r.cursorId in Run(t, ops).cursors {
        SamePrefix(r.batch, d + Remaining(Run(t, ops).cursors[r.cursorId]), held);
      }
    }
  }

  lemma SamePrefix(a: seq<Row>, b: seq<Row>, c: seq<Row>)
    ensures a + b == a + c <==> b == c
  {
    assert b == (a + b)[|a|..] && c == (a + c)[|a|..];
  }

  // ---------------------------------------------------------------------
  // Progress
  // ---------------------------------------------------------------------

  /** Everything done to the cursor is a fetch of size k. */
  predicate OnlyFetches(ops: seq<Op>, id: int, k: int) {
    forall i :: 0 <= i < |ops| && Targets(ops[i], id) ==> ops[i] == Fetch(id, k)
  }

  function Fetches(ops: seq<Op>, id: int): nat {
    if ops == [] then 0 else (if Targets(ops[0], id) then 1 else 0) + Fetches(ops[1..], id)
  }

  /** After n fetches of size k, with anything else going on around them, exactly n*k rows have gone, or all. */
  lemma {:induction false} FetchProgress(s: State, ops: seq<Op>, id: int, k: int)
    requires Inv(s) && id in s.cursors && k >= 1 && OnlyFetches(ops, id, k)
    ensures var t, c := Run(s, ops), s.cursors[id];
      id in t.cursors && t.cursors[id] == c.(pos := Min(|c.rows|, c.pos + Fetches(ops, id) * k))
    decreases |ops|
  {
    hide Step;
    if ops == [] {
      assert Fetches(ops, id) * k == 0;
    } else {
      var op := ops[0];
      var t := Step(s, op).0;
      StepInv(s, op);
      OneProgress(s, op, id, k);
      FetchProgress(t, ops[1..], id, k);
      OneMore(Fetches(ops[1..], id), k);
      MulNonNegative(Fetches(ops[1..], id), k);
    }
  }

  lemma OneProgress(s: State, op: Op, id: int, k: int)
    requires Inv(s) && id in s.cursors && k >= 1 && (Targets(op, id) ==> op == Fetch(id, k))
    ensures var t, c := Step(s, op).0, s.cursors[id];
      id in t.cursors && t.cursors[id] == c.(pos := if Targets(op, id) then Min(|c.rows|, c.pos + k) else c.pos)
  {
    if !Targets(op, id) { StepFrame(s, op, id); }
  }

  lemma OneMore(n: int, k: int)
    ensures (n + 1) * k == n * k + k
  {
  }

  lemma FetchSize(s: State, id: int, k: int)
    requires Inv(s) && id in s.cursors && k >= 1
    ensures |Taken(s, Fetch(id, k), id)| == Min(k, |Remaining(s.cursors[id])|)
  {
  }

  /** With r rows left, the fetch numbered n is answered exactly when its batch can be written, and then
      with 1403 exactly when n*k >= r: first at the quotient rounded up, and at every later fetch, which
      carries no rows. */
  lemma FetchesToEnd(s: State, ops: seq<Op>, id: int, k: int)
    requires Inv(s) && id in s.cursors
    requires k >= 1 && OnlyFetches(ops, id, k)
    ensures Inv(Run(s, ops)) && id in Run(s, ops).cursors
    ensures var t, op := Run(s, ops), Fetch(id, k);
      var n, left, r, batch := Fetches(ops, id) + 1, |Remaining(s.cursors[id])|, Step(t, op).1, Taken(t, op, id);
      && (r.Rows? <==> Writable(false, s.cursors[id].meta, id, batch))
      && (r.Rows? ==> r.cursorId == id && r.batch == batch && (r.code == END_OF_ROWS <==> n * k >= left))
      && |batch| == if (n - 1) * k >= left then 0 else Min(k, left - (n - 1) * k)
  {
    hide Writable, Run, Fetches, Taken;
    RunInv(s, ops);
    FetchProgress(s, ops, id, k);
    DeliverConserves(Run(s, ops), Fetch(id, k), id);
    OneMore(Fetches(ops, id), k);
    FetchSize(Run(s, ops), id, k);
  }

  // ---------------------------------------------------------------------
  // What cannot be answered
  // ---------------------------------------------------------------------

  /** A fetch or serve is answered with rows exactly when the cursor is live, its id fits two bytes, a
      serve can describe its columns, and every value of the batch encodes. When only the writing fails,
      the batch is gone all the same. */
  lemma ReadAnswers(s: State, op: Op, id: int)
    requires Inv(s) && Reads(op, id)
    ensures var (t, r) := Step(s, op);
      && (r.Rows? <==> id in s.cursors && id < 65536 && (op.Serve? ==> DescribeFits(s.cursors[id].meta))
                       && Encodes(Taken(s, op, id)))
      && (id in s.cursors && !r.Rows? ==>
            r == Failed(BROKEN) && t.cursors[id].pos == s.cursors[id].pos + |Taken(s, op, id)|)
  {
    hide DescribeFits, Encodes;
    assert Pow(256, 2) == 65536;
  }

  /** The cursor opened after 65535 others cannot be fetched from; its row is lost. */
  lemma TooManyCursors(meta: seq<Column>, row: Row)
    ensures var s := State(map[65536 := Cursor(meta, [row], 0)], 65537);
      && Inv(s) && Step(s, Fetch(65536, 1)).1 == Failed(BROKEN)
      && Remaining(Step(s, Fetch(65536, 1)).0.cursors[65536]) == []
      && !NothingLost(s, [Fetch(65536, 1)], 65536)
  {
    var s := State(map[65536 := Cursor(meta, [row], 0)], 65537);
    assert Taken(s, Fetch(65536, 1), 65536) == [row];
    ReadAnswers(s, Fetch(65536, 1), 65536);
    OneLost(s, Fetch(65536, 1), 65536);
  }
}
