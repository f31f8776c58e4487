/** What a client sends: the requests written out, and that the session reads them as they are meant. */
module Client {
  import opened Basics
  import opened PlaceValue
  import opened Wire
  import opened Buffer
  import opened Messages
  import opened Responses
  import opened Cursors
  import opened Params
  import opened Blocks
  import opened Execution
  import opened Greetings
  import opened Requests
  import Utf8

  // ---------------------------------------------------------------------
  // Execute requests
  // ---------------------------------------------------------------------

  /** A bind described: its type, and what the session passes over. */
  datatype BindOrder = BindOrder(oraType: byte, flags: seq<int>, sizes: seq<int>, contFlag: int, oid: Option<seq<byte>>) {
    predicate Valid() {
      && |flags| == 4 && |sizes| == 5
      && (forall i :: 0 <= i < 5 ==> VarintFits(sizes[i], if i < 2 || i == 4 then 4 else 2))
      && VarintFits(contFlag, 8) && (oid.Some? ==> |oid.value| < 0x1_0000_0000)
    }
  }

  function BindOrderFields(b: BindOrder): seq<Field>
    requires b.Valid()
  {
    [U8(b.oraType), U8(b.flags[0]), U8(b.flags[1]), U8(b.flags[2]), UB(b.sizes[0], 4), UB(b.sizes[1], 4),
     UB(b.contFlag, 8), Sized(b.oid), UB(b.sizes[2], 2), UB(b.sizes[3], 2), U8(b.flags[3]), UB(b.sizes[4], 4)]
  }

  predicate BindsValid(binds: seq<BindOrder>) { forall i :: 0 <= i < |binds| ==> binds[i].Valid() }

  function BindsBytes(binds: seq<BindOrder>): seq<byte>
    requires BindsValid(binds)
  {
    if binds == [] then []
    else
      BindPrintable(binds[0]);
      PrintAll(BindOrderFields(binds[0])) + BindsBytes(binds[1..])
  }

  function TypesOf(binds: seq<BindOrder>): seq<int> { seq(|binds|, i requires 0 <= i < |binds| => binds[i].oraType) }

  lemma BindPrintable(b: BindOrder)
    requires b.Valid()
    ensures AllPrintable(BindOrderFields(b))
  {
    hide VarintFits;
  }

  lemma BindRead(b: BindOrder, tail: seq<byte>)
    requires b.Valid()
    ensures AllPrintable(BindOrderFields(b))
    ensures var r := ReadFields(BIND_SHAPES, PrintAll(BindOrderFields(b)) + tail);
      r.Ok? && Num(r.value.0[0]) == b.oraType && r.value.1 == tail
  {
    hide PrintAll, ReadFields, VarintFits;
    BindPrintable(b);
    FieldsRead(BindOrderFields(b), tail);
    assert ShapesOf(BindOrderFields(b)) == BIND_SHAPES;
  }

  /** Bind descriptions are read back as their types. */
  lemma {:induction false} BindsRead(binds: seq<BindOrder>, tail: seq<byte>)
    requires BindsValid(binds)
    ensures ReadBindTypes(|binds|, BindsBytes(binds) + tail) == Ok((TypesOf(binds), tail))
  {
    hide PrintAll, ReadFields, BindOrderFields;
    if binds == [] {
      NothingBefore(tail);
    } else {
      var later := BindsBytes(binds[1..]) + tail;
      BindRead(binds[0], later);
      BindsRead(binds[1..], tail);
      Associate(PrintAll(BindOrderFields(binds[0])), BindsBytes(binds[1..]), tail);
      assert TypesOf(binds) == [binds[0].oraType as int] + TypesOf(binds[1..]);
    }
  }

  /** The values of binds: a marker byte for a cursor, otherwise bytes that decode for the type. */
  predicate ValuesFit(types: seq<int>, values: seq<seq<byte>>) {
    && |values| == |types|
    && forall i :: 0 <= i < |types| ==>
         if types[i] == 102 then |values[i]| == 1 else Decodes(types[i], NonEmpty(values[i]))
  }

  function ValuesBytes(types: seq<int>, values: seq<seq<byte>>): seq<byte>
    requires |values| == |types|
  {
    if types == [] then []
    else (if types[0] == 102 then values[0] else ByteString(values[0])) + ValuesBytes(types[1..], values[1..])
  }

  lemma {:induction false} ValuesRead(types: seq<int>, values: seq<seq<byte>>, tail: seq<byte>)
    requires ValuesFit(types, values)
    ensures ReadBindValues(types, ValuesBytes(types, values) + tail) == Ok(((), tail))
  {
    hide ByteString, ReadBytes, Decodes;
    if types == [] {
      NothingBefore(tail);
    } else {
      var later := ValuesBytes(types[1..], values[1..]) + tail;
      ValuesRead(types[1..], values[1..], tail);
      if types[0] == 102 {
        assert ValuesBytes(types, values) + tail == values[0] + later;
        assert (values[0] + later)[1..] == later;
      } else {
        Associate(ByteString(values[0]), ValuesBytes(types[1..], values[1..]), tail);
        BytesRead(values[0], later);
      }
    }
  }

  /** An execute request. The fields the session passes over are in others, counts and flag. */
  datatype Order = Order(options: int, cursorId: int, statement: Option<seq<byte>>, flag: int, iterations: int,
                         maxLong: int, stated: int, binds: seq<BindOrder>, values: Option<seq<seq<byte>>>,
                         defines: seq<BindOrder>, query: int, others: seq<int>, counts: seq<int>) {
    predicate Valid() {
      && VarintFits(options, 4) && VarintFits(cursorId, 4) && VarintFits(iterations, 4) && VarintFits(maxLong, 4)
      && VarintFits(stated, 4) && VarintFits(flag, 4) && VarintFits(query, 4) && VarintFits(|defines|, 4)
      && |others| == 22 && (forall i :: 0 <= i < 22 ==> VarintFits(others[i], 4))
      && |counts| == 11 && (forall i :: 0 <= i < 11 ==> VarintFits(counts[i], 4))
      && (statement.Some? ==> Utf8.IsUtf8(statement.value))
      && BindsValid(binds) && BindsValid(defines)
      && (binds != [] ==> stated == |binds|)
      && (values.Some? ==> ValuesFit(TypesOf(binds), values.value))
    }
  }

  /** Options, cursor, statement, iterations, binds and defines at their places among the others. */
  function HeadFields(o: Order): seq<Field>
    requires |o.others| == 22
  {
    FrontFields(o) + BackFields(o)
  }

  function FrontFields(o: Order): seq<Field>
    requires |o.others| == 22
  {
    var x := o.others;
    [UB(o.options, 4), UB(o.cursorId, 4), U8(if o.statement.Some? then 1 else 0), UB(x[0], 4), U8(x[1]), UB(x[2], 4),
     U8(x[3]), U8(x[4]), UB(x[5], 4), UB(o.iterations, 4), UB(o.maxLong, 4), U8(if o.binds != [] then 1 else 0),
     UB(o.stated, 4)]
  }

  function BackFields(o: Order): seq<Field>
    requires |o.others| == 22
  {
    var x := o.others;
    [U8(x[6]), U8(x[7]), U8(x[8]), U8(x[9]), U8(x[10]), U8(if o.defines != [] then 1 else 0), UB(|o.defines|, 4),
     UB(x[11], 4), U8(x[12]), U8(x[13]), U8(x[14]), UB(x[15], 4), U8(x[16]), UB(x[17], 4), UB(x[18], 4), U8(x[19]),
     UB(x[20], 4), U8(x[21])]
  }

  function CountFields(o: Order): seq<Field>
    requires |o.counts| == 11
  {
    var c := o.counts;
    [UB(c[0], 4), UB(c[1], 4), UB(c[2], 4), UB(c[3], 4), UB(c[4], 4), UB(c[5], 4), UB(o.query, 4), UB(c[6], 4),
     UB(c[7], 4), UB(c[8], 4), UB(c[9], 4), UB(c[10], 4)]
  }

  function StatementBytes(o: Order): seq<byte> {
    if o.statement.Some? then ByteString(o.statement.value) + Varint(o.flag, 4) else []
  }

  /** Values follow the binds unless the statement is a query or sends values back only. */
  function ValuePart(o: Order, returning: bool): seq<byte>
    requires o.Valid()
  {
    if o.binds == [] || o.query != 0 || returning then []
    else if o.values.Some? then [7] + ValuesBytes(TypesOf(o.binds), o.values.value)
    else [0]
  }

  lemma HeadPrintable(o: Order)
    requires o.Valid()
    ensures AllPrintable(HeadFields(o)) && AllPrintable(CountFields(o))
  {
    hide VarintFits;
  }

  function OrderBytes(o: Order, returning: bool): seq<byte>
    requires o.Valid()
  {
    HeadPrintable(o);
    PrintAll(HeadFields(o))
    + (StatementBytes(o) + (PrintAll(CountFields(o)) + (BindsBytes(o.defines) + (BindsBytes(o.binds) + ValuePart(o, returning)))))
  }

  /** What the session takes from it. */
  function Ordered(o: Order): Execute
    requires o.Valid()
  {
    Execute(o.options, o.cursorId, if o.statement.Some? then NonEmpty(o.statement.value) else None, o.iterations, o.stated,
            TypesOf(o.binds))
  }

  lemma HeadRead(o: Order, tail: seq<byte>)
    requires o.Valid()
    ensures AllPrintable(HeadFields(o))
    ensures var r := ReadFields(EXECUTE_SHAPES, PrintAll(HeadFields(o)) + tail);
      && r.Ok? && r.value.1 == tail
      && var vs := r.value.0;
      && Num(vs[0]) == o.options && Num(vs[1]) == o.cursorId && (Num(vs[2]) != 0 <==> o.statement.Some?)
      && Num(vs[9]) == o.iterations && (Num(vs[11]) != 0 <==> o.binds != []) && Num(vs[12]) == o.stated
      && (Num(vs[18]) != 0 <==> o.defines != []) && Num(vs[19]) == |o.defines|
  {
    hide PrintAll, ReadFields, VarintFits, HeadFields;
    HeadPrintable(o);
    FieldsRead(HeadFields(o), tail);
    HeadPlaces(o);
  }

  lemma HeadPlaces(o: Order)
    requires |o.others| == 22
    ensures var fs := HeadFields(o);
      && ShapesOf(fs) == EXECUTE_SHAPES && |fs| == 31
      && fs[0] == UB(o.options, 4) && fs[1] == UB(o.cursorId, 4) && fs[2] == U8(if o.statement.Some? then 1 else 0)
      && fs[9] == UB(o.iterations, 4) && fs[11] == U8(if o.binds != [] then 1 else 0) && fs[12] == UB(o.stated, 4)
      && fs[18] == U8(if o.defines != [] then 1 else 0) && fs[19] == UB(|o.defines|, 4)
  {
    HeadShapes(o);
    hide ShapesOf;
    assert forall i :: 0 <= i < 13 ==> HeadFields(o)[i] == FrontFields(o)[i];
    assert forall i :: 13 <= i < 31 ==> HeadFields(o)[i] == BackFields(o)[i - 13];
  }

  lemma HeadShapes(o: Order)
    requires |o.others| == 22
    ensures ShapesOf(HeadFields(o)) == EXECUTE_SHAPES
  {
    ShapesAppend(FrontFields(o), BackFields(o));
    FrontShapes(o); BackShapes(o);
  }

  lemma FrontShapes(o: Order)
    requires |o.others| == 22
    ensures ShapesOf(FrontFields(o)) == STATEMENT_SHAPES
  {
  }

  lemma BackShapes(o: Order)
    requires |o.others| == 22
    ensures ShapesOf(BackFields(o)) == POINTER_SHAPES
  {
  }

  lemma CountsRead(o: Order, tail: seq<byte>)
    requires o.Valid()
    ensures AllPrintable(CountFields(o))
    ensures var r := ReadFields(COUNT_SHAPES, PrintAll(CountFields(o)) + tail);
      r.Ok? && r.value.1 == tail && Num(r.value.0[6]) == o.query
  {
    hide PrintAll, ReadFields, VarintFits;
    HeadPrintable(o);
    FieldsRead(CountFields(o), tail);
    assert ShapesOf(CountFields(o)) == COUNT_SHAPES;
  }

  lemma StatementRead(o: Order, tail: seq<byte>)
    requires o.Valid()
    ensures ReadStatement(o.statement.Some?, StatementBytes(o) + tail)
         == Ok((if o.statement.Some? then NonEmpty(o.statement.value) else None, tail))
  {
    hide ByteString, Varint, ReadBytes, ReadVarint, VarintFits;
    if o.statement.Some? {
      var text := ByteString(o.statement.value);
      Associate(text, Varint(o.flag, 4), tail);
      BytesRead(o.statement.value, Varint(o.flag, 4) + tail);
      VarintRead(o.flag, 4, Some(4), tail);
    } else {
      NothingBefore(tail);
    }
  }

  lemma BindPartRead(o: Order, returning: bool, tail: seq<byte>)
    requires o.Valid() && o.binds != []
    ensures ReadBinds(o.stated, o.query == 0 && !returning, BindsBytes(o.binds) + (ValuePart(o, returning) + tail))
         == Ok((TypesOf(o.binds), tail))
  {
    hide ReadBindTypes, ReadBindValues, BindsBytes, ValuesBytes, VarintFits;
    BindsRead(o.binds, ValuePart(o, returning) + tail);
    if o.query != 0 || returning {
      NothingBefore(tail);
    } else if o.values.Some? {
      var values := ValuesBytes(TypesOf(o.binds), o.values.value);
      ValuesRead(TypesOf(o.binds), o.values.value, tail);
      assert ([7] + values + tail)[1..] == values + tail;
    } else {
      assert ([0] + tail)[1..] == tail;
    }
  }

  lemma DefinesRead(o: Order, tail: seq<byte>)
    requires o.Valid()
    ensures ReadBindTypes(if o.defines != [] then |o.defines| else 0, BindsBytes(o.defines) + tail)
         == Ok((TypesOf(o.defines), tail))
  {
    hide ReadFields, PrintAll;
    BindsRead(o.defines, tail);
  }

  lemma OrderLayout(o: Order, returning: bool, tail: seq<byte>)
    requires o.Valid()
    ensures AllPrintable(HeadFields(o)) && AllPrintable(CountFields(o))
    ensures OrderBytes(o, returning) + tail
         == PrintAll(HeadFields(o)) + (StatementBytes(o) + (PrintAll(CountFields(o))
            + (BindsBytes(o.defines) + (BindsBytes(o.binds) + (ValuePart(o, returning) + tail)))))
  {
    hide PrintAll, BindsBytes, StatementBytes, ValuePart, HeadFields, CountFields, VarintFits;
    HeadPrintable(o);
    var e, d := BindsBytes(o.binds), BindsBytes(o.defines);
    var v, c := ValuePart(o, returning), PrintAll(CountFields(o));
    Associate(e, v, tail);
    Associate(d, e + v, tail);
    Associate(c, d + (e + v), tail);
    Associate(StatementBytes(o), c + (d + (e + v)), tail);
    Associate(PrintAll(HeadFields(o)), StatementBytes(o) + (c + (d + (e + v))), tail);
  }

  /** An execute request is read as it was written, up to any tail. */
  lemma ExecuteRead(o: Order, returning: bool, tail: seq<byte>)
    requires o.Valid()
    ensures ReadExecute(returning, OrderBytes(o, returning) + tail) == Ok((Ordered(o), tail))
  {
    hide ReadFields, ReadStatement, ReadBindTypes, ReadBinds, PrintAll, OrderBytes, BindsBytes, StatementBytes, HeadFields,
      CountFields, VarintFits;
    OrderLayout(o, returning, tail);
    var v := ValuePart(o, returning) + tail;
    var e := BindsBytes(o.binds) + v;
    var d := BindsBytes(o.defines) + e;
    var c := PrintAll(CountFields(o)) + d;
    HeadRead(o, StatementBytes(o) + c);
    StatementRead(o, c);
    CountsRead(o, d);
    DefinesRead(o, e);
    if o.binds != [] {
      BindPartRead(o, returning, tail);
    } else {
      NoBinds();
      assert v == tail && e == tail;
      assert TypesOf(o.binds) == [];
    }
  }

  lemma NoBinds()
    ensures BindsBytes([]) == []
  {
  }

  // ---------------------------------------------------------------------
  // Payloads
  // ---------------------------------------------------------------------

  /** A function request: message type 3, function code, sequence number, body. */
  function Request(fn: byte, sequence: byte, body: seq<byte>): seq<byte> { [3, fn, sequence] + body }

  lemma RequestParts(fn: byte, sequence: byte, body: seq<byte>)
    ensures var p := Request(fn, sequence, body); |p| >= 3 && p[0] == 3 && p[1] == fn && p[3..] == body && !IsPiggyback(p)
  {
  }

  lemma RequestMeans(s: State, db: Database, fn: byte, sequence: byte, body: seq<byte>, outside: Outside)
    requires Inv(s)
    ensures var p := Request(fn, sequence, body);
      && PayloadOps(p, outside) == RequestOps(fn, body, outside)
      && PayloadReply(s, db, p, outside) == Answered(RequestReply(s, db, fn, body, outside))
      && PayloadDatabase(db, p, outside) == RequestDatabase(db, fn, body, outside)
  {
    hide RequestOps, RequestReply, RequestDatabase, Answered;
    RequestParts(fn, sequence, body);
  }

  /** Function 94 without a statement serves the cursor it names, so many rows at once. */
  lemma ServeRequest(s: State, db: Database, sequence: byte, o: Order, outside: Outside)
    requires Inv(s) && o.Valid() && o.statement.None? && o.cursorId != 0
    ensures var p, op := Request(94, sequence, OrderBytes(o, outside.returning)), Serve(o.cursorId, o.iterations);
      && PayloadOps(p, outside) == [op]
      && PayloadReply(s, db, p, outside) == Answered(CursorReply(s, op))
  {
    hide ReadExecute, OrderBytes, CursorReply, Answered, VarintFits;
    var body := OrderBytes(o, outside.returning);
    OrderRead(o, outside.returning);
    RequestMeans(s, db, 94, sequence, body, outside);
  }

  lemma OrderRead(o: Order, returning: bool)
    requires o.Valid()
    ensures ReadExecute(returning, OrderBytes(o, returning)) == Ok((Ordered(o), []))
  {
    hide ReadExecute, OrderBytes;
    ExecuteRead(o, returning, []);
    NothingAfter(OrderBytes(o, returning));
  }

  /** With a statement that is to be executed or fetched from, option bits 5 and 6, it is a query with the rows the
      statement has, so many of them at once. */
  lemma QueryRequest(s: State, db: Database, sequence: byte, o: Order, outside: Outside)
    requires Inv(s) && o.Valid() && o.statement.Some? && o.statement.value != []
    requires outside.statement.Sql? && outside.statement.failure.None?
    requires o.options / 32 % 2 == 1 || o.options / 64 % 2 == 1
    ensures var p, st := Request(94, sequence, OrderBytes(o, outside.returning)), outside.statement;
      && PayloadOps(p, outside) == [Query(st.meta, st.rows, o.iterations)]
      && PayloadReply(s, db, p, outside) == Answered(QueryReply(s, st.meta, st.rows, o.iterations, st.rowcount))
  {
    hide ReadExecute, OrderBytes, QueryReply, Answered, VarintFits;
    OrderRead(o, outside.returning);
    OptionBits(o.options);
    RequestMeans(s, db, 94, sequence, OrderBytes(o, outside.returning), outside);
  }

  lemma OptionBits(options: int)
    ensures Runs(options) <==> options / 32 % 2 == 1 || options / 64 % 2 == 1
  {
    assert options / 64 == options / 32 / 2;
  }

  /** With neither bit, the statement is acknowledged and not run. */
  lemma DefineRequest(s: State, db: Database, sequence: byte, o: Order, outside: Outside)
    requires Inv(s) && o.Valid() && o.statement.Some? && o.statement.value != [] && outside.statement.Sql?
    requires o.options / 32 % 2 == 0 && o.options / 64 % 2 == 0
    ensures var p := Request(94, sequence, OrderBytes(o, outside.returning));
      && PayloadOps(p, outside) == []
      && PayloadReply(s, db, p, outside) == Answered(Written(Encoding(ErrorMessages(MoreRows(0), true))))
  {
    hide ReadExecute, OrderBytes, Encoding, ErrorMessages, Answered, VarintFits;
    OrderRead(o, outside.returning);
    OptionBits(o.options);
    RequestMeans(s, db, 94, sequence, OrderBytes(o, outside.returning), outside);
  }

  /** The binds of a request with the values a block gives them: those of type 102 are cursors. */
  function Assigned(binds: seq<BindOrder>, values: Row): seq<Bind>
    requires |binds| == |values|
  {
    seq(|binds|, i requires 0 <= i < |binds| => Bind(binds[i].oraType == 102, values[i]))
  }

  /** A block opens its cursors in order and answers with its binds: those of type 102 are cursors. */
  lemma BlockRequest(s: State, db: Database, sequence: byte, o: Order, outside: Outside)
    requires Inv(s) && o.Valid() && o.statement.Some? && o.statement.value != []
    requires outside.statement.PlSql? && |outside.statement.values| == |o.binds|
    ensures var p, st := Request(94, sequence, OrderBytes(o, outside.returning)), outside.statement;
      && PayloadOps(p, outside) == OpenOps(st.results)
      && PayloadReply(s, db, p, outside) == Answered(
           if st.failure.Some? then Err(st.failure.value)
           else Written(BlockEncoding(o.stated, Assigned(o.binds, st.values), LastChild(s, st.results))))
  {
    hide ReadExecute, OrderBytes, BlockEncoding, Answered, VarintFits, OpenOps, LastChild;
    OrderRead(o, outside.returning);
    assert BindsOf(TypesOf(o.binds), outside.statement.values) == Assigned(o.binds, outside.statement.values);
    RequestMeans(s, db, 94, sequence, OrderBytes(o, outside.returning), outside);
  }

  /** A RETURNING statement is answered with the values of each bind the request describes. */
  lemma ReturningRequest(s: State, db: Database, sequence: byte, o: Order, outside: Outside)
    requires Inv(s) && o.Valid() && o.statement.Some? && o.statement.value != []
    requires outside.statement.Returned? && |outside.statement.cells| == |o.binds|
    ensures var p, st := Request(94, sequence, OrderBytes(o, outside.returning)), outside.statement;
      && PayloadOps(p, outside) == []
      && PayloadReply(s, db, p, outside) == Answered(Written(ReturningEncoding(st.cells, st.count, st.eocs)))
  {
    hide ReadExecute, OrderBytes, ReturningEncoding, Answered, VarintFits;
    OrderRead(o, outside.returning);
    assert CellsOf(TypesOf(o.binds), outside.statement.cells) == outside.statement.cells;
    RequestMeans(s, db, 94, sequence, OrderBytes(o, outside.returning), outside);
  }

  /** Transaction control is acknowledged; a statement that fails, or is refused before it runs, raises what it
      raises, and touches no cursor. */
  lemma FailedRequest(s: State, db: Database, sequence: byte, o: Order, outside: Outside)
    requires Inv(s) && o.Valid() && o.statement.Some? && o.statement.value != []
    requires var st := outside.statement;
      st.Transaction? || st.Refuses? || (st.Sql? && st.failure.Some? && (o.options / 32 % 2 == 1 || o.options / 64 % 2 == 1))
    ensures var p, st := Request(94, sequence, OrderBytes(o, outside.returning)), outside.statement;
      && PayloadOps(p, outside) == []
      && PayloadReply(s, db, p, outside) == Answered(
           if st.Transaction? then Written(Encoding(ErrorMessages(MoreRows(0), true)))
           else Err(if st.Refuses? then st.e else st.failure.value))
  {
    hide ReadExecute, OrderBytes, Encoding, ErrorMessages, Answered, VarintFits;
    OrderRead(o, outside.returning);
    OptionBits(o.options);
    RequestMeans(s, db, 94, sequence, OrderBytes(o, outside.returning), outside);
  }

  /** A request with neither statement nor cursor is refused, and one that cannot be read raises. */
  lemma EmptyRequest(s: State, db: Database, sequence: byte, body: seq<byte>, outside: Outside)
    requires Inv(s)
    ensures var p, r := Request(94, sequence, body), ReadExecute(outside.returning, body);
      && (r.Err? ==> PayloadOps(p, outside) == [] && PayloadReply(s, db, p, outside) == Answered(Err(Unexpected)))
      && (r.Ok? && r.value.0.sql.None? && r.value.0.cursorId == 0 ==>
            && PayloadOps(p, outside) == []
            && PayloadReply(s, db, p, outside)
               == Answered(Err(Ora(900, AsciiBytes("ORA-00900: statement without text"), 0))))
  {
    hide ReadExecute, Answered, AsciiBytes;
    RequestMeans(s, db, 94, sequence, body, outside);
  }

  /** Function 5 fetches so many rows of a cursor. */
  lemma FetchRequest(s: State, db: Database, sequence: byte, id: int, n: int, outside: Outside)
    requires Inv(s) && VarintFits(id, 4) && VarintFits(n, 4)
    ensures var p, op := Request(5, sequence, Varint(id, 4) + Varint(n, 4)), Op.Fetch(id, n);
      && PayloadOps(p, outside) == [op]
      && PayloadReply(s, db, p, outside) == Answered(CursorReply(s, op))
  {
    hide Varint, ReadVarint, CursorReply, Answered, VarintFits;
    var body := Varint(id, 4) + Varint(n, 4);
    VarintRead(id, 4, Some(4), Varint(n, 4));
    VarintRead(n, 4, Some(4), []);
    NothingAfter(Varint(n, 4));
    assert ReadFetch(body) == Ok(((id, n), []));
    RequestMeans(s, db, 5, sequence, body, outside);
  }

  // ---------------------------------------------------------------------
  // Piggybacks
  // ---------------------------------------------------------------------

  predicate IdsFit(ids: seq<int>) { VarintFits(|ids|, 4) && forall i :: 0 <= i < |ids| ==> VarintFits(ids[i], 4) }

  function IdsBytes(ids: seq<int>): seq<byte> { if ids == [] then [] else Varint(ids[0], 4) + IdsBytes(ids[1..]) }

  /** Cursor ids are read back as they were written, up to any tail. */
  lemma {:induction false} IdsRead(ids: seq<int>, tail: seq<byte>)
    requires forall i :: 0 <= i < |ids| ==> VarintFits(ids[i], 4)
    ensures ReadIds(|ids|, IdsBytes(ids) + tail) == (ids, Ok(tail))
  {
    hide Varint, ReadVarint, VarintFits;
    if ids == [] {
      NothingBefore(tail);
    } else {
      Associate(Varint(ids[0], 4), IdsBytes(ids[1..]), tail);
      VarintRead(ids[0], 4, Some(4), IdsBytes(ids[1..]) + tail);
      IdsRead(ids[1..], tail);
      assert [ids[0]] + ids[1..] == ids;
    }
  }

  /** A piggyback: message type 17, code, sequence number, body. */
  function Carried(code: byte, sequence: byte, body: seq<byte>, rest: seq<byte>): seq<byte> {
    [17, code, sequence] + (body + rest)
  }

  lemma CarriedParts(code: byte, sequence: byte, body: seq<byte>, rest: seq<byte>)
    ensures var p := Carried(code, sequence, body, rest);
      |p| >= 3 && p[0] == 17 && p[1] == code && p[3..] == body + rest && IsPiggyback(p)
  {
  }

  /** Code 105 closes the cursors it names, and the rest of the payload is what it would be without it. */
  lemma CloseCarried(s: State, db: Database, sequence: byte, ids: seq<int>, rest: seq<byte>, outside: Outside)
    requires Inv(s) && IdsFit(ids)
    ensures Inv(Step(s, Close(ids)).0)
    ensures var p, t := Carried(105, sequence, Varint(|ids|, 4) + IdsBytes(ids), rest), Step(s, Close(ids)).0;
      && PayloadOps(p, outside) == [Close(ids)] + PayloadOps(rest, outside)
      && PayloadReply(s, db, p, outside) == PayloadReply(t, db, rest, outside)
      && PayloadDatabase(db, p, outside) == PayloadDatabase(db, rest, outside)
  {
    hide Varint, ReadVarint, ReadIds, IdsBytes, VarintFits, MessageOps, MessageReply, MessageDatabase, PiggybackRest;
    StepInv(s, Close(ids));
    var body := Varint(|ids|, 4) + IdsBytes(ids);
    CarriedParts(105, sequence, body, rest);
    Associate(Varint(|ids|, 4), IdsBytes(ids), rest);
    VarintRead(|ids|, 4, Some(4), IdsBytes(ids) + rest);
    IdsRead(ids, rest);
    assert Piggyback(Carried(105, sequence, body, rest)) == (ids, Ok(rest));
  }

  /** After a payload that closes cursors and pings, none of them is live and every other is as it was. */
  lemma ClosedByPayload(s: State, sequence: byte, ids: seq<int>, outside: Outside, id: int)
    requires Inv(s) && IdsFit(ids)
    ensures var t := Run(s, PayloadOps(Carried(105, sequence, Varint(|ids|, 4) + IdsBytes(ids), Request(147, sequence, [])), outside));
      && (id in t.cursors <==> id in s.cursors && id !in ids)
      && (id in t.cursors ==> t.cursors[id] == s.cursors[id])
      && t.nextId == s.nextId
  {
    hide Varint, IdsBytes, VarintFits, Carried, Request, PayloadOps, Run, Step, Inv;
    var ping := Request(147, sequence, []);
    CloseCarried(s, NoLogin, sequence, ids, ping, outside);
    PingRequest(s, NoLogin, sequence, [], outside);
    assert [Close(ids)] + [] == [Close(ids)];
    RunOne(s, Close(ids), 0);
    ClosedStep(s, ids, id);
  }

  lemma ClosedStep(s: State, ids: seq<int>, id: int)
    requires Inv(s)
    ensures var t := Step(s, Close(ids)).0;
      && (id in t.cursors <==> id in s.cursors && id !in ids)
      && (id in t.cursors ==> t.cursors[id] == s.cursors[id])
      && t.nextId == s.nextId
  {
  }

  /** Code 152 names a schema, 204 changes session settings, 176 carries a state: none touches a cursor. */
  lemma SchemaCarried(sequence: byte, flag: byte, schema: Text, rest: seq<byte>)
    requires Printable(Sized(schema))
    ensures Piggyback(Carried(152, sequence, [flag] + TwoLengths(schema), rest)) == ([], Ok(rest))
  {
    hide TwoLengths, ReadTextWithLength;
    var body := [flag] + TwoLengths(schema);
    CarriedParts(152, sequence, body, rest);
    TextRead(schema, rest);
    assert (body + rest)[1..] == TwoLengths(schema) + rest;
  }

  lemma SettingsCarried(sequence: byte, cursor: int, flag: byte, ps: seq<Param>, rest: seq<byte>)
    requires VarintFits(cursor, 4) && VarintFits(|ps|, 4) && AllPrintable(ParamsFields(ps))
    ensures Piggyback(Carried(204, sequence, Varint(cursor, 4) + ([flag] + (Varint(|ps|, 4) + PrintAll(ParamsFields(ps)))), rest))
         == ([], Ok(rest))
  {
    hide Varint, ReadVarint, ReadPairs, PrintAll, ParamsFields, VarintFits;
    var c := Varint(|ps|, 4) + PrintAll(ParamsFields(ps));
    var body := Varint(cursor, 4) + ([flag] + c);
    CarriedParts(204, sequence, body, rest);
    Associate(Varint(cursor, 4), [flag] + c, rest);
    Associate([flag], c, rest);
    Associate(Varint(|ps|, 4), PrintAll(ParamsFields(ps)), rest);
    VarintRead(cursor, 4, Some(4), [flag] + (c + rest));
    assert ([flag] + (c + rest))[1..] == c + rest;
    VarintRead(|ps|, 4, Some(4), PrintAll(ParamsFields(ps)) + rest);
    PairsRead(ps, map[], rest);
  }

  lemma StateCarried(sequence: byte, state: int, rest: seq<byte>)
    requires VarintFits(state, 8)
    ensures Piggyback(Carried(176, sequence, Varint(state, 8), rest)) == ([], Ok(rest))
  {
    hide Varint, ReadVarint, VarintFits;
    CarriedParts(176, sequence, Varint(state, 8), rest);
    VarintRead(state, 8, Some(8), rest);
  }

  // ---------------------------------------------------------------------
  // Authentication
  // ---------------------------------------------------------------------

  /** A login request: a user, if any, and key/value pairs. */
  function LoginFields(user: Option<seq<byte>>, userLength: int, mode: int, count: int, pointers: seq<int>): seq<Field>
    requires |pointers| == 3
  {
    [U8(if user.Some? then 1 else 0), UB(userLength, 4), UB(mode, 4), U8(pointers[0]), UB(count, 4), U8(pointers[1]),
     U8(pointers[2])]
  }

  function LoginBytes(user: Option<seq<byte>>, userLength: int, mode: int, ps: seq<Param>, pointers: seq<int>): seq<byte>
    requires |pointers| == 3 && AllPrintable(LoginFields(user, userLength, mode, |ps|, pointers))
    requires AllPrintable(ParamsFields(ps))
  {
    PrintAll(LoginFields(user, userLength, mode, |ps|, pointers))
    + ((if user.Some? then ByteString(user.value) else []) + PrintAll(ParamsFields(ps)))
  }

  /** A login request is read as its user and the dictionary of its pairs, up to any tail. */
  lemma LoginRead(user: Option<seq<byte>>, userLength: int, mode: int, ps: seq<Param>, pointers: seq<int>, tail: seq<byte>)
    requires |pointers| == 3 && VarintFits(userLength, 4) && VarintFits(mode, 4) && VarintFits(|ps|, 4)
    requires AllPrintable(ParamsFields(ps))
    requires user.Some? ==> Utf8.IsUtf8(user.value) && userLength != 0
    ensures AllPrintable(LoginFields(user, userLength, mode, |ps|, pointers))
    ensures ReadLogin(LoginBytes(user, userLength, mode, ps, pointers) + tail)
         == Ok(((if user.Some? then NonEmpty(user.value) else None, Collect(ps, map[])), tail))
  {
    hide PrintAll, ReadFields, ByteString, ReadBytes, ReadPairs, ParamsFields, VarintFits, Collect;
    var head := LoginFields(user, userLength, mode, |ps|, pointers);
    var name, pairs := if user.Some? then ByteString(user.value) else [], PrintAll(ParamsFields(ps));
    Associate(PrintAll(head), name + pairs, tail);
    Associate(name, pairs, tail);
    FieldsRead(head, name + (pairs + tail));
    assert ShapesOf(head) == LOGIN_SHAPES;
    if user.Some? {
      BytesRead(user.value, pairs + tail);
    } else {
      NothingBefore(pairs + tail);
    }
    PairsRead(ps, map[], tail);
  }

  /** Functions 118 and 115 are the two login phases. How they go is decided outside; the second makes a
      database connection, or fails to and leaves none. */
  lemma LoginRequest(s: State, db: Database, firstPhase: bool, sequence: byte, body: seq<byte>, outside: Outside)
    requires Inv(s) && ReadLogin(body).Ok?
    ensures var p := Request(if firstPhase then 118 else 115, sequence, body);
      && PayloadOps(p, outside) == []
      && PayloadReply(s, db, p, outside) == Answered(
           if outside.auth.Accepted? then Written(AuthEncoding(outside.auth.params, firstPhase)) else Err(outside.auth.error))
      && PayloadDatabase(db, p, outside)
         == if firstPhase || outside.auth.Refused? then db else if outside.auth.Accepted? then Live else Gone
  {
    hide ReadLogin, AuthEncoding, Answered;
    RequestMeans(s, db, if firstPhase then 118 else 115, sequence, body, outside);
  }

  // ---------------------------------------------------------------------
  // Requests without a body
  // ---------------------------------------------------------------------

  /** PING, function 147, gets a status. */
  lemma PingRequest(s: State, db: Database, sequence: byte, body: seq<byte>, outside: Outside)
    requires Inv(s)
    ensures var p := Request(147, sequence, body);
      && PayloadOps(p, outside) == [] && PayloadDatabase(db, p, outside) == db
      && Encoding([Status]).Some? && PayloadReply(s, db, p, outside) == Ok(Encoding([Status]).value)
  {
    hide Encoding;
    StatusReported();
    RequestMeans(s, db, 147, sequence, body, outside);
  }

  /** COMMIT and ROLLBACK, functions 14 and 15, are acknowledged without an opening, unless a live connection
      raises. */
  lemma EndRequest(s: State, db: Database, commit: bool, sequence: byte, body: seq<byte>, outside: Outside)
    requires Inv(s)
    ensures var p := Request(if commit then 14 else 15, sequence, body);
      && PayloadOps(p, outside) == [] && PayloadDatabase(db, p, outside) == db
      && PayloadReply(s, db, p, outside) == Answered(
           if db == Live && outside.ends.Some? then Err(outside.ends.value)
           else Written(Encoding([Error(MoreRows(0))])))
  {
    hide Encoding, Answered;
    assert ErrorMessages(MoreRows(0), false) == [Error(MoreRows(0))];
    RequestMeans(s, db, if commit then 14 else 15, sequence, body, outside);
  }

  /** LOGOFF, function 9, gets a status and closes a live connection, unless that raises. */
  lemma LogOffRequest(s: State, db: Database, sequence: byte, body: seq<byte>, outside: Outside)
    requires Inv(s)
    ensures var p, raises := Request(9, sequence, body), db == Live && outside.ends.Some?;
      && PayloadOps(p, outside) == []
      && PayloadReply(s, db, p, outside) == Answered(if raises then Err(outside.ends.value) else Written(Encoding([Status])))
      && PayloadDatabase(db, p, outside) == if db == Live && !raises then Gone else db
  {
    hide Encoding, Answered;
    RequestMeans(s, db, 9, sequence, body, outside);
  }

  /** Re-execution, functions 4 and 78, is refused once its four numbers are read. */
  lemma ReexecuteRequest(s: State, db: Database, fetching: bool, sequence: byte, a: int, b: int, c: int, d: int, outside: Outside)
    requires Inv(s) && VarintFits(a, 4) && VarintFits(b, 4) && VarintFits(c, 4) && VarintFits(d, 4)
    ensures var fs := [UB(a, 4), UB(b, 4), UB(c, 4), UB(d, 4)];
      && AllPrintable(fs)
      && var p := Request(if fetching then 78 else 4, sequence, PrintAll(fs));
      && PayloadOps(p, outside) == []
      && PayloadReply(s, db, p, outside) == Answered(Err(Ora(900, AsciiBytes("ORA-00900: reexecute not supported"), 0)))
  {
    hide PrintAll, ReadFields, VarintFits, Answered, AsciiBytes;
    var fs: seq<Field> := [UB(a, 4), UB(b, 4), UB(c, 4), UB(d, 4)];
    FieldsRead(fs, []);
    NothingAfter(PrintAll(fs));
    assert ShapesOf(fs) == REEXECUTE_SHAPES;
    RequestMeans(s, db, if fetching then 78 else 4, sequence, PrintAll(fs), outside);
  }

  /** Any other function is not supported. */
  lemma OtherRequest(s: State, db: Database, fn: byte, sequence: byte, body: seq<byte>, outside: Outside)
    requires Inv(s) && fn !in {4, 5, 9, 14, 15, 78, 94, 115, 118, 147}
    ensures var p := Request(fn, sequence, body);
      && PayloadOps(p, outside) == [] && PayloadDatabase(db, p, outside) == db
      && exists text: seq<byte> :: PayloadReply(s, db, p, outside) == Answered(Err(Ora(900, text, 0)))
  {
    hide Answered, UnknownFunction;
    RequestMeans(s, db, fn, sequence, body, outside);
    assert UnknownFunction(fn).Ora? && UnknownFunction(fn).num == 900 && UnknownFunction(fn).pos == 0 by { Unsupported(fn); }
    var text := UnknownFunction(fn).message;
    assert PayloadReply(s, db, Request(fn, sequence, body), outside) == Answered(Err(Ora(900, text, 0)));
  }

  lemma Unsupported(fn: byte)
    ensures var e := UnknownFunction(fn); e.Ora? && e.num == 900 && e.pos == 0
  {
  }

  /** Nothing at all, and a message of another type, get a status. */
  lemma OtherMessage(s: State, db: Database, payload: seq<byte>, outside: Outside)
    requires Inv(s) && (payload == [] || (|payload| >= 3 && payload[0] !in {1, 2, 3, 17}))
    ensures PayloadOps(payload, outside) == [] && PayloadDatabase(db, payload, outside) == db
    ensures Encoding([Status]).Some? && PayloadReply(s, db, payload, outside) == Ok(Encoding([Status]).value)
  {
    hide Encoding;
    StatusReported();
  }

  // ---------------------------------------------------------------------
  // What errors and acknowledgements tell
  // ---------------------------------------------------------------------

  /** An error that can be written is answered with an opening and one ERROR message that has its number, text
      and position; anything else is answered with ORA-03113. */
  lemma ErrorTold(r: Bytes)
    requires r.Err? && Answered(r).Ok?
    ensures var r' := ReadResponse(0, Answered(r).value);
      && r'.Ok? && |r'.value| == 2 && r'.value[0] == Parameters([]) && r'.value[1].Error?
      && var e := r'.value[1].info;
      && e.cursorId == 0 && e.rowcount == 0
      && (r.error.Ora? ==> e.num == r.error.num && e.message == r.error.message && e.pos == r.error.pos)
      && (r.error.Unexpected? ==> e.num == 3113 && e.message == AsciiBytes("ORA-03113: end-of-file on communication channel"))
  {
    hide ErrorFits, ReadResponse, Encoding, AsciiBytes;
    ErrorRoundTrip(InfoOf(r.error), true, 0);
  }

  /** A statement without a result set is answered with the number of rows it touched. */
  lemma CountTold(s: State, rows: seq<Row>, numIters: int, rowcount: int)
    requires Inv(s) && QueryReply(s, [], rows, numIters, rowcount).Ok?
    ensures var r := ReadResponse(0, QueryReply(s, [], rows, numIters, rowcount).value);
      && r.Ok? && |r.value| == 2 && r.value[0] == Parameters([]) && r.value[1].Error?
      && r.value[1].info.num == 0 && r.value[1].info.rowcount == rowcount && r.value[1].info.cursorId == 0
  {
    hide ErrorFits, ReadResponse, Encoding;
    ErrorRoundTrip(ErrorInfo(0, [], 0, 0, rowcount, 0), true, 0);
  }

  /** The values of a RETURNING statement are followed by its row count and call status. */
  lemma ReturningTold(cells: seq<Row>, count: int, eocs: int)
    requires ReturningEncoding(cells, count, eocs).Some?
    ensures var r := ReadReturning(|cells|, ReturningEncoding(cells, count, eocs).value);
      && r.Ok? && r.value.0 == SeenReturned(cells) && |r.value.1| == 2 && r.value.1[1].Error?
      && var e := r.value.1[1].info;
      && e.num == 0 && e.rowcount == count && e.eocs == eocs && e.cursorId == 0
  {
    hide ReadReturning, ReturningFits, SeenReturned, AllReturned, ResponseFields, PrintAll;
    ReturningRoundTrip(cells, count, eocs);
  }
}
