/** The response writers of the session, over the stateful TTC writer. */
module Responses {
  import opened Basics
  import opened PlaceValue
  import opened Wire
  import opened Buffer
  import opened Messages

  method WriteErrorHead(w: TTCWriter, e: ErrorInfo) returns (ok: Outcome)
    requires w.Valid() && w.group == []
    modifies w
    ensures w.Valid() && w.closed == old(w.closed)
    ensures ok.Pass? <==> VarintFits(e.eocs, 4) && VarintFits(e.cursorId, 2) && VarintFits(e.pos, 2)
    ensures ok.Pass? ==> w.group == ErrorHead(e)
  {
    hide VarintFits, TTCWriter.Valid;
    :- w.UB(e.eocs, 4);                 // end of call status
    w.Zero(2);
    w.Zero(4);
    w.Zero(2);
    w.Zero(2);
    w.Zero(2);
    :- w.UB(e.cursorId, 2);
    :- w.UB(e.pos, 2);                  // error position
    return Pass;
  }

  method WriteErrorFlags(w: TTCWriter)
    requires w.Valid()
    modifies w
    ensures w.Valid() && w.closed == old(w.Fields()) && w.group == ERROR_FLAGS
  {
    hide TTCWriter.Valid;
    w.Group();
    w.U8(0);                            // sql type
    w.U8(0);                            // fatal
    w.U8(0);
    w.U8(0);
    w.U8(0);
    w.U8(0);
    assert w.group == ERROR_FLAGS;
  }

  method WriteErrorRowid(w: TTCWriter)
    requires w.Valid()
    modifies w
    ensures w.Valid() && w.closed == old(w.Fields()) && w.group == ERROR_ROWID
  {
    hide TTCWriter.Valid;
    w.Group();
    w.Zero(4); w.Zero(2); w.U8(0); w.Zero(4); w.Zero(2);
    w.Zero(4);                          // operating system error
    assert w.group == ERROR_ROWID;
  }

  method WriteErrorBatch(w: TTCWriter)
    requires w.Valid()
    modifies w
    ensures w.Valid() && w.closed == old(w.Fields()) && w.group == ERROR_BATCH
  {
    hide TTCWriter.Valid;
    w.Group();
    w.U8(0); w.U8(0); w.Zero(2); w.Zero(4); w.Zero(4); w.Zero(2); w.Zero(4); w.Zero(2);
    assert w.group == ERROR_BATCH;
  }

  method WriteErrorBody(w: TTCWriter, e: ErrorInfo) returns (ok: Outcome)
    requires w.Valid()
    modifies w
    ensures w.Valid()
    ensures ok.Pass? <==> ErrorFits(e)
    ensures ok.Pass? ==> w.Fields() == old(w.Fields()) + ErrorFields(e)
  {
    hide VarintFits, TTCWriter.Valid, ErrorHead, ErrorTail;
    w.Group();
    ghost var f := w.closed;
    :- WriteErrorHead(w, e);
    WriteErrorFlags(w);
    WriteErrorRowid(w);
    WriteErrorBatch(w);
    :- WriteErrorTail(w, e);
    Associate(f, ErrorHead(e), ERROR_FLAGS);
    Associate(f, ErrorHead(e) + ERROR_FLAGS, ERROR_ROWID);
    Associate(f, ErrorHead(e) + ERROR_FLAGS + ERROR_ROWID, ERROR_BATCH);
    Associate(f, ErrorHead(e) + ERROR_FLAGS + ERROR_ROWID + ERROR_BATCH, ErrorTail(e));
    return Pass;
  }

  method WriteErrorTail(w: TTCWriter, e: ErrorInfo) returns (ok: Outcome)
    requires w.Valid()
    modifies w
    ensures w.Valid()
    ensures ok.Pass? <==> VarintFits(e.num, 4) && VarintFits(e.rowcount, 8)
    ensures ok.Pass? ==> w.closed == old(w.Fields()) && w.group == ErrorTail(e)
  {
    hide VarintFits, TTCWriter.Valid;
    w.Group();
    :- w.UB(e.num, 4);
    :- w.UB(e.rowcount, 8);
    w.LengthPrefixed(e.message);
    return Pass;
  }

  method WriteColumnType(w: TTCWriter, m: Column) returns (ok: Outcome)
    requires w.Valid() && w.group == []
    modifies w
    ensures w.Valid() && w.closed == old(w.closed)
    ensures ok.Pass? <==> VarintFits(m.bufferSize, 4)
    ensures ok.Pass? ==> w.group == ColumnType(m)
  {
    hide VarintFits, TTCWriter.Valid;
    w.U8(m.oraType);
    w.U8(0);                            // flags
    w.SB1(m.precision);
    w.SB1(m.scale);
    :- w.UB(m.bufferSize, 4);
    w.Zero(4);                          // max array elements
    w.Zero(8);                          // cont flags
    w.Zero(4);                          // oid
    w.Zero(2);                          // version
    return Pass;
  }

  method WriteColumnText(w: TTCWriter, m: Column) returns (ok: Outcome)
    requires w.Valid() && w.group == []
    modifies w
    ensures w.Valid() && w.closed == old(w.closed)
    ensures ok.Pass? <==> VarintFits(m.csid, 2) && VarintFits(m.maxSize, 4) && |m.name| < 0x1_0000_0000
    ensures ok.Pass? ==> w.group == ColumnText(m)
  {
    hide VarintFits, TTCWriter.Valid;
    :- w.UB(m.csid, 2);
    w.U8(m.csfrm);
    :- w.UB(m.maxSize, 4);
    w.U8(m.nullsAllowed);
    w.U8(0);                            // v7 length
    assert w.group == ColumnText(m)[..5];
    :- w.TwoLengths(Some(m.name));
    var _ := w.TwoLengths(None);
    var _ := w.TwoLengths(Some(m.name)); // fits, as it did the first time
    w.Zero(2);                          // column position
    w.Zero(4);                          // uds flags
    return Pass;
  }

  method WriteMetadata(w: TTCWriter, m: Column) returns (ok: Outcome)
    requires w.Valid()
    modifies w
    ensures w.Valid()
    ensures ok.Pass? <==> ColumnFits(m)
    ensures ok.Pass? ==> w.Fields() == old(w.Fields()) + ColumnFields(m)
  {
    hide VarintFits, TTCWriter.Valid, ColumnType, ColumnText;
    w.Group();
    ghost var f := w.closed;
    :- WriteColumnType(w, m);
    w.Group();
    :- WriteColumnText(w, m);
    Associate(f, ColumnType(m), ColumnText(m));
    return Pass;
  }

  method WriteColumns(w: TTCWriter, meta: seq<Column>) returns (ok: Outcome)
    requires w.Valid()
    modifies w
    ensures w.Valid()
    ensures ok.Pass? <==> forall k :: 0 <= k < |meta| ==> ColumnFits(meta[k])
    ensures ok.Pass? ==> w.Fields() == old(w.Fields()) + ColumnsFields(meta)
  {
    hide TTCWriter.Valid, TTCWriter.Fields, ColumnFits, ColumnFields;
    ghost var f := w.Fields();
    assert f + ColumnsFields(meta[..0]) == f;
    var i := 0;
    while i < |meta|
      invariant 0 <= i <= |meta| && w.Valid()
      invariant forall k :: 0 <= k < i ==> ColumnFits(meta[k])
      invariant w.Fields() == f + ColumnsFields(meta[..i])
    {
      :- WriteMetadata(w, meta[i]);
      ColumnsStep(meta, i);
      Associate(f, ColumnsFields(meta[..i]), ColumnFields(meta[i]));
      i := i + 1;
    }
    assert meta[..i] == meta;
    return Pass;
  }

  method WriteDescribeHead(w: TTCWriter, meta: seq<Column>) returns (ok: Outcome)
    requires w.Valid()
    modifies w
    ensures w.Valid()
    ensures ok.Pass? <==> VarintFits(BufferTotal(meta), 4) && VarintFits(|meta|, 4)
    ensures ok.Pass? ==> w.Fields() == old(w.Fields()) + DescribeHead(meta)
  {
    hide VarintFits, TTCWriter.Valid;
    w.Group();
    var total := SumBufferSizes(meta);
    :- w.UB(total, 4);
    :- w.UB(|meta|, 4);
    if meta != [] {
      w.U8(0);
    }
    return Pass;
  }

  method WriteDescribeTail(w: TTCWriter)
    requires w.Valid()
    modifies w
    ensures w.Valid() && w.Fields() == old(w.Fields()) + DESCRIBE_TAIL
  {
    hide TTCWriter.Valid;
    w.Group();
    w.Zero(4);                          // current date
    w.Zero(4); w.Zero(4); w.Zero(4); w.Zero(4); w.Zero(4);
    assert w.group == DESCRIBE_TAIL;
  }

  /** The describe block, without its message type. */
  method WriteDescribeInfo(w: TTCWriter, meta: seq<Column>) returns (ok: Outcome)
    requires w.Valid()
    modifies w
    ensures w.Valid()
    ensures ok.Pass? <==> DescribeFits(meta)
    ensures ok.Pass? ==> w.Fields() == old(w.Fields()) + DescribeFields(meta)
  {
    hide VarintFits, TTCWriter.Valid, TTCWriter.Fields, ColumnFits, DescribeHead;
    ghost var f := w.Fields();
    :- WriteDescribeHead(w, meta);
    :- WriteColumns(w, meta);
    WriteDescribeTail(w);
    Associate(f, DescribeHead(meta), ColumnsFields(meta));
    Associate(f, DescribeHead(meta) + ColumnsFields(meta), DESCRIBE_TAIL);
    return Pass;
  }

  method SumBufferSizes(meta: seq<Column>) returns (total: int)
    ensures total == BufferTotal(meta)
  {
    total := 0;
    assert meta[0..] == meta;
    for i := 0 to |meta|
      invariant total + BufferTotal(meta[i..]) == BufferTotal(meta)
    {
      assert meta[i..][1..] == meta[i + 1..];
      total := total + meta[i].bufferSize;
    }
  }

  lemma {:induction false} ColumnsStep(meta: seq<Column>, i: nat)
    requires i < |meta|
    ensures ColumnsFields(meta[..i + 1]) == ColumnsFields(meta[..i]) + ColumnFields(meta[i])
  {
    hide ColumnFields;
    if i == 0 {
      assert meta[..1] == [meta[0]] && meta[..0] == [];
      assert ColumnsFields([meta[0]]) == ColumnFields(meta[0]) + ColumnsFields([]);
    } else {
      ColumnsStep(meta[1..], i - 1);
      assert meta[..i + 1][1..] == meta[1..][..i] && meta[..i][1..] == meta[1..][..i - 1];
    }
  }

  method WriteRowHeader(w: TTCWriter)
    requires w.Valid()
    modifies w
    ensures w.Valid() && w.Fields() == old(w.Fields()) + MessageFields(RowHeader)
  {
    hide TTCWriter.Valid;
    ConstantsFit();
    w.Group();
    w.U8(MSG_ROW_HEADER);
    w.U8(0);                            // flags
    var _ := w.UB(1, 2);                // num requests
    w.Zero(4);                          // iteration
    var _ := w.UB(1, 4);                // num iters
    w.Zero(2);                          // buffer length
    w.Zero(4);                          // bit vector size
    w.Zero(4);                          // rxhrid
    assert w.group == MessageFields(RowHeader);
  }

  /** One ROW_DATA message a row; a value without an encoding raises. */
  method WriteRow(w: TTCWriter, row: Row) returns (ok: Outcome)
    requires w.Valid()
    modifies w
    ensures w.Valid()
    ensures ok.Pass? <==> RowEncodes(row)
    ensures ok.Pass? ==> w.Fields() == old(w.Fields()) + MessageFields(RowData(row))
  {
    hide TTCWriter.Valid;
    w.Group();
    w.U8(MSG_ROW_DATA);
    var i := 0;
    while i < |row|
      invariant 0 <= i <= |row| && w.Valid() && w.closed == old(w.Fields())
      invariant forall k :: 0 <= k < i ==> row[k].Encoded?
      invariant w.group == [U8(MSG_ROW_DATA)] + RowFields(row)[..i]
    {
      if row[i].Unencodable? {
        return Raise;
      }
      w.LengthPrefixed(CellData(row[i]));
      i := i + 1;
    }
    return Pass;
  }

  function RowMessages(rows: seq<Row>): seq<Message> {
    seq(|rows|, i requires 0 <= i < |rows| => RowData(rows[i]))
  }

  method WriteRows(w: TTCWriter, rows: seq<Row>) returns (ok: Outcome)
    requires w.Valid()
    modifies w
    ensures w.Valid()
    ensures ok.Pass? <==> Encodes(rows)
    ensures ok.Pass? ==> w.Fields() == old(w.Fields()) + ResponseFields(RowMessages(rows))
  {
    hide TTCWriter.Valid, MessageFields, RowEncodes;
    var i := 0;
    while i < |rows|
      invariant 0 <= i <= |rows| && w.Valid()
      invariant forall k :: 0 <= k < i ==> RowEncodes(rows[k])
      invariant w.Fields() == old(w.Fields()) + ResponseFields(RowMessages(rows[..i]))
    {
      :- WriteRow(w, rows[i]);
      RowsStep(rows, i);
      Associate(old(w.Fields()), ResponseFields(RowMessages(rows[..i])), MessageFields(RowData(rows[i])));
      i := i + 1;
    }
    assert rows[..i] == rows;
    return Pass;
  }

  lemma RowsStep(rows: seq<Row>, i: nat)
    requires i < |rows|
    ensures ResponseFields(RowMessages(rows[..i + 1]))
         == ResponseFields(RowMessages(rows[..i])) + MessageFields(RowData(rows[i]))
  {
    hide MessageFields;
    var ms := RowMessages(rows[..i]);
    assert RowMessages(rows[..i + 1]) == ms + [RowData(rows[i])];
    ResponseAppend(ms, [RowData(rows[i])]);
    OneMessage(RowData(rows[i]));
  }

  /** The empty PARAMETER message that opens most responses. */
  const OPENING: Message := Parameters([])

  method WriteOpening(w: TTCWriter)
    requires w.Valid()
    modifies w
    ensures w.Valid() && w.Fields() == old(w.Fields()) + MessageFields(OPENING)
  {
    hide TTCWriter.Valid;
    w.Group();
    w.U8(MSG_PARAMETER);
    w.Zero(2); w.Zero(2); w.Zero(2); w.Zero(2);
    assert w.group == MessageFields(OPENING);
  }

  method WriteDescribe(w: TTCWriter, meta: seq<Column>) returns (ok: Outcome)
    requires w.Valid()
    modifies w
    ensures w.Valid()
    ensures ok.Pass? <==> DescribeFits(meta)
    ensures ok.Pass? ==> w.Fields() == old(w.Fields()) + MessageFields(DescribeInfo(meta))
  {
    hide TTCWriter.Valid, DescribeFits, DescribeFields;
    w.Group();
    ghost var f := w.closed;
    w.U8(MSG_DESCRIBE_INFO);
    w.U8(0);                            // skipped byte
    :- WriteDescribeInfo(w, meta);
    Associate(f, [U8(MSG_DESCRIBE_INFO), U8(0)], DescribeFields(meta));
    assert MessageFields(DescribeInfo(meta)) == [U8(MSG_DESCRIBE_INFO), U8(0)] + DescribeFields(meta);
    return Pass;
  }

  method WriteError(w: TTCWriter, e: ErrorInfo) returns (ok: Outcome)
    requires w.Valid()
    modifies w
    ensures w.Valid()
    ensures ok.Pass? <==> ErrorFits(e)
    ensures ok.Pass? ==> w.Fields() == old(w.Fields()) + MessageFields(Error(e))
  {
    hide TTCWriter.Valid, ErrorFits, ErrorFields;
    w.Group();
    ghost var f := w.closed;
    w.U8(MSG_ERROR);
    :- WriteErrorBody(w, e);
    Associate(f, [U8(MSG_ERROR)], ErrorFields(e));
    return Pass;
  }

  // ---------------------------------------------------------------------
  // Whole responses
  // ---------------------------------------------------------------------

  function EndOfRows(cursorId: int): ErrorInfo {
    ErrorInfo(END_OF_ROWS, NoDataText(), 0, cursorId, 0, 0)
  }

  function MoreRows(cursorId: int): ErrorInfo { ErrorInfo(0, [], 0, cursorId, 0, 0) }

  function AsciiBytes(s: string): seq<byte> {
    seq(|s|, i requires 0 <= i < |s| => s[i] as int % 256)
  }

  function NoDataText(): seq<byte> { AsciiBytes("ORA-01403: no data found") }

  /** A batch of rows: nothing at all when it is empty. */
  function Batch(rows: seq<Row>): seq<Message> {
    if rows == [] then [] else [RowHeader] + RowMessages(rows)
  }

  /** A response that carries rows: their description, if any, the rows, the error body that closes it. */
  function RowsMessages(described: bool, meta: seq<Column>, rows: seq<Row>, e: ErrorInfo): seq<Message> {
    (if described then [OPENING, DescribeInfo(meta)] else []) + Batch(rows) + [Error(e)]
  }

  /** The response to a query: description, first rows, and how to go on. */
  function QueryMessages(meta: seq<Column>, rows: seq<Row>, cursorId: int): seq<Message> {
    RowsMessages(true, meta, rows, if cursorId != 0 then MoreRows(cursorId) else EndOfRows(0))
  }

  /** The response that serves a known cursor, with or without its description. */
  function CursorMessages(described: bool, meta: seq<Column>, rows: seq<Row>, done: bool, cursorId: int): seq<Message> {
    RowsMessages(described, meta, rows, if done then EndOfRows(cursorId) else MoreRows(cursorId))
  }

  function ErrorMessages(e: ErrorInfo, withParams: bool): seq<Message> {
    (if withParams then [OPENING] else []) + [Error(e)]
  }

  /** The bytes of a response, or nothing when an integer in it does not fit its width. */
  function Encoding(ms: seq<Message>): Option<seq<byte>> {
    if AllFit(ms) then
      ResponsePrintable(ms);
      Some(PrintAll(ResponseFields(ms)))
    else None
  }

  lemma FitAppend(xs: seq<Message>, ys: seq<Message>)
    ensures AllFit(xs + ys) <==> AllFit(xs) && AllFit(ys)
  {
    hide MessageFits;
    if AllFit(xs + ys) {
      assert forall i :: 0 <= i < |xs| ==> xs[i] == (xs + ys)[i];
      assert forall i :: 0 <= i < |ys| ==> ys[i] == (xs + ys)[|xs| + i];
    }
  }

  lemma BatchFits(rows: seq<Row>)
    ensures AllFit(Batch(rows)) <==> Encodes(rows)
  {
    hide RowEncodes;
    if rows != [] {
      var ms := Batch(rows);
      assert forall i :: 0 <= i < |rows| ==> ms[i + 1] == RowData(rows[i]);
      assert forall k :: 1 <= k < |ms| ==> ms[k] == RowData(rows[k - 1]);
    }
  }

  lemma RowsFit(described: bool, meta: seq<Column>, rows: seq<Row>, e: ErrorInfo)
    ensures AllFit(RowsMessages(described, meta, rows, e))
       <==> (described ==> DescribeFits(meta)) && Encodes(rows) && ErrorFits(e)
  {
    hide DescribeFits, ErrorFits, RowEncodes;
    ConstantsFit();
    BatchFits(rows);
    var head := if described then [OPENING, DescribeInfo(meta)] else [];
    FitAppend(head, Batch(rows));
    FitAppend(head + Batch(rows), [Error(e)]);
    assert AllFit([Error(e)]) <==> ErrorFits(e) by { assert [Error(e)][0] == Error(e); }
    if described { assert head[1] == DescribeInfo(meta); }
  }

  /** Description, rows and closing ERROR message: the part every rows response shares. */
  method WriteRowsResponse(described: bool, meta: seq<Column>, rows: seq<Row>, e: ErrorInfo)
    returns (r: Option<seq<byte>>)
    ensures r == Encoding(RowsMessages(described, meta, rows, e))
  {
    hide TTCWriter.Valid, DescribeFits, ErrorFits, MessageFields, PrintAll, AllFit, Batch;
    RowsFit(described, meta, rows, e);
    var w := new TTCWriter();
    ghost var head := if described then [OPENING, DescribeInfo(meta)] else [];
    if described {
      WriteOpening(w);
      var known := WriteDescribe(w, meta);
      if known.Raise? {
        return None;
      }
      TwoMessages(OPENING, DescribeInfo(meta));
    }
    assert w.Fields() == ResponseFields(head);
    var ok := WriteBatch(w, rows);
    if ok.Raise? {
      return None;
    }
    ResponseAppend(head, Batch(rows));
    assert w.Fields() == ResponseFields(head + Batch(rows));
    ok := WriteError(w, e);
    if ok.Raise? {
      return None;
    }
    OneMessage(Error(e));
    ResponseAppend(head + Batch(rows), [Error(e)]);
    var bytes := w.GetValue();
    PrintableFields(w);
    r := Some(bytes);
  }

  method WriteBatch(w: TTCWriter, rows: seq<Row>) returns (ok: Outcome)
    requires w.Valid()
    modifies w
    ensures w.Valid()
    ensures ok.Pass? <==> Encodes(rows)
    ensures ok.Pass? ==> w.Fields() == old(w.Fields()) + ResponseFields(Batch(rows))
  {
    hide TTCWriter.Valid, TTCWriter.Fields, MessageFields, RowMessages, RowEncodes;
    ghost var f := w.Fields();
    if rows != [] {
      WriteRowHeader(w);
      :- WriteRows(w, rows);
      ResponseAppend([RowHeader], RowMessages(rows));
      OneMessage(RowHeader);
      Associate(f, MessageFields(RowHeader), ResponseFields(RowMessages(rows)));
    } else {
      assert f + ResponseFields([]) == f;
    }
    return Pass;
  }

  lemma PrintableFields(w: TTCWriter)
    requires w.Valid()
    ensures AllPrintable(w.Fields())
  {
  }

  lemma OneMessage(m: Message)
    ensures ResponseFields([m]) == MessageFields(m)
  {
    hide MessageFields;
    assert ResponseFields([m]) == MessageFields(m) + ResponseFields([]);
  }

  lemma TwoMessages(m: Message, n: Message)
    ensures ResponseFields([m, n]) == MessageFields(m) + MessageFields(n)
  {
    hide MessageFields;
    OneMessage(n);
    assert [m, n][1..] == [n];
  }

  /** The query response; None is the overflow the dispatcher turns into ORA-03113. */
  method QueryResponse(meta: seq<Column>, rows: seq<Row>, cursorId: int) returns (r: Option<seq<byte>>)
    ensures r == Encoding(QueryMessages(meta, rows, cursorId))
  {
    hide Encoding;
    if cursorId != 0 {
      r := WriteRowsResponse(true, meta, rows, MoreRows(cursorId));
    } else {
      r := WriteRowsResponse(true, meta, rows, EndOfRows(0));
    }
  }

  /** Serves a batch of a known cursor, closed by ORA-01403 when it was the last one. */
  method CursorResponse(described: bool, meta: seq<Column>, rows: seq<Row>, done: bool, cursorId: int)
    returns (r: Option<seq<byte>>)
    ensures r == Encoding(CursorMessages(described, meta, rows, done, cursorId))
  {
    hide Encoding;
    if done {
      r := WriteRowsResponse(described, meta, rows, EndOfRows(cursorId));
    } else {
      r := WriteRowsResponse(described, meta, rows, MoreRows(cursorId));
    }
  }

  method ErrorMessage(e: ErrorInfo, withParams: bool) returns (r: Option<seq<byte>>)
    ensures r == Encoding(ErrorMessages(e, withParams))
  {
    hide TTCWriter.Valid, ErrorFits, MessageFields, PrintAll, AllFit;
    ErrorMessagesFit(e, withParams);
    var w := new TTCWriter();
    if withParams {
      WriteOpening(w);
    }
    var ok := WriteError(w, e);
    if ok.Raise? {
      return None;
    }
    OneMessage(Error(e));
    TwoMessages(OPENING, Error(e));
    assert ErrorMessages(e, withParams) == if withParams then [OPENING, Error(e)] else [Error(e)];
    assert w.Fields() == ResponseFields(ErrorMessages(e, withParams));
    var bytes := w.GetValue();
    PrintableFields(w);
    r := Some(bytes);
  }

  lemma ErrorMessagesFit(e: ErrorInfo, withParams: bool)
    ensures AllFit(ErrorMessages(e, withParams)) <==> ErrorFits(e)
  {
    hide ErrorFits;
    ConstantsFit();
    var ms := ErrorMessages(e, withParams);
    assert ms[|ms| - 1] == Error(e);
  }

  method StatusMessage() returns (bytes: seq<byte>)
    ensures Encoding([Status]) == Some(bytes)
  {
    hide TTCWriter.Valid, PrintAll;
    var w := new TTCWriter();
    w.U8(MSG_STATUS);
    w.Zero(4);
    w.Zero(2);
    OneMessage(Status);
    assert w.Fields() == MessageFields(Status);
    bytes := w.GetValue();
    PrintableFields(w);
  }

  // ---------------------------------------------------------------------
  // Every response is read back by the client
  // ---------------------------------------------------------------------

  lemma {:induction false} BatchIsOpen(columns: nat, rows: seq<Row>, last: Message)
    requires Closes(last) && forall i :: 0 <= i < |rows| ==> |rows[i]| == columns
    ensures RowsMatch(columns, RowMessages(rows) + [last])
    decreases |rows|
  {
    var ms := RowMessages(rows) + [last];
    if rows != [] {
      BatchIsOpen(columns, rows[1..], last);
      assert ms[1..] == RowMessages(rows[1..]) + [last];
    }
  }

  /** A stream a client can read: everything fits, rows match, closed once. */
  predicate WellFormed(columns: nat, ms: seq<Message>) {
    AllFit(ms) && ClosedOnce(ms) && RowsMatch(columns, ms)
  }

  lemma Prepend(columns: nat, m: Message, ms: seq<Message>)
    requires MessageFits(m) && !Closes(m) && (m.RowData? ==> |m.row| == columns)
    requires WellFormed(Width(columns, m), ms)
    ensures WellFormed(columns, [m] + ms)
  {
    hide MessageFits;
    assert ([m] + ms)[1..] == ms;
  }

  lemma BatchWellFormed(columns: nat, rows: seq<Row>, e: ErrorInfo)
    requires ErrorFits(e) && Encodes(rows) && forall i :: 0 <= i < |rows| ==> |rows[i]| == columns
    ensures WellFormed(columns, Batch(rows) + [Error(e)])
  {
    hide ErrorFits, RowEncodes;
    BatchIsOpen(columns, rows, Error(e));
    if rows != [] {
      Prepend(columns, RowHeader, RowMessages(rows) + [Error(e)]);
      assert Batch(rows) + [Error(e)] == [RowHeader] + (RowMessages(rows) + [Error(e)]);
    }
  }

  lemma FrontTwo(m: Message, n: Message, x: seq<Message>, y: seq<Message>)
    ensures [m, n] + x + y == [m] + ([n] + (x + y))
  {
  }

  /** A rows response is a stream the client can read: rows as wide as described, closed once. */
  lemma RowsResponseWellFormed(columns: nat, described: bool, meta: seq<Column>, rows: seq<Row>, e: ErrorInfo)
    requires (described ==> DescribeFits(meta)) && Encodes(rows) && ErrorFits(e)
    requires !described ==> columns == |meta|
    requires forall i :: 0 <= i < |rows| ==> |rows[i]| == |meta|
    ensures var ms := (if described then [OPENING, DescribeInfo(meta)] else []) + Batch(rows) + [Error(e)];
      WellFormed(columns, ms)
  {
    hide DescribeFits, ErrorFits, WellFormed, Batch;
    ConstantsFit();
    var tail := Batch(rows) + [Error(e)];
    BatchWellFormed(|meta|, rows, e);
    if described {
      Prepend(columns, DescribeInfo(meta), tail);
      Prepend(columns, OPENING, [DescribeInfo(meta)] + tail);
      FrontTwo(OPENING, DescribeInfo(meta), Batch(rows), [Error(e)]);
    } else {
      assert [] + Batch(rows) + [Error(e)] == tail;
    }
  }

  /** The response to a query is undone by the client's parser: the same columns (display precision and
      scale clamped to a signed byte), the same rows, the same cursor, and every byte consumed. It
      exists exactly when columns and cursor id fit their fields and every value has an encoding. */
  lemma QueryRoundTrip(meta: seq<Column>, rows: seq<Row>, cursorId: int, columns: nat)
    requires forall i :: 0 <= i < |rows| ==> |rows[i]| == |meta|
    ensures var ms := QueryMessages(meta, rows, cursorId);
      && (Encoding(ms).Some? <==> DescribeFits(meta) && VarintFits(cursorId, 2) && Encodes(rows))
      && (Encoding(ms).Some? ==> ReadResponse(columns, Encoding(ms).value) == Ok(SeenAll(ms)))
  {
    hide DescribeFits, ReadResponse, ResponseFields, PrintAll, WellFormed, Batch;
    var e := if cursorId != 0 then MoreRows(cursorId) else EndOfRows(0);
    var ms := QueryMessages(meta, rows, cursorId);
    ClosingFits(cursorId);
    ClosingFits(0);
    RowsFit(true, meta, rows, e);
    if AllFit(ms) {
      RowsResponseWellFormed(columns, true, meta, rows, e);
      WellFormedRead(columns, ms);
    }
  }

  lemma ClosingFits(cursorId: int)
    ensures ErrorFits(MoreRows(cursorId)) <==> VarintFits(cursorId, 2)
    ensures ErrorFits(EndOfRows(cursorId)) <==> VarintFits(cursorId, 2)
    ensures VarintFits(0, 2)
  {
    ConstantsFit();
    assert Pow(256, 4) == 0x1_0000_0000;
  }

  lemma WellFormedRead(columns: nat, ms: seq<Message>)
    requires WellFormed(columns, ms)
    ensures Encoding(ms).Some? && ReadResponse(columns, Encoding(ms).value) == Ok(SeenAll(ms))
  {
    hide ReadResponse, ResponseFields, PrintAll;
    ResponseRead(columns, ms);
  }

  /** So is the response that serves a cursor, read at the width the cursor was described with. */
  lemma CursorRoundTrip(described: bool, meta: seq<Column>, rows: seq<Row>, done: bool, cursorId: int)
    requires forall i :: 0 <= i < |rows| ==> |rows[i]| == |meta|
    ensures var ms := CursorMessages(described, meta, rows, done, cursorId);
      && (Encoding(ms).Some? <==> (described ==> DescribeFits(meta)) && VarintFits(cursorId, 2) && Encodes(rows))
      && (Encoding(ms).Some? ==> ReadResponse(|meta|, Encoding(ms).value) == Ok(SeenAll(ms)))
  {
    hide DescribeFits, ReadResponse, ResponseFields, PrintAll, WellFormed, Batch;
    var e := if done then EndOfRows(cursorId) else MoreRows(cursorId);
    var ms := CursorMessages(described, meta, rows, done, cursorId);
    ClosingFits(cursorId);
    RowsFit(described, meta, rows, e);
    if AllFit(ms) {
      RowsResponseWellFormed(|meta|, described, meta, rows, e);
      WellFormedRead(|meta|, ms);
    }
  }

  /** A reply that describes its rows is read back whatever width the client had in mind. */
  lemma ServeRoundTrip(meta: seq<Column>, rows: seq<Row>, done: bool, cursorId: int, columns: nat)
    requires forall i :: 0 <= i < |rows| ==> |rows[i]| == |meta|
    ensures var ms := CursorMessages(true, meta, rows, done, cursorId);
      Encoding(ms).Some? ==> ReadResponse(columns, Encoding(ms).value) == Ok(SeenAll(ms))
  {
    hide DescribeFits, ReadResponse, ResponseFields, PrintAll, WellFormed, Batch;
    var e := if done then EndOfRows(cursorId) else MoreRows(cursorId);
    var ms := CursorMessages(true, meta, rows, done, cursorId);
    RowsFit(true, meta, rows, e);
    if AllFit(ms) {
      RowsResponseWellFormed(columns, true, meta, rows, e);
      WellFormedRead(columns, ms);
    }
  }

  /** Acknowledgements and errors are read back too, whenever their numbers fit. */
  lemma ErrorRoundTrip(e: ErrorInfo, withParams: bool, columns: nat)
    ensures var ms := ErrorMessages(e, withParams);
      && (Encoding(ms).Some? <==> ErrorFits(e))
      && (Encoding(ms).Some? ==> ReadResponse(columns, Encoding(ms).value) == Ok(ms))
  {
    hide ErrorFits, ReadResponse, ResponseFields, PrintAll, WellFormed;
    ConstantsFit();
    ErrorMessagesFit(e, withParams);
    var ms := ErrorMessages(e, withParams);
    if AllFit(ms) {
      BatchWellFormed(columns, [], e);
      assert Batch([]) + [Error(e)] == [Error(e)];
      if withParams {
        Prepend(columns, OPENING, [Error(e)]);
      }
      assert ms == if withParams then [OPENING] + [Error(e)] else [Error(e)];
      WellFormedRead(columns, ms);
      assert SeenAll(ms) == ms;
    }
  }

  lemma StatusRoundTrip(columns: nat)
    ensures Encoding([Status]).Some? && ReadResponse(columns, Encoding([Status]).value) == Ok([Status])
  {
    hide ReadResponse, ResponseFields, PrintAll;
    ResponseRead(columns, [Status]);
    assert SeenAll([Status]) == [Status];
  }
}
