/** No reader looks behind the end of what it reads: bytes that follow change nothing but the rest. */
module Locality {
  import opened Basics
  import opened Wire
  import opened Messages
  import opened Params
  import opened Blocks
  import opened Greetings

  lemma SliceLocal(s: seq<byte>, t: seq<byte>, n: nat)
    requires n <= |s|
    ensures (s + t)[..n] == s[..n] && (s + t)[n..] == s[n..] + t
  {
  }

  lemma FixedLocal(s: seq<byte>, t: seq<byte>, width: nat)
    requires ReadFixed(s, width).Ok?
    ensures ReadFixed(s + t, width) == Ok((ReadFixed(s, width).value.0, ReadFixed(s, width).value.1 + t))
  {
    SliceLocal(s, t, width);
  }

  lemma TakeLocal(s: seq<byte>, t: seq<byte>, n: nat)
    requires Take(s, n).Ok?
    ensures Take(s + t, n) == Ok((Take(s, n).value.0, Take(s, n).value.1 + t))
  {
    SliceLocal(s, t, n);
  }

  lemma VarintLocal(s: seq<byte>, t: seq<byte>, limit: Option<nat>)
    requires ReadVarint(s, limit).Ok?
    ensures ReadVarint(s + t, limit) == Ok((ReadVarint(s, limit).value.0, ReadVarint(s, limit).value.1 + t))
  {
    SliceLocal(s, t, 1);
    if s[0] % 128 != 0 { FixedLocal(s[1..], t, s[0] % 128); }
  }

  lemma {:induction false} ChunksLocal(s: seq<byte>, t: seq<byte>)
    requires ReadChunks(s).Ok?
    ensures ReadChunks(s + t) == Ok((ReadChunks(s).value.0, ReadChunks(s).value.1 + t))
    decreases |s|
  {
    FixedLocal(s, t, 4);
    hide ReadFixed;
    var (n, s1) := ReadFixed(s, 4).value;
    if n != 0 {
      TakeLocal(s1, t, n);
      ChunksLocal(Take(s1, n).value.1, t);
    }
  }

  lemma BytesLocal(s: seq<byte>, t: seq<byte>)
    requires ReadBytes(s).Ok?
    ensures ReadBytes(s + t) == Ok((ReadBytes(s).value.0, ReadBytes(s).value.1 + t))
  {
    hide ReadChunks, Take;
    SliceLocal(s, t, 1);
    if s[0] == LONG_LENGTH {
      ChunksLocal(s[1..], t);
    } else if s[0] != 0 && s[0] != 255 {
      TakeLocal(s[1..], t, s[0]);
    }
  }

  lemma BytesWithLengthLocal(s: seq<byte>, t: seq<byte>)
    requires ReadBytesWithLength(s).Ok?
    ensures ReadBytesWithLength(s + t) == Ok((ReadBytesWithLength(s).value.0, ReadBytesWithLength(s).value.1 + t))
  {
    hide ReadVarint, ReadBytes;
    VarintLocal(s, t, Some(4));
    var (count, s1) := ReadVarint(s, Some(4)).value;
    if count > 0 { BytesLocal(s1, t); }
  }

  lemma TextLocal(s: seq<byte>, t: seq<byte>)
    requires ReadTextWithLength(s).Ok?
    ensures ReadTextWithLength(s + t) == Ok((ReadTextWithLength(s).value.0, ReadTextWithLength(s).value.1 + t))
  {
    hide ReadBytesWithLength, ReadTextWithLength;
    TextIsBytes(s);
    BytesWithLengthLocal(s, t);
    TextIsBytes(s + t);
  }

  lemma FieldLocal(sh: Shape, s: seq<byte>, t: seq<byte>)
    requires ReadField(sh, s).Ok?
    ensures ReadField(sh, s + t) == Ok((ReadField(sh, s).value.0, ReadField(sh, s).value.1 + t))
  {
    hide ReadVarint, ReadBytes, ReadBytesWithLength;
    match sh
    case AU8 => SliceLocal(s, t, 1);
    case ASB1 => SliceLocal(s, t, 1);
    case AnUB(width) => VarintLocal(s, t, Some(width));
    case AnInt => VarintLocal(s, t, None);
    case AnOctets => BytesLocal(s, t);
    case ASized => BytesWithLengthLocal(s, t);
  }

  lemma {:induction false} FieldsLocal(shapes: seq<Shape>, s: seq<byte>, t: seq<byte>)
    requires ReadFields(shapes, s).Ok?
    ensures ReadFields(shapes, s + t) == Ok((ReadFields(shapes, s).value.0, ReadFields(shapes, s).value.1 + t))
  {
    hide ReadField;
    if shapes != [] {
      FieldLocal(shapes[0], s, t);
      FieldsLocal(shapes[1..], ReadField(shapes[0], s).value.1, t);
    }
  }

  // ---------------------------------------------------------------------
  // Messages
  // ---------------------------------------------------------------------

  lemma {:induction false} ColumnsLocal(n: nat, s: seq<byte>, t: seq<byte>)
    requires ReadColumns(n, s).Ok?
    ensures ReadColumns(n, s + t) == Ok((ReadColumns(n, s).value.0, ReadColumns(n, s).value.1 + t))
  {
    hide ReadFields;
    if n > 0 {
      FieldsLocal(COLUMN_SHAPES, s, t);
      ColumnsLocal(n - 1, ReadColumn(s).value.1, t);
    }
  }

  lemma DescribeLocal(s: seq<byte>, t: seq<byte>)
    requires ReadDescribe(s).Ok?
    ensures ReadDescribe(s + t) == Ok((ReadDescribe(s).value.0, ReadDescribe(s).value.1 + t))
  {
    hide ReadFields, ReadColumns;
    FieldsLocal([AnUB(4), AnUB(4)], s, t);
    var (head, s1) := ReadFields([AnUB(4), AnUB(4)], s).value;
    var n := Num(head[1]);
    var marker := if n > 0 then [AU8] else [];
    FieldsLocal(marker, s1, t);
    var s2 := ReadFields(marker, s1).value.1;
    ColumnsLocal(n, s2, t);
    FieldsLocal(DESCRIBE_TAIL_SHAPES, ReadColumns(n, s2).value.1, t);
  }

  lemma WordsLocal(s: seq<byte>, t: seq<byte>)
    requires ReadWords(s).Ok?
    ensures ReadWords(s + t) == Ok((ReadWords(s).value.0, ReadWords(s).value.1 + t))
  {
    hide ReadFields;
    FieldsLocal([AnUB(2)], s, t);
    var (head, s1) := ReadFields([AnUB(2)], s).value;
    FieldsLocal(seq(Num(head[0]), _ => AnUB(4)) + [AnUB(2), AnUB(2), AnUB(2)], s1, t);
  }

  lemma RowLocal(n: nat, s: seq<byte>, t: seq<byte>)
    requires ReadRow(n, s).Ok?
    ensures ReadRow(n, s + t) == Ok((ReadRow(n, s).value.0, ReadRow(n, s).value.1 + t))
  {
    hide ReadFields;
    FieldsLocal(seq(n, _ => AnOctets), s, t);
  }

  lemma ErrorLocal(s: seq<byte>, t: seq<byte>)
    requires ReadError(s).Ok?
    ensures ReadError(s + t) == Ok((ReadError(s).value.0, ReadError(s).value.1 + t))
  {
    hide ReadFields;
    FieldsLocal(ERROR_SHAPES, s, t);
  }

  lemma MessageLocal(columns: nat, s: seq<byte>, t: seq<byte>)
    requires ReadMessage(columns, s).Ok?
    ensures ReadMessage(columns, s + t) == Ok((ReadMessage(columns, s).value.0, ReadMessage(columns, s).value.1 + t))
  {
    hide ReadFields, ReadDescribe, ReadWords, ReadRow, ReadError;
    SliceLocal(s, t, 1);
    var tag, body := s[0], s[1..];
    if tag == MSG_PARAMETER {
      WordsLocal(body, t);
    } else if tag == MSG_DESCRIBE_INFO {
      FieldsLocal([AU8], body, t);
      DescribeLocal(ReadFields([AU8], body).value.1, t);
    } else if tag == MSG_ROW_HEADER {
      FieldsLocal(ROW_HEADER_SHAPES, body, t);
    } else if tag == MSG_ROW_DATA {
      RowLocal(columns, body, t);
    } else if tag == MSG_ERROR {
      ErrorLocal(body, t);
    } else if tag == MSG_STATUS {
      FieldsLocal(STATUS_SHAPES, body, t);
    }
  }

  /** The messages of one response are read the same whatever follows them. */
  lemma {:induction false} MessagesLocal(columns: nat, s: seq<byte>, t: seq<byte>)
    requires TakeMessages(columns, s).Ok?
    ensures TakeMessages(columns, s + t) == Ok((TakeMessages(columns, s).value.0, TakeMessages(columns, s).value.1 + t))
    decreases |s|
  {
    hide ReadMessage;
    MessageLocal(columns, s, t);
    var (m, s1) := ReadMessage(columns, s).value;
    if !Closes(m) { MessagesLocal(Width(columns, m), s1, t); }
  }

  // ---------------------------------------------------------------------
  // Logins, blocks, returned values
  // ---------------------------------------------------------------------

  lemma ParamLocal(s: seq<byte>, t: seq<byte>)
    requires ReadParam(s).Ok?
    ensures ReadParam(s + t) == Ok((ReadParam(s).value.0, ReadParam(s).value.1 + t))
  {
    hide ReadTextWithLength, ReadVarint;
    TextLocal(s, t);
    var s1 := ReadTextWithLength(s).value.1;
    TextLocal(s1, t);
    VarintLocal(ReadTextWithLength(s1).value.1, t, Some(4));
  }

  lemma {:induction false} PairsLocal(count: int, s: seq<byte>, pairs: Pairs, t: seq<byte>)
    requires ReadPairs(count, s, pairs).Ok?
    ensures ReadPairs(count, s + t, pairs) == Ok((ReadPairs(count, s, pairs).value.0, ReadPairs(count, s, pairs).value.1 + t))
    decreases if count > 0 then count else 0
  {
    hide ReadParam;
    if count > 0 {
      ParamLocal(s, t);
      var (p, rest) := ReadParam(s).value;
      PairsLocal(count - 1, rest, pairs[p.key := (p.value, p.flags)], t);
    }
  }

  lemma AuthLocal(s: seq<byte>, t: seq<byte>)
    requires TakeAuth(s).Ok?
    ensures TakeAuth(s + t) == Ok((TakeAuth(s).value.0, TakeAuth(s).value.1 + t))
  {
    hide ReadFields, ReadPairs, TakeMessages;
    FieldsLocal([AU8, AnUB(2)], s, t);
    var (head, s1) := ReadFields([AU8, AnUB(2)], s).value;
    PairsLocal(Num(head[1]), s1, map[], t);
    MessagesLocal(0, ReadPairs(Num(head[1]), s1, map[]).value.1, t);
  }

  lemma VectorLocal(n: nat, s: seq<byte>, t: seq<byte>)
    requires ReadVector(n, s).Ok?
    ensures ReadVector(n, s + t) == Ok(((), ReadVector(n, s).value.1 + t))
  {
    hide ReadFields;
    FieldsLocal(VECTOR_SHAPES, s, t);
    FieldsLocal(seq(n, _ => AU8), ReadFields(VECTOR_SHAPES, s).value.1, t);
  }

  lemma SlotLocal(cursor: bool, s: seq<byte>, t: seq<byte>)
    requires ReadSlot(cursor, s).Ok?
    ensures ReadSlot(cursor, s + t) == Ok((ReadSlot(cursor, s).value.0, ReadSlot(cursor, s).value.1 + t))
  {
    hide ReadFields, ReadDescribe;
    var shapes := if cursor then [AU8, AU8] else [AU8];
    FieldsLocal(shapes, s, t);
    var s1 := ReadFields(shapes, s).value.1;
    if cursor {
      DescribeLocal(s1, t);
      FieldsLocal([AnUB(2), AnUB(4)], ReadDescribe(s1).value.1, t);
    } else {
      FieldsLocal([AnOctets, AnUB(4)], s1, t);
    }
  }

  lemma {:induction false} SlotsLocal(kinds: seq<bool>, s: seq<byte>, t: seq<byte>)
    requires ReadSlots(kinds, s).Ok?
    ensures ReadSlots(kinds, s + t) == Ok((ReadSlots(kinds, s).value.0, ReadSlots(kinds, s).value.1 + t))
  {
    hide ReadSlot;
    if kinds != [] {
      SlotLocal(kinds[0], s, t);
      SlotsLocal(kinds[1..], ReadSlot(kinds[0], s).value.1, t);
    }
  }

  lemma BlockLocal(kinds: seq<bool>, s: seq<byte>, t: seq<byte>)
    requires TakeBlock(kinds, s).Ok?
    ensures TakeBlock(kinds, s + t) == Ok((TakeBlock(kinds, s).value.0, TakeBlock(kinds, s).value.1 + t))
  {
    hide ReadMessage, ReadVector, ReadSlots, TakeMessages;
    MessageLocal(0, s, t);
    var s1 := ReadMessage(0, s).value.1;
    VectorLocal(|kinds|, s1, t);
    var s2 := ReadVector(|kinds|, s1).value.1;
    SlotsLocal(kinds, s2, t);
    MessagesLocal(0, ReadSlots(kinds, s2).value.1, t);
  }

  lemma {:induction false} CellsLocal(n: nat, s: seq<byte>, t: seq<byte>)
    requires ReadCells(n, s).Ok?
    ensures ReadCells(n, s + t) == Ok((ReadCells(n, s).value.0, ReadCells(n, s).value.1 + t))
  {
    hide ReadFields;
    if n > 0 {
      FieldsLocal([AnOctets, AnUB(4)], s, t);
      CellsLocal(n - 1, ReadFields([AnOctets, AnUB(4)], s).value.1, t);
    }
  }

  lemma {:induction false} AllReturnedLocal(n: nat, s: seq<byte>, t: seq<byte>)
    requires ReadAllReturned(n, s).Ok?
    ensures ReadAllReturned(n, s + t) == Ok((ReadAllReturned(n, s).value.0, ReadAllReturned(n, s).value.1 + t))
  {
    hide ReadFields, ReadCells;
    if n > 0 {
      FieldsLocal([AnUB(4)], s, t);
      var (head, s1) := ReadFields([AnUB(4)], s).value;
      CellsLocal(Num(head[0]), s1, t);
      AllReturnedLocal(n - 1, ReadReturned(s).value.1, t);
    }
  }

  lemma ReturningLocal(n: nat, s: seq<byte>, t: seq<byte>)
    requires TakeReturning(n, s).Ok?
    ensures TakeReturning(n, s + t) == Ok((TakeReturning(n, s).value.0, TakeReturning(n, s).value.1 + t))
  {
    hide ReadFields, ReadAllReturned, TakeMessages;
    FieldsLocal([AU8], s, t);
    var s1 := ReadFields([AU8], s).value.1;
    AllReturnedLocal(n, s1, t);
    MessagesLocal(0, ReadAllReturned(n, s1).value.1, t);
  }

  // ---------------------------------------------------------------------
  // Greetings
  // ---------------------------------------------------------------------

  lemma {:induction false} TerminatedLocal(s: seq<byte>, t: seq<byte>)
    requires TakeTerminated(s).Ok?
    ensures TakeTerminated(s + t) == Ok((TakeTerminated(s).value.0, TakeTerminated(s).value.1 + t))
  {
    SliceLocal(s, t, 1);
    if s[0] != 0 { TerminatedLocal(s[1..], t); }
  }

  lemma CapabilitiesLocal(s: seq<byte>, t: seq<byte>)
    requires TakeCapabilities(s).Ok?
    ensures TakeCapabilities(s + t) == Ok((TakeCapabilities(s).value.0, TakeCapabilities(s).value.1 + t))
  {
    hide ReadBytes;
    BytesLocal(s, t);
    BytesLocal(ReadBytes(s).value.1, t);
  }

  lemma DescriptorLocal(s: seq<byte>, t: seq<byte>)
    requires TakeDescriptor(s).Ok?
    ensures TakeDescriptor(s + t) == Ok((TakeDescriptor(s).value.0, TakeDescriptor(s).value.1 + t))
  {
    hide ReadFixed, Take;
    FixedLocal(s, t, 2);
    var (n, s1) := ReadFixed(s, 2).value;
    TakeLocal(s1, t, n);
  }

  lemma ProtocolLocal(s: seq<byte>, t: seq<byte>)
    requires TakeProtocol(s).Ok?
    ensures TakeProtocol(s + t) == Ok((TakeProtocol(s).value.0, TakeProtocol(s).value.1 + t))
  {
    hide Take, TakeTerminated, TakeDescriptor, TakeCapabilities, LittleEndian;
    TakeLocal(s, t, 3);
    var s1 := Take(s, 3).value.1;
    TerminatedLocal(s1, t);
    var s2 := TakeTerminated(s1).value.1;
    TakeLocal(s2, t, 5);
    var (charset, s3) := Take(s2, 5).value;
    TakeLength(s2, 5);
    var n := 5 * LittleEndian(charset[3], charset[4]);
    TakeLocal(s3, t, n);
    var s4 := Take(s3, n).value.1;
    DescriptorLocal(s4, t);
    CapabilitiesLocal(TakeDescriptor(s4).value.1, t);
  }

  lemma TakeLength(s: seq<byte>, n: nat)
    requires Take(s, n).Ok?
    ensures |Take(s, n).value.0| == n
  {
  }

  lemma {:induction false} ConversionsLocal(s: seq<byte>, t: seq<byte>)
    requires TakeConversions(s).Ok?
    ensures TakeConversions(s + t) == Ok((TakeConversions(s).value.0, TakeConversions(s).value.1 + t))
    decreases |s|
  {
    FixedLocal(s, t, 2);
    var (dataType, s1) := ReadFixed(s, 2).value;
    if dataType != 0 {
      FixedLocal(s1, t, 2);
      var (conversion, s2) := ReadFixed(s1, 2).value;
      var n := if conversion != 0 then 4 else 0;
      TakeLocal(s2, t, n);
      ConversionsLocal(Take(s2, n).value.1, t);
    }
  }

  lemma GreetingLocal(kind: byte, s: seq<byte>, t: seq<byte>)
    requires TakeGreeting(kind, s).Ok?
    ensures TakeGreeting(kind, s + t) == Ok((TakeGreeting(kind, s).value.0, TakeGreeting(kind, s).value.1 + t))
  {
    hide TakeProtocol, TakeConversions;
    if kind == MSG_PROTOCOL {
      ProtocolLocal(s, t);
    } else {
      SliceLocal(s, t, 1);
      ConversionsLocal(s[1..], t);
    }
  }
}
