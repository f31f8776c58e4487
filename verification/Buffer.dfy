/** The stateful TTC reader and writer over the primitives of Wire. */
module Buffer {
  import opened Basics
  import opened PlaceValue
  import opened BigEndian
  import opened Wire
  import Utf8

  /** Success, or whatever a write raises: an integer that does not fit its width, a value without an
      encoding. */
  datatype Outcome = Pass | Raise {
    predicate IsFailure() { Raise? }

    function PropagateFailure(): Outcome
      requires Raise?
    {
      this
    }
  }

  class TTCReader {
    const data: seq<byte>
    var pos: nat

    ghost predicate Valid()
      reads this
    {
      pos <= |data|
    }

    /** What is left to read. */
    ghost function Rest(): seq<byte>
      requires Valid()
      reads this
    {
      data[pos..]
    }

    constructor (data: seq<byte>)
      ensures Valid() && this.data == data && pos == 0 && Rest() == data
    {
      this.data, pos := data, 0;
    }

    method BytesLeft() returns (n: nat)
      requires Valid()
      ensures n == |Rest()|
    {
      n := |data| - pos;
    }

    method Raw(n: nat) returns (r: Result<seq<byte>, BufferError>)
      requires Valid()
      modifies this
      ensures Valid() && old(pos) <= pos
      ensures match Take(old(Rest()), n)
        case Ok((bytes, rest)) => r == Ok(bytes) && Rest() == rest
        case Err(e) => r == Err(e) && Rest() == old(Rest())
    {
      if |data| - pos < n {
        return Err(Underrun);
      }
      r := Ok(data[pos..pos + n]);
      assert data[pos..pos + n] == data[pos..][..n];
      assert data[pos + n..] == data[pos..][n..];
      pos := pos + n;
    }

    method U8() returns (r: Result<byte, BufferError>)
      requires Valid()
      modifies this
      ensures Valid() && old(pos) <= pos
      ensures match ReadU8(old(Rest()))
        case Ok((b, rest)) => r == Ok(b) && Rest() == rest && old(pos) < pos
        case Err(e) => r == Err(e) && Rest() == old(Rest())
    {
      var raw :- Raw(1);
      r := Ok(raw[0]);
    }

    method U32be() returns (r: Result<nat, BufferError>)
      requires Valid()
      modifies this
      ensures Valid() && old(pos) <= pos
      ensures match ReadFixed(old(Rest()), 4)
        case Ok((v, rest)) => r == Ok(v) && Rest() == rest
        case Err(e) => r == Err(e) && Rest() == old(Rest())
    {
      var raw :- Raw(4);
      r := Ok(FromBytes(raw));
    }

    /** A signed integer of up to limit bytes, or of any length when there is no limit. */
    method Varint(limit: Option<nat>) returns (r: Result<int, BufferError>)
      requires Valid()
      modifies this
      ensures Valid() && old(pos) <= pos
      ensures match ReadVarint(old(Rest()), limit)
        case Ok((v, rest)) => r == Ok(v) && Rest() == rest && old(pos) < pos
        case Err(e) => r == Err(e)
    {
      var first :- U8();
      var negative := first >= 128;
      var length := first % 128;
      if length == 0 {
        return Ok(0);
      }
      if limit.Some? && length > limit.value {
        return Err(IntegerTooLong);
      }
      var raw :- Raw(length);
      var value: int := FromBytes(raw);
      r := Ok(if negative then -value else value);
    }

    method SkipUb() returns (r: Result<(), BufferError>)
      requires Valid()
      modifies this
      ensures Valid() && old(pos) <= pos
      ensures match Wire.SkipUb(old(Rest()))
        case Ok(rest) => r == Ok(()) && Rest() == rest
        case Err(e) => r == Err(e)
    {
      var first :- U8();
      var length := first % 128;
      if length != 0 {
        var _ :- Raw(length);
      }
      r := Ok(());
    }

    /** The chunk loop of a long byte string. */
    method Chunks() returns (r: Result<seq<byte>, BufferError>)
      requires Valid()
      modifies this
      ensures Valid() && old(pos) <= pos
      ensures match ReadChunks(old(Rest()))
        case Ok((bytes, rest)) => r == Ok(bytes) && Rest() == rest && old(pos) < pos
        case Err(e) => r == Err(e)
    {
      var chunks := [];
      assert forall more: seq<byte> :: [] + more == more;
      while true
        invariant Valid() && old(pos) <= pos
        invariant match ReadChunks(Rest())
          case Ok((more, rest)) => ReadChunks(old(Rest())) == Ok((chunks + more, rest))
          case Err(e) => ReadChunks(old(Rest())) == Err(e)
        decreases |data| - pos
      {
        var n :- U32be();
        if n == 0 {
          assert chunks + [] == chunks;
          break;
        }
        var chunk :- Raw(n);
        ghost var tail := ReadChunks(Rest());
        if tail.Ok? { assert chunks + (chunk + tail.value.0) == (chunks + chunk) + tail.value.0; }
        chunks := chunks + chunk;
      }
      r := Ok(chunks);
    }

    method LengthPrefixedBytes() returns (r: Result<Option<seq<byte>>, BufferError>)
      requires Valid()
      modifies this
      ensures Valid() && old(pos) <= pos
      ensures match ReadBytes(old(Rest()))
        case Ok((v, rest)) => r == Ok(v) && Rest() == rest && old(pos) < pos
        case Err(e) => r == Err(e)
    {
      var length :- U8();
      if length == 0 || length == 255 {
        return Ok(None);
      }
      if length == LONG_LENGTH {
        var chunks :- Chunks();
        return Ok(Some(chunks));
      }
      var raw :- Raw(length);
      r := Ok(Some(raw));
    }

    method BytesWithLength() returns (r: Result<Option<seq<byte>>, BufferError>)
      requires Valid()
      modifies this
      ensures Valid() && old(pos) <= pos
      ensures match ReadBytesWithLength(old(Rest()))
        case Ok((v, rest)) => r == Ok(v) && Rest() == rest && old(pos) < pos
        case Err(e) => r == Err(e)
    {
      var count :- Varint(Some(4));
      if count > 0 {
        r := LengthPrefixedBytes();
      } else {
        r := Ok(None);
      }
    }

    /** A byte string decoded strictly as UTF-8. */
    method Str() returns (r: Result<Text, BufferError>)
      requires Valid()
      modifies this
      ensures Valid() && old(pos) <= pos
      ensures match ReadText(old(Rest()))
        case Ok((v, rest)) => r == Ok(v) && Rest() == rest && old(pos) < pos
        case Err(e) => r == Err(e)
    {
      var data :- LengthPrefixedBytes();
      if data.Some? && !Utf8.IsUtf8(data.value) {
        return Err(Undecodable);
      }
      r := Ok(data);
    }

    method StrWithLength() returns (r: Result<Text, BufferError>)
      requires Valid()
      modifies this
      ensures Valid() && old(pos) <= pos
      ensures match ReadTextWithLength(old(Rest()))
        case Ok((v, rest)) => r == Ok(v) && Rest() == rest && old(pos) < pos
        case Err(e) => r == Err(e)
    {
      var count :- Varint(Some(4));
      if count > 0 {
        r := Str();
      } else {
        r := Ok(None);
      }
    }

    /** One primitive of some shape. */
    method One(sh: Shape) returns (r: Result<Value, BufferError>)
      requires Valid()
      modifies this
      ensures Valid() && old(pos) <= pos
      ensures match ReadField(sh, old(Rest()))
        case Ok((v, rest)) => r == Ok(v) && Rest() == rest
        case Err(e) => r == Err(e)
    {
      hide ReadVarint, ReadBytes, ReadBytesWithLength;
      match sh
      case AU8 =>
        var v :- U8();
        r := Ok(Number(v));
      case ASB1 =>
        var v :- U8();
        var n: int := v;
        r := Ok(Number(if n < 128 then n else n - 256));
      case AnUB(limit) =>
        var v :- Varint(Some(limit));
        r := Ok(Number(v));
      case AnInt =>
        var v :- Varint(None);
        r := Ok(Number(v));
      case AnOctets =>
        var t :- LengthPrefixedBytes();
        r := Ok(Value.Text(t));
      case ASized =>
        var t :- BytesWithLength();
        r := Ok(Value.Text(t));
    }

    /** Primitives one after the other. */
    method Fields(shapes: seq<Shape>) returns (r: Result<seq<Value>, BufferError>)
      requires Valid()
      modifies this
      ensures Valid() && old(pos) <= pos
      ensures match ReadFields(shapes, old(Rest()))
        case Ok((vs, rest)) => r == Ok(vs) && Rest() == rest
        case Err(e) => r == Err(e)
    {
      hide ReadField;
      var vs := [];
      assert forall more: seq<Value> :: [] + more == more;
      assert shapes[0..] == shapes;
      for i := 0 to |shapes|
        invariant Valid() && old(pos) <= pos
        invariant match ReadFields(shapes[i..], Rest())
          case Ok((more, rest)) => ReadFields(shapes, old(Rest())) == Ok((vs + more, rest))
          case Err(e) => ReadFields(shapes, old(Rest())) == Err(e)
      {
        assert shapes[i..][0] == shapes[i] && shapes[i..][1..] == shapes[i + 1..];
        var v :- One(shapes[i]);
        ghost var more := ReadFields(shapes[i + 1..], Rest());
        if more.Ok? { Associate(vs, [v], more.value.0); }
        vs := vs + [v];
      }
      assert vs + [] == vs;
      r := Ok(vs);
    }
  }

  /** The integer encoder: None when the value does not fit the width. */
  method EncodeVarint(v: int, width: nat) returns (part: Option<seq<byte>>)
    requires width < 128
    ensures part == if VarintFits(v, width) then Some(Varint(v, width)) else None
  {
    var magnitude := if v < 0 then -v else v;
    if magnitude >= Pow(256, width) {
      return None;
    }
    if magnitude == 0 {
      FromDropZeros(ToBytes(0, width));
      PowPositive(256, width);
      RoundTrip(0, width);
      assert [0] + DropZeros(ToBytes(0, width)) == [0];
      return Some([0]);
    }
    var raw := DropZeros(ToBytes(magnitude, width));
    part := Some(if v < 0 then [|raw| + 128] + raw else [|raw|] + raw);
  }

  class TTCWriter {
    var parts: seq<seq<byte>>
    /** The primitive writes made so far: those of closed groups, then those of the open one. */
    ghost var closed: seq<Field>
    ghost var group: seq<Field>

    ghost function Fields(): seq<Field>
      reads this
    {
      closed + group
    }

    ghost predicate Valid()
      reads this
    {
      AllPrintable(Fields()) && Flatten(parts) == PrintAll(Fields())
    }

    constructor ()
      ensures Valid() && closed == [] && group == []
    {
      parts, closed, group := [], [], [];
    }

    /** Closes the open group. */
    ghost method Group()
      requires Valid()
      modifies this`closed, this`group
      ensures Valid() && closed == old(Fields()) && group == []
    {
      closed, group := closed + group, [];
      assert closed + [] == closed;
    }

    method GetValue() returns (bytes: seq<byte>)
      requires Valid()
      ensures bytes == PrintAll(Fields())
    {
      bytes := Flatten(parts);
    }

    lemma Appended(part: seq<byte>, f: Field)
      requires Valid() && Printable(f) && part == Print(f)
      ensures closed + (group + [f]) == Fields() + [f]
      ensures AllPrintable(Fields() + [f]) && Flatten(parts + [part]) == PrintAll(Fields() + [f])
    {
      AppendOne(parts, part);
      PrintAppend(Fields(), [f]);
      OneField(f);
    }

    method U8(v: int)
      requires Valid()
      modifies this
      ensures Valid() && closed == old(closed) && group == old(group) + [Field.U8(v)]
    {
      Appended([v % 256], Field.U8(v));
      parts := parts + [[v % 256]];
      group := group + [Field.U8(v)];
    }

    /** A variable-length integer; one too wide raises before anything is written. */
    method UB(v: int, width: nat) returns (ok: Outcome)
      requires Valid() && width < 128
      modifies this
      ensures Valid()
      ensures ok.Pass? <==> VarintFits(v, width)
      ensures closed == old(closed)
      ensures group == if ok.Pass? then old(group) + [Field.UB(v, width)] else old(group)
    {
      var part := EncodeVarint(v, width);
      if part.None? {
        return Raise;
      }
      Appended(part.value, Field.UB(v, width));
      parts := parts + [part.value];
      group := group + [Field.UB(v, width)];
      ok := Pass;
    }

    /** A constant zero, which always fits. */
    method Zero(width: nat)
      requires Valid() && width < 128
      modifies this
      ensures Valid() && closed == old(closed) && group == old(group) + [Field.UB(0, width)]
    {
      PowPositive(256, width);
      var _ := UB(0, width);
    }

    method SB1(v: int)
      requires Valid()
      modifies this
      ensures Valid() && closed == old(closed) && group == old(group) + [Field.SB1(v)]
    {
      Appended([SignedByte(v)], Field.SB1(v));
      parts := parts + [[SignedByte(v)]];
      group := group + [Field.SB1(v)];
    }

    /** A byte string behind its length, with another length inside; absent and empty are a lone zero. */
    method TwoLengths(text: Option<seq<byte>>) returns (ok: Outcome)
      requires Valid()
      modifies this
      ensures Valid() && closed == old(closed)
      ensures ok.Pass? <==> Printable(Sized(text))
      ensures ok.Pass? ==> group == old(group) + [Sized(text)]
    {
      hide PrintAll, Flatten, Wire.TwoLengths;
      ghost var before := Fields();
      :- WriteTwoLengths(text);
      PrintAppend(before, [Sized(text)]);
      OneField(Sized(text));
      group := group + [Sized(text)];
      assert Fields() == before + [Sized(text)];
      ok := Pass;
    }

    method WriteTwoLengths(text: Option<seq<byte>>) returns (ok: Outcome)
      modifies this`parts
      ensures ok.Pass? <==> Printable(Sized(text))
      ensures Flatten(parts) == if ok.Pass? then Flatten(old(parts)) + Wire.TwoLengths(text) else Flatten(old(parts))
    {
      assert Pow(256, 4) == 0x1_0000_0000;
      var count := if text.Some? then |text.value| else 0;
      var head := EncodeVarint(count, 4);
      if head.None? {
        return Raise;
      }
      AppendOne(parts, head.value);
      parts := parts + [head.value];
      if count > 0 {
        Associate(Flatten(old(parts)), head.value, ByteString(text.value));
        WriteByteString(text.value);
      }
      ok := Pass;
    }

    /** A byte string: short form, or the long form cut into chunks. */
    method LengthPrefixed(data: seq<byte>)
      requires Valid()
      modifies this
      ensures Valid() && closed == old(closed) && group == old(group) + [Octets(data)]
    {
      hide PrintAll, Flatten, ByteString;
      ghost var before := Fields();
      WriteByteString(data);
      PrintAppend(before, [Octets(data)]);
      OneField(Octets(data));
      group := group + [Octets(data)];
      assert Fields() == before + [Octets(data)];
    }

    method WriteByteString(data: seq<byte>)
      modifies this`parts
      ensures Flatten(parts) == Flatten(old(parts)) + ByteString(data)
    {
      ghost var before := parts;
      if data == [] {
        parts := parts + [[0]];
        AppendOne(before, [0]);
      } else if |data| <= MAX_SHORT {
        parts := parts + [[|data|]];
        parts := parts + [data];
        AppendTwo(before, [|data|], data);
      } else {
        parts := parts + [[LONG_LENGTH]];
        AppendOne(before, [LONG_LENGTH]);
        ChunkLoop(data);
        Associate(Flatten(before), [LONG_LENGTH], ChunkList(data));
      }
    }

    /** The chunks of a long byte string, each behind its length, and the empty chunk that ends them. */
    method ChunkLoop(data: seq<byte>)
      modifies this`parts
      ensures Flatten(parts) == Flatten(old(parts)) + ChunkList(data)
    {
      var pos := 0;
      ghost var written: seq<byte> := [];
      while pos < |data|
        invariant 0 <= pos <= |data|
        invariant Flatten(parts) == Flatten(old(parts)) + written
        invariant written + ChunkList(data[pos..]) == ChunkList(data)
      {
        var chunk := data[pos..Min(pos + CHUNK, |data|)];
        ghost var step := ToBytes(|chunk|, 4) + chunk;
        ChunkStep(data, pos, chunk);
        AppendTwo(parts, ToBytes(|chunk|, 4), chunk);
        Associate(written, step, ChunkList(data[pos + |chunk|..]));
        Associate(Flatten(old(parts)), written, step);
        pos := pos + |chunk|;
        parts := parts + [ToBytes(|chunk|, 4)];
        parts := parts + [chunk];
        written := written + step;
      }
      assert data[pos..] == [];
      AppendOne(parts, ToBytes(0, 4));
      Associate(Flatten(old(parts)), written, ToBytes(0, 4));
      parts := parts + [ToBytes(0, 4)];
    }
  }

  lemma ChunkStep(data: seq<byte>, pos: nat, chunk: seq<byte>)
    requires pos < |data| && chunk == data[pos..Min(pos + CHUNK, |data|)]
    ensures ChunkList(data[pos..]) == ToBytes(|chunk|, 4) + chunk + ChunkList(data[pos + |chunk|..])
  {
    hide ToBytes, ChunkList;
    var rest := data[pos..];
    ChunkUnfold(rest);
    assert rest[..|chunk|] == chunk && rest[|chunk|..] == data[pos + |chunk|..];
  }

  lemma AppendOne(parts: seq<seq<byte>>, a: seq<byte>)
    ensures Flatten(parts + [a]) == Flatten(parts) + a
  {
    FlattenAppend(parts, [a]);
    assert Flatten([a]) == a + [] == a;
  }

  lemma AppendTwo(parts: seq<seq<byte>>, a: seq<byte>, b: seq<byte>)
    ensures Flatten(parts + [a] + [b]) == Flatten(parts) + (a + b)
  {
    AppendOne(parts, a);
    AppendOne(parts + [a], b);
  }
}
