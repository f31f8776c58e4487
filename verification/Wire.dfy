/** TTC primitives as byte strings: how each is written and how each is read back. */
module Wire {
  import opened Basics
  import opened PlaceValue
  import opened BigEndian
  import Utf8

  datatype BufferError = Underrun | IntegerTooLong | Malformed | Undecodable

  /** What a read takes off the front of the input, and what it leaves. */
  type Reading<T> = Result<(T, seq<byte>), BufferError>

  const CHUNK := 32767
  const LONG_LENGTH := 254
  const MAX_SHORT := 252

  // ---------------------------------------------------------------------
  // Reading
  // ---------------------------------------------------------------------

  function Take(s: seq<byte>, n: nat): Reading<seq<byte>> {
    if |s| < n then Err(Underrun) else Ok((s[..n], s[n..]))
  }

  function ReadU8(s: seq<byte>): Reading<byte> {
    if s == [] then Err(Underrun) else Ok((s[0], s[1..]))
  }

  function ReadFixed(s: seq<byte>, width: nat): (r: Reading<int>)
    ensures r.Ok? ==> r.value.0 >= 0 && |r.value.1| + width == |s|
  {
    if |s| < width then Err(Underrun) else Ok((FromBytes(s[..width]), s[width..]))
  }

  /** A length byte whose high bit is the sign, then that many big-endian bytes; limit None reads any length. */
  function ReadVarint(s: seq<byte>, limit: Option<nat>): (r: Reading<int>)
    ensures r.Ok? ==> |r.value.1| < |s|
  {
    if s == [] then Err(Underrun)
    else
      var length: nat := s[0] % 128;
      if length == 0 then Ok((0, s[1..]))
      else if limit.Some? && length > limit.value then Err(IntegerTooLong)
      else
        match ReadFixed(s[1..], length)
        case Err(e) => Err(e)
        case Ok((v, rest)) => Ok((if s[0] >= 128 then -v else v, rest))
  }

  function SkipUb(s: seq<byte>): Result<seq<byte>, BufferError> {
    if |s| < 1 || |s| - 1 < s[0] % 128 then Err(Underrun) else Ok(s[1 + s[0] % 128..])
  }

  /** The pieces of a chunked byte string, up to the empty chunk that ends it. */
  function ReadChunks(s: seq<byte>): (r: Reading<seq<byte>>)
    ensures r.Ok? ==> |r.value.1| < |s|
    decreases |s|
  {
    match ReadFixed(s, 4)
    case Err(e) => Err(e)
    case Ok((n, s1)) =>
      if n == 0 then Ok(([], s1))
      else
        match Take(s1, n)
        case Err(e) => Err(e)
        case Ok((chunk, s2)) =>
          match ReadChunks(s2)
          case Err(e) => Err(e)
          case Ok((more, rest)) => Ok((chunk + more, rest))
  }

  function ReadBytes(s: seq<byte>): (r: Reading<Option<seq<byte>>>)
    ensures r.Ok? ==> |r.value.1| < |s|
  {
    if s == [] then Err(Underrun)
    else if s[0] == 0 || s[0] == 255 then Ok((None, s[1..]))
    else
      match if s[0] == LONG_LENGTH then ReadChunks(s[1..]) else Take(s[1..], s[0])
      case Err(e) => Err(e)
      case Ok((data, rest)) => Ok((Some(data), rest))
  }

  function ReadBytesWithLength(s: seq<byte>): (r: Reading<Option<seq<byte>>>)
    ensures r.Ok? ==> |r.value.1| < |s|
  {
    match ReadVarint(s, Some(4))
    case Err(e) => Err(e)
    case Ok((count, s1)) => if count > 0 then ReadBytes(s1) else Ok((None, s1))
  }

  /** A text, as its UTF-8 bytes, or NULL. */
  type Text = t: Option<seq<byte>> | t.Some? ==> Utf8.IsUtf8(t.value) witness None

  function ReadText(s: seq<byte>): (r: Reading<Text>)
    ensures r.Ok? ==> |r.value.1| < |s|
  {
    match ReadBytes(s)
    case Err(e) => Err(e)
    case Ok((data, rest)) => if data.Some? && !Utf8.IsUtf8(data.value) then Err(Undecodable) else Ok((data, rest))
  }

  function ReadTextWithLength(s: seq<byte>): (r: Reading<Text>)
    ensures r.Ok? ==> |r.value.1| < |s|
  {
    match ReadVarint(s, Some(4))
    case Err(e) => Err(e)
    case Ok((count, s1)) => if count > 0 then ReadText(s1) else Ok((None, s1))
  }

  /** Reading text is reading bytes that are UTF-8. */
  lemma TextIsBytes(s: seq<byte>)
    ensures var b, t := ReadBytesWithLength(s), ReadTextWithLength(s);
      if b.Err? then t == Err(b.error)
      else if b.value.0.Some? && !Utf8.IsUtf8(b.value.0.value) then t == Err(Undecodable)
      else t.Ok? && t.value.0 == b.value.0 && t.value.1 == b.value.1
  {
    hide ReadVarint, ReadBytes;
  }

  /** A reading that must use up its input. */
  function Whole<T>(r: Reading<T>): Result<T, BufferError> {
    match r
    case Err(e) => Err(e)
    case Ok((v, rest)) => if rest == [] then Ok(v) else Err(Malformed)
  }

  // ---------------------------------------------------------------------
  // Writing
  // ---------------------------------------------------------------------

  function Abs(v: int): nat { if v < 0 then -v else v }

  predicate VarintFits(v: int, width: nat) { Abs(v) < Pow(256, width) }

  function DropZeros(bs: seq<byte>): (r: seq<byte>)
    ensures |r| <= |bs|
  {
    if bs != [] && bs[0] == 0 then DropZeros(bs[1..]) else bs
  }

  /** The length byte, with the sign in its high bit. */
  function Head(length: nat, negative: bool): (b: byte)
    requires length < 128
    ensures b % 128 == length && (b >= 128 <==> negative)
  {
    if negative then length + 128 else length
  }

  function Varint(v: int, width: nat): seq<byte>
    requires width < 128
  {
    var raw := DropZeros(ToBytes(Abs(v), width));
    [Head(|raw|, v < 0)] + raw
  }

  function ChunkList(data: seq<byte>): seq<byte>
    decreases |data|
  {
    if data == [] then ToBytes(0, 4)
    else
      var n := Min(CHUNK, |data|);
      ToBytes(n, 4) + data[..n] + ChunkList(data[n..])
  }

  function ByteString(data: seq<byte>): seq<byte> {
    if |data| <= MAX_SHORT then [|data|] + data
    else [LONG_LENGTH] + ChunkList(data)
  }

  function TwoLengths(data: Option<seq<byte>>): seq<byte> {
    if data == None || data.value == [] then Varint(0, 4)
    else Varint(|data.value|, 4) + ByteString(data.value)
  }

  function Clamp(v: int): int { Max(-128, Min(127, v)) }

  function SignedByte(v: int): byte { Clamp(v) % 256 }

  /** Empty and absent byte strings are the same thing on the wire. */
  function NonEmpty(data: seq<byte>): Option<seq<byte>> {
    if data == [] then None else Some(data)
  }

  // ---------------------------------------------------------------------
  // Each read undoes the matching write, up to any tail
  // ---------------------------------------------------------------------

  lemma TakeFront(x: seq<byte>, tail: seq<byte>)
    ensures Take(x + tail, |x|) == Ok((x, tail))
  {
  }

  lemma {:induction false} FromDropZeros(bs: seq<byte>)
    ensures FromBytes(DropZeros(bs)) == FromBytes(bs)
    ensures DropZeros(bs) == [] <==> FromBytes(bs) == 0
  {
    if bs != [] && bs[0] == 0 {
      FromDropZeros(bs[1..]);
      LeadingZero(bs[1..]);
      assert bs == [0] + bs[1..];
    } else if bs != [] {
      LeadingNonzero(bs);
    }
  }

  lemma {:induction false} LeadingZero(bs: seq<byte>)
    ensures FromBytes([0] + bs) == FromBytes(bs)
  {
    if bs == [] {
      assert [0] + bs == [0] && [0][..0] == [];
    } else {
      LeadingZero(bs[..|bs| - 1]);
      assert ([0] + bs)[..|bs|] == [0] + bs[..|bs| - 1];
    }
  }

  lemma {:induction false} LeadingNonzero(bs: seq<byte>)
    requires bs != [] && bs[0] != 0
    ensures FromBytes(bs) > 0
  {
    if |bs| > 1 { LeadingNonzero(bs[..|bs| - 1]); }
  }

  lemma VarintRead(v: int, width: nat, limit: Option<nat>, tail: seq<byte>)
    requires width < 128 && VarintFits(v, width)
    requires limit.Some? ==> width <= limit.value
    ensures ReadVarint(Varint(v, width) + tail, limit) == Ok((v, tail))
  {
    hide DropZeros, Head, ToBytes;
    var raw := DropZeros(ToBytes(Abs(v), width));
    RoundTrip(Abs(v), width);
    FromDropZeros(ToBytes(Abs(v), width));
    var s := Varint(v, width) + tail;
    assert s == [Head(|raw|, v < 0)] + (raw + tail);
    assert s[1..] == raw + tail;
    assert ReadFixed(raw + tail, |raw|) == Ok((FromBytes(raw), tail)) by { SplitFront(raw, tail); }
  }

  lemma SplitFront(x: seq<byte>, tail: seq<byte>)
    ensures (x + tail)[..|x|] == x && (x + tail)[|x|..] == tail
  {
  }

  /** Skipping an integer ends where reading it would; it only fails to refuse one that is too long. */
  lemma SkipAgrees(s: seq<byte>, limit: Option<nat>)
    ensures match ReadVarint(s, limit)
      case Ok((_, rest)) => SkipUb(s) == Ok(rest)
      case Err(Underrun) => SkipUb(s) == Err(Underrun)
      case Err(_) => s != [] && limit.Some? && s[0] % 128 > limit.value
  {
    if s != [] && s[0] % 128 == 0 {
      assert s[1..][..0] == [];
    }
  }

  lemma FixedRead(v: nat, width: nat, tail: seq<byte>)
    requires v < Pow(256, width)
    ensures ReadFixed(ToBytes(v, width) + tail, width) == Ok((v, tail))
  {
    RoundTrip(v, width);
    var s := ToBytes(v, width) + tail;
    assert s[..width] == ToBytes(v, width) && s[width..] == tail;
  }

  lemma ChunkUnfold(data: seq<byte>)
    requires data != []
    ensures var n := Min(CHUNK, |data|);
      ChunkList(data) == ToBytes(n, 4) + data[..n] + ChunkList(data[n..])
  {
    hide ToBytes;
  }

  lemma ChunkRead(chunk: seq<byte>, rest: seq<byte>)
    requires 0 < |chunk| <= CHUNK
    ensures ReadChunks(ToBytes(|chunk|, 4) + (chunk + rest)) ==
      match ReadChunks(rest)
      case Err(e) => Err(e)
      case Ok((more, end)) => Ok((chunk + more, end))
  {
    hide ToBytes, ReadFixed;
    assert Pow(256, 4) == 0x1_0000_0000;
    FixedRead(|chunk|, 4, chunk + rest);
    TakeFront(chunk, rest);
  }

  lemma NoChunkRead(tail: seq<byte>)
    ensures ReadChunks(ToBytes(0, 4) + tail) == Ok(([], tail))
  {
    hide ToBytes, ReadFixed;
    assert Pow(256, 4) == 0x1_0000_0000;
    FixedRead(0, 4, tail);
  }

  lemma {:induction false} ChunksRead(data: seq<byte>, tail: seq<byte>)
    ensures ReadChunks(ChunkList(data) + tail) == Ok((data, tail))
    decreases |data|
  {
    hide ToBytes, ReadChunks;
    if data == [] {
      NoChunkRead(tail);
    } else {
      hide ChunkList;
      var n := Min(CHUNK, |data|);
      ChunkUnfold(data);
      var rest := ChunkList(data[n..]) + tail;
      assert ChunkList(data) + tail == ToBytes(n, 4) + (data[..n] + rest);
      ChunkRead(data[..n], rest);
      ChunksRead(data[n..], tail);
      assert data[..n] + data[n..] == data;
    }
  }

  lemma BytesRead(data: seq<byte>, tail: seq<byte>)
    ensures ReadBytes(ByteString(data) + tail) == Ok((NonEmpty(data), tail))
  {
    hide ReadChunks, ChunkList;
    var s := ByteString(data) + tail;
    if |data| <= MAX_SHORT {
      assert s == [|data|] + (data + tail);
      assert s[1..] == data + tail && s[0] == |data|;
      TakeFront(data, tail);
      if data == [] { assert s[1..] == tail; }
    } else {
      assert s == [LONG_LENGTH] + (ChunkList(data) + tail);
      assert s[1..] == ChunkList(data) + tail;
      ChunksRead(data, tail);
    }
  }

  lemma TwoLengthsRead(data: Option<seq<byte>>, tail: seq<byte>)
    requires data.Some? ==> |data.value| < 0x1_0000_0000
    ensures ReadBytesWithLength(TwoLengths(data) + tail)
      == Ok((if data.Some? then NonEmpty(data.value) else None, tail))
  {
    hide Varint, ByteString, ReadVarint, ReadBytes;
    assert Pow(256, 4) == 0x1_0000_0000;
    if data == None || data.value == [] {
      VarintRead(0, 4, Some(4), tail);
    } else {
      VarintRead(|data.value|, 4, Some(4), ByteString(data.value) + tail);
      assert TwoLengths(data) + tail == Varint(|data.value|, 4) + (ByteString(data.value) + tail);
      BytesRead(data.value, tail);
    }
  }

  // ---------------------------------------------------------------------
  // Sequences of primitives
  // ---------------------------------------------------------------------

  /** One primitive write. */
  datatype Field =
    | UB(v: int, width: nat)
    | U8(v: int)
    | SB1(v: int)
    | Octets(data: seq<byte>)
    | Sized(text: Option<seq<byte>>)

  /** The read that matches it. */
  datatype Shape = AnUB(limit: nat) | AnInt | AU8 | ASB1 | AnOctets | ASized

  datatype Value = Number(n: int) | Text(t: Option<seq<byte>>)

  predicate Printable(f: Field) {
    match f
    case UB(v, width) => width < 128 && VarintFits(v, width)
    case Sized(text) => text.Some? ==> |text.value| < 0x1_0000_0000
    case _ => true
  }

  function Print(f: Field): seq<byte>
    requires Printable(f)
  {
    match f
    case UB(v, width) => Varint(v, width)
    case U8(v) => [v % 256]
    case SB1(v) => [SignedByte(v)]
    case Octets(data) => ByteString(data)
    case Sized(text) => TwoLengths(text)
  }

  function ShapeOf(f: Field): Shape {
    match f
    case UB(_, width) => AnUB(width)
    case U8(_) => AU8
    case SB1(_) => ASB1
    case Octets(_) => AnOctets
    case Sized(_) => ASized
  }

  /** What the matching read returns. */
  function ValueOf(f: Field): Value {
    match f
    case UB(v, _) => Number(v)
    case U8(v) => Number(v % 256)
    case SB1(v) => Number(Clamp(v))
    case Octets(data) => Text(NonEmpty(data))
    case Sized(text) => Text(if text.Some? then NonEmpty(text.value) else None)
  }

  function AsNumber(r: Reading<int>): Reading<Value> {
    match r case Ok((n, rest)) => Ok((Number(n), rest)) case Err(e) => Err(e)
  }

  function AsText(r: Reading<Option<seq<byte>>>): Reading<Value> {
    match r case Ok((t, rest)) => Ok((Text(t), rest)) case Err(e) => Err(e)
  }

  function ReadField(sh: Shape, s: seq<byte>): (r: Reading<Value>)
    ensures r.Ok? ==> |r.value.1| < |s|
  {
    match sh
    case AnUB(limit) => AsNumber(ReadVarint(s, Some(limit)))
    case AnInt => AsNumber(ReadVarint(s, None))
    case AU8 => (match ReadU8(s) case Ok((b, rest)) => Ok((Number(b), rest)) case Err(e) => Err(e))
    case ASB1 => (match ReadU8(s)
                  case Ok((b, rest)) => Ok((Number(if b < 128 then b else b - 256), rest))
                  case Err(e) => Err(e))
    case AnOctets => AsText(ReadBytes(s))
    case ASized => AsText(ReadBytesWithLength(s))
  }

  function ReadFields(shapes: seq<Shape>, s: seq<byte>): (r: Reading<seq<Value>>)
    ensures r.Ok? ==> |r.value.0| == |shapes| && |r.value.1| <= |s|
  {
    if shapes == [] then Ok(([], s))
    else
      match ReadField(shapes[0], s)
      case Err(e) => Err(e)
      case Ok((v, s1)) =>
        match ReadFields(shapes[1..], s1)
        case Err(e) => Err(e)
        case Ok((vs, rest)) => Ok(([v] + vs, rest))
  }

  predicate AllPrintable(fs: seq<Field>) { forall i :: 0 <= i < |fs| ==> Printable(fs[i]) }

  function PrintAll(fs: seq<Field>): seq<byte>
    requires AllPrintable(fs)
  {
    if fs == [] then [] else Print(fs[0]) + PrintAll(fs[1..])
  }

  function ShapesOf(fs: seq<Field>): seq<Shape> { seq(|fs|, i requires 0 <= i < |fs| => ShapeOf(fs[i])) }

  function ValuesOf(fs: seq<Field>): seq<Value> { seq(|fs|, i requires 0 <= i < |fs| => ValueOf(fs[i])) }

  /** A read that undoes a write: its own, or for an integer one with a larger limit or none. */
  predicate Suits(sh: Shape, f: Field) {
    match f
    case UB(_, width) => sh == AnInt || (sh.AnUB? && sh.limit >= width)
    case _ => sh == ShapeOf(f)
  }

  predicate AllSuit(shapes: seq<Shape>, fs: seq<Field>) {
    |shapes| == |fs| && forall i :: 0 <= i < |fs| ==> Suits(shapes[i], fs[i])
  }

  lemma FieldRead(sh: Shape, f: Field, tail: seq<byte>)
    requires Printable(f) && Suits(sh, f)
    ensures ReadField(sh, Print(f) + tail) == Ok((ValueOf(f), tail))
  {
    match f
    case UB(v, width) => VarintRead(v, width, if sh.AnUB? then Some(sh.limit) else None, tail);
    case U8(v) => assert ([v % 256] + tail)[1..] == tail;
    case SB1(v) => assert ([SignedByte(v)] + tail)[1..] == tail;
    case Octets(data) => BytesRead(data, tail);
    case Sized(text) => TwoLengthsRead(text, tail);
  }

  /** Any sequence of writes is read back by suitable reads, ending exactly at the tail. */
  lemma {:induction false} FieldsReadBy(shapes: seq<Shape>, fs: seq<Field>, tail: seq<byte>)
    requires AllPrintable(fs) && AllSuit(shapes, fs)
    ensures ReadFields(shapes, PrintAll(fs) + tail) == Ok((ValuesOf(fs), tail))
  {
    hide ReadField, Print, Suits;
    if fs == [] {
      assert PrintAll(fs) + tail == tail;
    } else {
      var more := PrintAll(fs[1..]) + tail;
      assert PrintAll(fs) + tail == Print(fs[0]) + more;
      FieldRead(shapes[0], fs[0], more);
      FieldsReadBy(shapes[1..], fs[1..], tail);
      assert ValuesOf(fs) == [ValueOf(fs[0])] + ValuesOf(fs[1..]);
    }
  }

  /** In particular by the reads of their own widths. */
  lemma FieldsRead(fs: seq<Field>, tail: seq<byte>)
    requires AllPrintable(fs)
    ensures ReadFields(ShapesOf(fs), PrintAll(fs) + tail) == Ok((ValuesOf(fs), tail))
  {
    FieldsReadBy(ShapesOf(fs), fs, tail);
  }

  lemma OneField(f: Field)
    requires Printable(f)
    ensures PrintAll([f]) == Print(f)
  {
    assert PrintAll([f]) == Print(f) + [];
  }

  lemma {:induction false} PrintAppend(fs: seq<Field>, gs: seq<Field>)
    requires AllPrintable(fs) && AllPrintable(gs)
    ensures PrintAll(fs + gs) == PrintAll(fs) + PrintAll(gs)
  {
    if fs == [] {
      assert fs + gs == gs;
    } else {
      assert (fs + gs)[1..] == fs[1..] + gs;
      PrintAppend(fs[1..], gs);
    }
  }
}
