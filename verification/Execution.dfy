/** The bodies of execute and authentication requests, read as far as the session reads them. */
module Execution {
  import opened Basics
  import opened Wire
  import opened Buffer
  import opened Messages
  import opened Params
  import Columns
  import NumberDecode
  import Dates
  import Intervals

  const CURSOR := 102

  // ---------------------------------------------------------------------
  // Binds
  // ---------------------------------------------------------------------

  /** Type, flags, precision, scale, sizes, object id, version, character set, prefetch. */
  const BIND_SHAPES: seq<Shape> :=
    [AU8, AU8, AU8, AU8, AnUB(4), AnUB(4), AnUB(8), ASized, AnUB(2), AnUB(2), AU8, AnUB(4)]

  /** The types of so many binds; a negative count describes none. */
  function ReadBindTypes(count: int, s: seq<byte>): (r: Reading<seq<int>>)
    ensures r.Ok? ==> |r.value.0| == Max(count, 0) && |r.value.1| <= |s|
    decreases if count > 0 then count else 0
  {
    if count <= 0 then Ok(([], s))
    else
      match ReadFields(BIND_SHAPES, s)
      case Err(e) => Err(e)
      case Ok((vs, s1)) =>
        match ReadBindTypes(count - 1, s1)
        case Err(e) => Err(e)
        case Ok((types, rest)) => Ok(([Num(vs[0])] + types, rest))
  }

  /** The decimal exponent of a NUMBER with so many bytes is one that the decimal arithmetic can scale by. */
  predicate Scalable(data: seq<byte>) {
    data == [] || data[0] == 0x80 ||
    var lead := if data[0] >= 0x80 then data[0] else 255 - data[0];
    var pairs := if data[0] >= 0x80 then |data| - 1 else |NumberDecode.DropClosing(data[1..])|;
    pairs == 0 || 2 * (192 + pairs - lead) <= 2_000_054
  }

  /** The value of a bind can be decoded for its type; only five types are. */
  predicate Decodes(oraType: int, raw: Option<seq<byte>>) {
    raw.Some? ==>
      if oraType == Columns.NUMBER then NumberDecode.DecodeNumber(raw.value).Ok? && Scalable(raw.value)
      else if oraType == Columns.DATE then Dates.DecodeDate(raw.value).Ok?
      else if oraType == Columns.TIMESTAMP || oraType == Columns.TIMESTAMP_TZ then Dates.DecodeTimestamp(raw.value).Ok?
      else oraType == Columns.INTERVAL_DS ==> Intervals.DecodeInterval(raw.value).Ok?
  }

  /** A cursor bind has one marker byte, any other a value of its type. */
  function ReadBindValues(types: seq<int>, s: seq<byte>): Reading<()> {
    if types == [] then Ok(((), s))
    else if types[0] == CURSOR then
      match ReadU8(s)
      case Err(e) => Err(e)
      case Ok((_, s1)) => ReadBindValues(types[1..], s1)
    else
      match ReadBytes(s)
      case Err(e) => Err(e)
      case Ok((raw, s1)) => if Decodes(types[0], raw) then ReadBindValues(types[1..], s1) else Err(Malformed)
  }

  method BindTypes(rdr: TTCReader, count: int) returns (r: Result<seq<int>, BufferError>)
    requires rdr.Valid()
    modifies rdr
    ensures rdr.Valid() && old(rdr.pos) <= rdr.pos
    ensures match ReadBindTypes(count, old(rdr.Rest()))
      case Ok((types, rest)) => r == Ok(types) && rdr.Rest() == rest
      case Err(e) => r == Err(e)
  {
    hide ReadFields;
    var types := [];
    var i := 0;
    assert forall more: seq<int> :: [] + more == more;
    while i < count
      invariant rdr.Valid() && old(rdr.pos) <= rdr.pos && i <= Max(count, 0)
      invariant match ReadBindTypes(count - i, rdr.Rest())
        case Ok((more, rest)) => ReadBindTypes(count, old(rdr.Rest())) == Ok((types + more, rest))
        case Err(e) => ReadBindTypes(count, old(rdr.Rest())) == Err(e)
    {
      var vs :- rdr.Fields(BIND_SHAPES);
      ghost var more := ReadBindTypes(count - i - 1, rdr.Rest());
      if more.Ok? { Associate(types, [Num(vs[0])], more.value.0); }
      types := types + [Num(vs[0])];
      i := i + 1;
    }
    assert types + [] == types;
    r := Ok(types);
  }

  method BindValues(rdr: TTCReader, types: seq<int>) returns (r: Result<(), BufferError>)
    requires rdr.Valid()
    modifies rdr
    ensures rdr.Valid() && old(rdr.pos) <= rdr.pos
    ensures match ReadBindValues(types, old(rdr.Rest()))
      case Ok((_, rest)) => r == Ok(()) && rdr.Rest() == rest
      case Err(e) => r == Err(e)
  {
    hide ReadBytes, Decodes;
    assert types[0..] == types;
    for i := 0 to |types|
      invariant rdr.Valid() && old(rdr.pos) <= rdr.pos
      invariant ReadBindValues(types[i..], rdr.Rest()) == ReadBindValues(types, old(rdr.Rest()))
    {
      assert types[i..][0] == types[i] && types[i..][1..] == types[i + 1..];
      if types[i] == CURSOR {
        var _ :- rdr.U8();
        continue;
      }
      var raw :- rdr.LengthPrefixedBytes();
      if !Decodes(types[i], raw) {
        return Err(Malformed);
      }
    }
    r := Ok(());
  }

  // ---------------------------------------------------------------------
  // Execute
  // ---------------------------------------------------------------------

  /** What an execute request asks for: its options, the cursor to serve when it has no statement, the
      statement, the rows it takes at once, the number of binds it states, the types of those it describes. */
  datatype Execute = Execute(options: int, cursorId: int, sql: Text, numIters: int, stated: int, types: seq<int>)

  /** Up to the statement: 0 options, 1 cursor, 2 statement marker, 9 iterations, 11 and 12 binds, 18 and
      19 defines. */
  const EXECUTE_SHAPES: seq<Shape> := STATEMENT_SHAPES + POINTER_SHAPES

  const STATEMENT_SHAPES: seq<Shape> :=
    [AnUB(4), AnUB(4), AU8, AnUB(4), AU8, AnUB(4), AU8, AU8, AnUB(4), AnUB(4), AnUB(4), AU8, AnUB(4)]

  const POINTER_SHAPES: seq<Shape> :=
    [AU8, AU8, AU8, AU8, AU8, AU8, AnUB(4), AnUB(4), AU8, AU8, AU8, AnUB(4), AU8, AnUB(4), AnUB(4), AU8, AnUB(4), AU8]

  /** Behind the statement: 0 executions, 6 query marker. */
  const COUNT_SHAPES: seq<Shape> :=
    [AnUB(4), AnUB(4), AnUB(4), AnUB(4), AnUB(4), AnUB(4), AnUB(4), AnUB(4), AnUB(4), AnUB(4), AnUB(4), AnUB(4)]

  /** The statement and its parse flag, if there is one. */
  function ReadStatement(present: bool, s: seq<byte>): Reading<Text> {
    if !present then Ok((None, s))
    else
      match ReadText(s)
      case Err(e) => Err(e)
      case Ok((sql, s1)) =>
        match ReadVarint(s1, Some(4))
        case Err(e) => Err(e)
        case Ok((_, rest)) => Ok((sql, rest))
  }

  /** The binds: their types, then, unless the statement sends values back only, their values. */
  function ReadBinds(count: int, valued: bool, s: seq<byte>): Reading<seq<int>> {
    match ReadBindTypes(count, s)
    case Err(e) => Err(e)
    case Ok((types, s1)) =>
      if !valued then Ok((types, s1))
      else
        match ReadU8(s1)
        case Err(e) => Err(e)
        case Ok((tag, s2)) =>
          if tag != MSG_ROW_DATA then Ok((types, s2))
          else
            match ReadBindValues(types, s2)
            case Err(e) => Err(e)
            case Ok((_, rest)) => Ok((types, rest))
  }

  /** Whether the statement is one that returns values into binds is decided by its text, outside. */
  function ReadExecute(returning: bool, s: seq<byte>): Reading<Execute> {
    match ReadFields(EXECUTE_SHAPES, s)
    case Err(e) => Err(e)
    case Ok((head, s1)) =>
      match ReadStatement(Num(head[2]) != 0, s1)
      case Err(e) => Err(e)
      case Ok((sql, s2)) =>
        match ReadFields(COUNT_SHAPES, s2)
        case Err(e) => Err(e)
        case Ok((counts, s3)) =>
          match ReadBindTypes(if Num(head[18]) != 0 then Num(head[19]) else 0, s3)
          case Err(e) => Err(e)
          case Ok((_, s4)) =>
            var stated := Num(head[12]);
            if Num(head[11]) == 0 || stated == 0 then
              Ok((Execute(Num(head[0]), Num(head[1]), sql, Num(head[9]), stated, []), s4))
            else
              match ReadBinds(stated, Num(counts[6]) == 0 && !returning, s4)
              case Err(e) => Err(e)
              case Ok((types, rest)) =>
                Ok((Execute(Num(head[0]), Num(head[1]), sql, Num(head[9]), stated, types), rest))
  }

  method StatementText(rdr: TTCReader, present: bool) returns (r: Result<Text, BufferError>)
    requires rdr.Valid()
    modifies rdr
    ensures rdr.Valid() && old(rdr.pos) <= rdr.pos
    ensures match ReadStatement(present, old(rdr.Rest()))
      case Ok((sql, rest)) => r == Ok(sql) && rdr.Rest() == rest
      case Err(e) => r == Err(e)
  {
    hide ReadText, ReadVarint;
    if !present {
      return Ok(None);
    }
    var sql :- rdr.Str();
    var _ :- rdr.Varint(Some(4));       // parse flag
    r := Ok(sql);
  }

  method Binds(rdr: TTCReader, count: int, valued: bool) returns (r: Result<seq<int>, BufferError>)
    requires rdr.Valid()
    modifies rdr
    ensures rdr.Valid() && old(rdr.pos) <= rdr.pos
    ensures match ReadBinds(count, valued, old(rdr.Rest()))
      case Ok((types, rest)) => r == Ok(types) && rdr.Rest() == rest
      case Err(e) => r == Err(e)
  {
    hide ReadBindTypes, ReadBindValues;
    var types :- BindTypes(rdr, count);
    if valued {
      var tag :- rdr.U8();
      if tag == MSG_ROW_DATA {
        var _ :- BindValues(rdr, types);
      }
    }
    r := Ok(types);
  }

  method ExecuteRequest(rdr: TTCReader, returning: bool) returns (r: Result<Execute, BufferError>)
    requires rdr.Valid()
    modifies rdr
    ensures rdr.Valid() && old(rdr.pos) <= rdr.pos
    ensures match ReadExecute(returning, old(rdr.Rest()))
      case Ok((request, rest)) => r == Ok(request) && rdr.Rest() == rest
      case Err(e) => r == Err(e)
  {
    hide ReadFields, ReadStatement, ReadBindTypes, ReadBinds;
    var head :- rdr.Fields(EXECUTE_SHAPES);
    var sql :- StatementText(rdr, Num(head[2]) != 0);
    var counts :- rdr.Fields(COUNT_SHAPES);
    var _ :- BindTypes(rdr, if Num(head[18]) != 0 then Num(head[19]) else 0);
    var stated := Num(head[12]);
    var types := [];
    if Num(head[11]) != 0 && stated != 0 {
      types :- Binds(rdr, stated, Num(counts[6]) == 0 && !returning);
    }
    r := Ok(Execute(Num(head[0]), Num(head[1]), sql, Num(head[9]), stated, types));
  }

  // ---------------------------------------------------------------------
  // Authentication
  // ---------------------------------------------------------------------

  /** User marker, its length, mode, pointer, number of pairs, two pointers. */
  const LOGIN_SHAPES: seq<Shape> := [AU8, AnUB(4), AnUB(4), AU8, AnUB(4), AU8, AU8]

  /** Both phases start alike: a user, if there is one, and key/value pairs. */
  function ReadLogin(s: seq<byte>): Reading<(Text, Pairs)> {
    match ReadFields(LOGIN_SHAPES, s)
    case Err(e) => Err(e)
    case Ok((head, s1)) =>
      match if Num(head[0]) != 0 && Num(head[1]) != 0 then ReadText(s1) else Ok((None, s1))
      case Err(e) => Err(e)
      case Ok((user, s2)) =>
        match ReadPairs(Num(head[4]), s2, map[])
        case Err(e) => Err(e)
        case Ok((pairs, rest)) => Ok(((user, pairs), rest))
  }

  method LoginRequest(rdr: TTCReader) returns (r: Result<(Text, Pairs), BufferError>)
    requires rdr.Valid()
    modifies rdr
    ensures rdr.Valid() && old(rdr.pos) <= rdr.pos
    ensures match ReadLogin(old(rdr.Rest()))
      case Ok((login, rest)) => r == Ok(login) && rdr.Rest() == rest
      case Err(e) => r == Err(e)
  {
    hide ReadFields, ReadText, ReadPairs;
    var head :- rdr.Fields(LOGIN_SHAPES);
    var user: Text := None;
    if Num(head[0]) != 0 && Num(head[1]) != 0 {
      user :- rdr.Str();
    }
    var pairs :- ReadKvPairs(rdr, Num(head[4]));
    r := Ok((user, pairs));
  }
}
