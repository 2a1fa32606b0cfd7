/** Skipping unknown fields, nested groups included (`skipAst` and `skipToken`). */
module Skipping {
  import opened Wire

  /** The bytes of a field behind its tag; none for the tags that open and close a group. */
  function BodyLength(s: seq<Byte>, wireType: nat): Result<nat> {
    if wireType == 0 then
      var (_, rest) :- ReadVarint(s, 0);
      Ok(|s| - |rest|)
    else if wireType == 1 then Ok(8)
    else if wireType == 2 then
      var (length, rest) :- ReadVarint(s, 0);
      if ToInt64(length) < 0 then Err(InvalidLength) else Ok(|s| - |rest| + ToInt64(length))
    else if wireType == 3 || wireType == 4 then Ok(0)
    else if wireType == 5 then Ok(4)
    else Err(IllegalWireType)
  }

  /** What one turn of the loop leads to: the end of the field, or more of its bytes. */
  datatype Turn = Done(end: nat) | More(rest: seq<Byte>, at: nat, depth: nat)

  /** Inside `depth` open groups and `at` bytes into the field. The end may lie behind the end
      of the bytes; an index of 2^63 or more is negative in Go. */
  function SkipTurn(s: seq<Byte>, at: nat, depth: nat): (r: Result<Turn>)
    ensures r.Ok? && r.value.Done? ==> at < r.value.end < TWO63
    ensures r.Ok? && r.value.More? ==> |r.value.rest| < |s| && at < r.value.at
  {
    if s == [] then Err(UnexpectedEOF)
    else
      var (wire, rest) :- ReadVarint(s, 0);
      if wire % 8 == 4 && depth == 0 then Err(UnexpectedEndOfGroup)
      else
        var length :- BodyLength(rest, wire % 8);
        TurnAfter(rest, at + (|s| - |rest|), length, DepthAfter(depth, wire % 8))
  }

  /** Move over `length` bytes and look at the depth. */
  function TurnAfter(rest: seq<Byte>, at: nat, length: nat, depth: nat): Result<Turn> {
    if at + length >= TWO63 then Err(InvalidLength)
    else if depth == 0 then Ok(Done(at + length))
    else if length > |rest| then Err(UnexpectedEOF)
    else Ok(More(rest[length..], at + length, depth))
  }

  function Skip(s: seq<Byte>, at: nat, depth: nat): (r: Result<nat>)
    ensures r.Ok? ==> at < r.value < TWO63
    decreases |s|
  {
    match SkipTurn(s, at, depth)
    case Err(e) => Err(e)
    case Ok(Done(end)) => Ok(end)
    case Ok(More(rest, at', depth')) => Skip(rest, at', depth')
  }

  function DepthAfter(depth: nat, wireType: nat): nat {
    if wireType == 3 then depth + 1 else if wireType == 4 && depth > 0 then depth - 1 else depth
  }

  /** The generated loop. */
  method SkipField(d: seq<Byte>) returns (r: Result<nat>)
    requires |d| < TWO63
    ensures r == Skip(d, 0, 0)
  {
    hide SkipTurn;
    var iNdEx, depth := 0, 0;
    assert d[0..] == d;
    while iNdEx < |d|
      invariant iNdEx <= |d| ==> Skip(d, 0, 0) == Skip(d[iNdEx..], iNdEx, depth)
      invariant iNdEx > |d| ==> Skip(d, 0, 0) == Err(UnexpectedEOF)
      decreases |d| - iNdEx
    {
      var end;
      end, depth := SkipOne(d, iNdEx, depth);
      if end.Err? {
        return Err(end.error);
      }
      if depth == 0 {
        return end;
      }
      iNdEx := end.value;
    }
    assert SkipTurn([], iNdEx, depth) == Err(UnexpectedEOF) by {
      SkipTurnOfNothing(iNdEx, depth);
    }
    assert iNdEx == |d| ==> d[iNdEx..] == [];
    return Err(UnexpectedEOF);
  }

  lemma SkipTurnOfNothing(at: nat, depth: nat)
    ensures SkipTurn([], at, depth) == Err(UnexpectedEOF)
  {
  }

  /** The body of the loop: the index behind the next tag and what belongs to it, and the depth
      there. `iNdEx` is a 64-bit integer: `Add64` wraps around. */
  method SkipOne(d: seq<Byte>, i: nat, depth0: nat) returns (end: Result<nat>, depth: nat)
    requires i < |d| < TWO63
    ensures match end
            case Err(e) => SkipTurn(d[i..], i, depth0) == Err(e)
            case Ok(iNdEx) =>
              && i < iNdEx
              && SkipTurn(d[i..], i, depth0) == if depth == 0 then Ok(Done(iNdEx))
                                                else if iNdEx > |d| then Err(UnexpectedEOF)
                                                else Ok(More(d[iNdEx..], iNdEx, depth))
  {
    hide ReadVarint, BodyLength;
    depth := depth0;
    var wire, next := DecodeVarint(d, i);
    if wire.Err? {
      return Err(wire.error), depth;
    }
    var wireType := wire.value % 8;
    if wireType == 4 && depth == 0 {
      return Err(UnexpectedEndOfGroup), depth;
    }
    var length := MeasureBody(d, next, wireType);
    if length.Err? {
      return Err(length.error), depth;
    }
    depth := DepthAfter(depth, wireType);
    assert |d[i..]| - |d[next..]| == next - i;
    assert SkipTurn(d[i..], i, depth0) == TurnAfter(d[next..], next, length.value, depth);
    var iNdEx := Add64(next, length.value);
    if iNdEx < 0 {
      return Err(InvalidLength), depth;
    }
    assert length.value <= |d[next..]| ==> d[next..][length.value..] == d[iNdEx..];
    return Ok(iNdEx), depth;
  }

  /** Go's `int` addition of two non-negative numbers. */
  function Add64(a: int, b: int): int
    requires 0 <= a < TWO63 && 0 <= b < 2 * TWO63 - a
  {
    if a + b < TWO63 then a + b else a + b - TWO64
  }

  method MeasureBody(d: seq<Byte>, i: nat, wireType: nat) returns (length: Result<nat>)
    requires i <= |d| < TWO63
    ensures length == BodyLength(d[i..], wireType)
    ensures length.Ok? ==> i + length.value < 2 * TWO63
  {
    match wireType {
      case 0 =>
        var v, next := DecodeVarint(d, i);
        return if v.Err? then Err(v.error) else Ok(next - i);
      case 1 => return Ok(8);
      case 2 =>
        var v, next := DecodeVarint(d, i);
        if v.Err? {
          return Err(v.error);
        }
        if ToInt64(v.value) < 0 {
          return Err(InvalidLength);
        }
        return Ok(next - i + ToInt64(v.value));
      case 3 => return Ok(0);
      case 4 => return Ok(0);
      case 5 => return Ok(4);
      case _ => return Err(IllegalWireType);
    }
  }

  // ----- Unknown fields -----

  /** A well-formed field by its wire type; tags and lengths are varints as they were written,
      which need not be the shortest ones. */
  datatype Unknown =
    | VarintField(tag: seq<Byte>, varint: seq<Byte>)
    | Fixed64(tag: seq<Byte>, bytes: seq<Byte>)
    | Delimited(tag: seq<Byte>, length: seq<Byte>, bytes: seq<Byte>)
    | Group(tag: seq<Byte>, fields: seq<Unknown>, end: seq<Byte>)
    | Fixed32(tag: seq<Byte>, bytes: seq<Byte>)

  predicate IsVarint(s: seq<Byte>) { ReadVarint(s, 0).Ok? && ReadVarint(s, 0).value.1 == [] }

  function VarintValue(s: seq<Byte>): U64
    requires IsVarint(s)
  {
    ReadVarint(s, 0).value.0
  }

  predicate IsTag(s: seq<Byte>, wireType: nat) { IsVarint(s) && VarintValue(s) % 8 == wireType }

  function WireType(u: Unknown): nat {
    match u
    case VarintField(_, _) => 0
    case Fixed64(_, _) => 1
    case Delimited(_, _, _) => 2
    case Group(_, _, _) => 3
    case Fixed32(_, _) => 5
  }

  predicate WellFormed(u: Unknown) {
    && IsTag(u.tag, WireType(u))
    && match u
       case VarintField(_, varint) => IsVarint(varint)
       case Fixed64(_, bytes) => |bytes| == 8
       case Delimited(_, length, bytes) => IsVarint(length) && VarintValue(length) == |bytes|
       case Group(_, fields, end) => IsTag(end, 4) && AllWellFormed(fields)
       case Fixed32(_, bytes) => |bytes| == 4
  }

  predicate AllWellFormed(us: seq<Unknown>) { forall i | 0 <= i < |us| :: WellFormed(us[i]) }

  function UnknownBytes(u: Unknown): seq<Byte>
    decreases u, 1
  {
    u.tag + UnknownBody(u)
  }

  function UnknownBody(u: Unknown): seq<Byte>
    decreases u, 0
  {
    match u
    case VarintField(_, varint) => varint
    case Fixed64(_, bytes) => bytes
    case Delimited(_, length, bytes) => length + bytes
    case Group(_, fields, end) => UnknownAll(fields) + end
    case Fixed32(_, bytes) => bytes
  }

  function UnknownAll(us: seq<Unknown>): seq<Byte>
    decreases us, 0
  {
    if us == [] then [] else UnknownBytes(us[0]) + UnknownAll(us[1..])
  }

  lemma ReadTag(tag: seq<Byte>, rest: seq<Byte>)
    requires IsVarint(tag)
    ensures tag != [] && ReadVarint(tag + rest, 0) == Ok((VarintValue(tag), rest))
  {
    ReadVarintExtends(tag, 0, rest);
    assert [] + rest == rest;
  }

  lemma TurnOver(tag: seq<Byte>, wireType: nat, rest: seq<Byte>, at: nat, depth: nat, length: nat)
    requires IsTag(tag, wireType) && (wireType == 4 ==> depth > 0) && BodyLength(rest, wireType) == Ok(length)
    ensures SkipTurn(tag + rest, at, depth) == TurnAfter(rest, at + |tag|, length, DepthAfter(depth, wireType))
  {
    hide ReadVarint, BodyLength;
    ReadTag(tag, rest);
  }

  lemma BodyOfUnknown(u: Unknown, rest: seq<Byte>)
    requires WellFormed(u) && !u.Group? && |UnknownBody(u)| < TWO63
    ensures BodyLength(UnknownBody(u) + rest, WireType(u)) == Ok(|UnknownBody(u)|)
  {
    hide ReadVarint;
    match u
    case VarintField(_, varint) =>
      ReadTag(varint, rest);
    case Delimited(_, length, bytes) =>
      ReadTag(length, bytes + rest);
      assert UnknownBody(u) + rest == length + (bytes + rest);
    case _ =>
  }

  /** Skipping consumes exactly the field, in and outside of groups. */
  lemma {:induction false} SkipUnknown(u: Unknown, rest: seq<Byte>, at: nat, depth: nat)
    requires WellFormed(u) && at + |UnknownBytes(u)| < TWO63
    ensures Skip(UnknownBytes(u) + rest, at, depth)
         == if depth == 0 then Ok(at + |UnknownBytes(u)|) else Skip(rest, at + |UnknownBytes(u)|, depth)
    decreases u, 1
  {
    hide SkipTurn, ReadVarint, BodyLength;
    var body := UnknownBody(u) + rest;
    assert UnknownBytes(u) + rest == u.tag + body;
    if u.Group? {
      SkipGroup(u, rest, at, depth);
    } else {
      BodyOfUnknown(u, rest);
      TurnOver(u.tag, WireType(u), body, at, depth, |UnknownBody(u)|);
      assert body[|UnknownBody(u)|..] == rest;
    }
  }

  lemma {:induction false} SkipGroup(u: Unknown, rest: seq<Byte>, at: nat, depth: nat)
    requires WellFormed(u) && u.Group? && at + |UnknownBytes(u)| < TWO63
    ensures Skip(u.tag + (UnknownBody(u) + rest), at, depth)
         == if depth == 0 then Ok(at + |UnknownBytes(u)|) else Skip(rest, at + |UnknownBytes(u)|, depth)
    decreases u, 0
  {
    hide SkipTurn, ReadVarint, WellFormed;
    var inner := UnknownAll(u.fields) + (u.end + rest);
    var behind := at + |u.tag| + |UnknownAll(u.fields)|;
    assert UnknownBody(u) + rest == inner && inner[0..] == inner && rest[0..] == rest;
    GroupParts(u);
    TurnOver(u.tag, 3, inner, at, depth, 0);
    SkipUnknownAll(u.fields, u.end + rest, at + |u.tag|, depth + 1);
    TurnOver(u.end, 4, rest, behind, depth + 1, 0);
  }

  lemma GroupParts(u: Unknown)
    requires WellFormed(u) && u.Group?
    ensures IsTag(u.tag, 3) && IsTag(u.end, 4) && AllWellFormed(u.fields)
  {
  }

  lemma {:induction false} SkipUnknownAll(us: seq<Unknown>, rest: seq<Byte>, at: nat, depth: nat)
    requires AllWellFormed(us) && at + |UnknownAll(us)| < TWO63 && depth > 0
    ensures Skip(UnknownAll(us) + rest, at, depth) == Skip(rest, at + |UnknownAll(us)|, depth)
    decreases us, 0
  {
    hide Skip;
    if us == [] {
      assert [] + rest == rest;
    } else {
      var tail := UnknownAll(us[1..]) + rest;
      assert UnknownAll(us) + rest == UnknownBytes(us[0]) + tail;
      SkipUnknown(us[0], tail, at, depth);
      SkipUnknownAll(us[1..], rest, at + |UnknownBytes(us[0])|, depth);
    }
  }

  /** Skipping does not look behind the field. */
  lemma {:induction false} SkipExtends(s: seq<Byte>, at: nat, depth: nat, more: seq<Byte>)
    requires Skip(s, at, depth).Ok? && Skip(s, at, depth).value <= at + |s|
    ensures Skip(s + more, at, depth) == Skip(s, at, depth)
    decreases |s|
  {
    hide SkipTurn;
    TurnExtends(s, at, depth, more);
    match SkipTurn(s, at, depth)
    case Ok(More(rest, at', depth')) => SkipExtends(rest, at', depth', more);
    case _ =>
  }

  lemma TurnExtends(s: seq<Byte>, at: nat, depth: nat, more: seq<Byte>)
    requires SkipTurn(s, at, depth).Ok?
    ensures match SkipTurn(s, at, depth).value
            case Done(end) => SkipTurn(s + more, at, depth) == Ok(Done(end))
            case More(rest, at', depth') =>
              && SkipTurn(s + more, at, depth) == Ok(More(rest + more, at', depth'))
              && at' + |rest| == at + |s|
  {
    hide ReadVarint, BodyLength;
    ReadVarintExtends(s, 0, more);
    var (wire, rest) := ReadVarint(s, 0).value;
    BodyLengthExtends(rest, wire % 8, more);
    var length := BodyLength(rest, wire % 8).value;
    assert length <= |rest| ==> (rest + more)[length..] == rest[length..] + more;
  }

  lemma BodyLengthExtends(s: seq<Byte>, wireType: nat, more: seq<Byte>)
    requires BodyLength(s, wireType).Ok?
    ensures BodyLength(s + more, wireType) == BodyLength(s, wireType)
  {
    if wireType == 0 || wireType == 2 {
      ReadVarintExtends(s, 0, more);
    }
  }
}
