/** Unknown fields are transparent: however they are mixed in, at whatever depth, a message
    decodes as if they were not there. */
module CodecNoise {
  import opened Wrappers
  import opened Sequences
  import opened Wire
  import opened Skipping
  import opened Ast
  import opened Codec
  import opened CodecRoundTrip

  /** A message with noise: unknown fields, known fields, and message fields with noise inside. */
  datatype Part = Noise(u: Unknown) | Plain(f: Field) | Nested(num: nat, parts: seq<Part>)

  /** The message a record of field `num` is decoded into; none for texts. */
  function Target(m: Message, num: nat): (r: Option<Message>)
    requires IsMessage(m) && Known(m, num)
    ensures r.Some? ==> IsMessage(r.value)
  {
    match m
    case TokenMessage(_) => None
    case ExpressionMessage(_) => Some(NodeMessage(ZeroNode(num)))
    case NodeMessage(e) => if num == 1 then Some(TokenMessage(TokenOf(e))) else MessageField(e, num)
  }

  predicate GoodPart(m: Message, p: Part)
    requires IsMessage(m)
    decreases p, 0
  {
    match p
    case Noise(u) =>
      && WellFormed(u)
      && ToInt32(VarintValue(u.tag) / 8) > 0 && !Known(m, ToInt32(VarintValue(u.tag) / 8))
    case Plain(f) => Fits(m, f)
    case Nested(num, parts) =>
      && Known(m, num) && WireTypeOf(m, num) == 2
      && Target(m, num).Some? && GoodParts(Target(m, num).value, parts)
  }

  predicate GoodParts(m: Message, ps: seq<Part>)
    requires IsMessage(m)
    decreases ps, 0
  {
    forall i | 0 <= i < |ps| :: GoodPart(m, ps[i])
  }

  function PartBytes(p: Part, noisy: bool): seq<Byte>
    decreases p, 0
  {
    match p
    case Noise(u) => if noisy then UnknownBytes(u) else []
    case Plain(f) => EncodeField(f)
    case Nested(num, parts) => EncodeField(Record(num, PartsBytes(parts, noisy)))
  }

  function PartsBytes(ps: seq<Part>, noisy: bool): seq<Byte>
    decreases ps, 0
  {
    if ps == [] then [] else PartBytes(ps[0], noisy) + PartsBytes(ps[1..], noisy)
  }

  lemma {:induction false} GoodPartSameKind(m: Message, m': Message, p: Part)
    requires IsMessage(m) && IsMessage(m') && SameKind(m, m') && GoodPart(m, p)
    ensures GoodPart(m', p)
    decreases p, 0
  {
    match p
    case Nested(num, parts) =>
      GoodPartsSameKind(Target(m, num).value, Target(m', num).value, parts);
    case _ =>
  }

  lemma {:induction false} GoodPartsSameKind(m: Message, m': Message, ps: seq<Part>)
    requires IsMessage(m) && IsMessage(m') && SameKind(m, m') && GoodParts(m, ps)
    ensures GoodParts(m', ps)
    decreases ps, 0
  {
    forall i | 0 <= i < |ps|
      ensures GoodPart(m', ps[i])
    {
      GoodPartSameKind(m, m', ps[i]);
    }
  }

  lemma UnknownTurn(u: Unknown, rest: seq<Byte>, at: nat, m: Message)
    requires IsMessage(m) && GoodPart(m, Noise(u)) && at + |UnknownBytes(u)| < TWO63
    ensures UnknownBytes(u) != []
    ensures UnmarshalTurn(UnknownBytes(u) + rest, at, m) == Ok((m, rest))
  {
    hide Skip, ReadVarint, UnknownBody;
    var s := UnknownBytes(u) + rest;
    assert s == u.tag + (UnknownBody(u) + rest);
    ReadTag(u.tag, UnknownBody(u) + rest);
    SkipUnknown(u, rest, 0, 0);
    assert s[|UnknownBytes(u)|..] == rest;
    assert SkipUnknownField(s, at) == Ok(rest);
  }

  /** Storing a record depends on its bytes only through what they decode to. */
  lemma ApplyDecoded(m: Message, num: nat, a: seq<Byte>, b: seq<Byte>)
    requires IsMessage(m) && Known(m, num) && WireTypeOf(m, num) == 2 && Target(m, num).Some?
    requires Unmarshal(a, 0, Target(m, num).value) == Unmarshal(b, 0, Target(m, num).value)
    ensures Apply(m, Record(num, a)) == Apply(m, Record(num, b))
  {
    hide Unmarshal;
  }

  lemma {:induction false} NoiseIsTransparent(ps: seq<Part>, at: nat, at': nat, m: Message)
    requires IsMessage(m) && GoodParts(m, ps)
    requires at + |PartsBytes(ps, true)| < TWO63 && at' + |PartsBytes(ps, false)| < TWO63
    ensures Unmarshal(PartsBytes(ps, true), at, m) == Unmarshal(PartsBytes(ps, false), at', m)
    decreases ps, 3
  {
    if ps == [] {
      NothingDecoded(at, m);
      NothingDecoded(at', m);
    } else if ps[0].Noise? {
      NoiseFirst(ps, at, at', m);
    } else {
      KnownFirst(ps, at, at', m);
    }
  }

  lemma {:induction false} NoiseFirst(ps: seq<Part>, at: nat, at': nat, m: Message)
    requires ps != [] && ps[0].Noise?
    requires IsMessage(m) && GoodParts(m, ps)
    requires at + |PartsBytes(ps, true)| < TWO63 && at' + |PartsBytes(ps, false)| < TWO63
    ensures Unmarshal(PartsBytes(ps, true), at, m) == Unmarshal(PartsBytes(ps, false), at', m)
    decreases ps, 2
  {
    hide *;
    var u := ps[0].u;
    NoiseInFront(ps);
    GoodFirst(m, ps);
    NoiseIsTransparent(ps[1..], at + |UnknownBytes(u)|, at', m);
    NoiseStep(u, PartsBytes(ps[1..], true), at, m);
  }

  lemma GoodFirst(m: Message, ps: seq<Part>)
    requires IsMessage(m) && GoodParts(m, ps) && ps != []
    ensures GoodPart(m, ps[0]) && GoodParts(m, ps[1..])
  {
    hide GoodPart, IsMessage;
  }

  lemma NoiseInFront(ps: seq<Part>)
    requires ps != [] && ps[0].Noise?
    ensures ps[0] == Noise(ps[0].u)
    ensures PartsBytes(ps, true) == UnknownBytes(ps[0].u) + PartsBytes(ps[1..], true)
    ensures PartsBytes(ps, false) == PartsBytes(ps[1..], false)
  {
    hide UnknownBytes;
    AppendNothing(PartsBytes(ps[1..], false));
  }

  lemma {:induction false} KnownFirst(ps: seq<Part>, at: nat, at': nat, m: Message)
    requires ps != [] && !ps[0].Noise?
    requires IsMessage(m) && GoodParts(m, ps)
    requires at + |PartsBytes(ps, true)| < TWO63 && at' + |PartsBytes(ps, false)| < TWO63
    ensures Unmarshal(PartsBytes(ps, true), at, m) == Unmarshal(PartsBytes(ps, false), at', m)
    decreases ps, 2
  {
    hide Unmarshal, Apply, GoodPart, Known, EncodeField, PartBytes, IsMessage, SameKind, Fits;
    var f, g := KnownPart(ps[0], m);
    match Apply(m, f) {
      case Err(_) =>
      case Ok(m') =>
        GoodPartsSameKind(m, m', ps[1..]);
        NoiseIsTransparent(ps[1..], at + |EncodeField(f)|, at' + |EncodeField(g)|, m');
    }
    KnownStep(f, PartsBytes(ps[1..], true), at, m);
    KnownStep(g, PartsBytes(ps[1..], false), at', m);
  }

  lemma NothingDecoded(at: nat, m: Message)
    requires IsMessage(m)
    ensures Unmarshal([], at, m) == Ok(m)
  {
  }

  lemma NoiseStep(u: Unknown, rest: seq<Byte>, at: nat, m: Message)
    requires IsMessage(m) && GoodPart(m, Noise(u)) && at + |UnknownBytes(u)| < TWO63
    ensures Unmarshal(UnknownBytes(u) + rest, at, m) == Unmarshal(rest, at + |UnknownBytes(u)|, m)
  {
    hide UnmarshalTurn, GoodPart;
    UnknownTurn(u, rest, at, m);
  }

  lemma KnownStep(f: Field, rest: seq<Byte>, at: nat, m: Message)
    requires IsMessage(m) && Fits(m, f) && EncodeField(f) != [] && at + |EncodeField(f)| < TWO63
    ensures Unmarshal(EncodeField(f) + rest, at, m) ==
            match Apply(m, f)
            case Err(e) => Err(e)
            case Ok(m') => Unmarshal(rest, at + |EncodeField(f)|, m')
  {
    hide UnmarshalTurn, Apply, EncodeField;
    KnownTurn(f, rest, at, m);
  }

  /** A known part with and without noise, as fields that are stored alike. */
  lemma {:induction false} KnownPart(p: Part, m: Message) returns (f: Field, g: Field)
    requires IsMessage(m) && GoodPart(m, p) && !p.Noise?
    requires |PartBytes(p, true)| < TWO63 && |PartBytes(p, false)| < TWO63
    ensures Fits(m, f) && PartBytes(p, true) == EncodeField(f)
    ensures Fits(m, g) && PartBytes(p, false) == EncodeField(g)
    ensures EncodeField(f) != [] && EncodeField(g) != []
    ensures Apply(m, f) == Apply(m, g)
    decreases p, 0
  {
    hide Apply;
    match p
    case Plain(field) => f, g := field, field;
    case Nested(num, parts) =>
      f, g := Record(num, PartsBytes(parts, true)), Record(num, PartsBytes(parts, false));
      FieldSizes(f);
      FieldSizes(g);
      NoiseIsTransparent(parts, 0, 0, Target(m, num).value);
      ApplyDecoded(m, num, f.body, g.body);
  }

  /** Whatever noise is added to the bytes of a tree, the tree comes back. */
  lemma NoisyRoundTrip(e: Expression, ps: seq<Part>)
    requires Encodable(e) && GoodParts(ExpressionMessage(Unset), ps) && PartsBytes(ps, false) == Encode(e)
    requires |Encode(e)| < TWO63 && |PartsBytes(ps, true)| < TWO63
    ensures Decode(PartsBytes(ps, true)) == Ok(e)
  {
    hide Unmarshal;
    NoiseIsTransparent(ps, 0, 0, ExpressionMessage(Unset));
    DecodeOfEncode(e);
  }

  /** Decoding is incremental: the fields of `b` are added to what `a` decoded to. */
  lemma {:induction false} UnmarshalConcat(a: seq<Byte>, b: seq<Byte>, at: nat, m: Message)
    requires IsMessage(m) && Unmarshal(a, at, m).Ok?
    ensures Unmarshal(a + b, at, m) == Unmarshal(b, at + |a|, Unmarshal(a, at, m).value)
    decreases |a|
  {
    hide UnmarshalTurn;
    if a == [] {
      assert a + b == b;
    } else {
      TurnExtends(a, at, m, b);
      var (m', rest) := UnmarshalTurn(a, at, m).value;
      UnmarshalConcat(rest, b, at + (|a| - |rest|), m');
    }
  }

  lemma TurnExtends(s: seq<Byte>, at: nat, m: Message, more: seq<Byte>)
    requires IsMessage(m) && s != [] && UnmarshalTurn(s, at, m).Ok?
    ensures UnmarshalTurn(s + more, at, m)
         == Ok((UnmarshalTurn(s, at, m).value.0, UnmarshalTurn(s, at, m).value.1 + more))
  {
    hide ReadVarint, ReadField, Skip, Apply;
    ReadVarintExtends(s, 0, more);
    var (wire, rest) := ReadVarint(s, 0).value;
    var num := ToInt32(wire / 8);
    if Known(m, num) {
      ReadFieldExtends(m, num, wire % 8, rest, at + (|s| - |rest|), more);
    } else {
      SkipExtends(s, 0, 0, more);
      var n := Skip(s, 0, 0).value;
      assert (s + more)[n..] == s[n..] + more;
      assert SkipUnknownField(s + more, at) == Ok(s[n..] + more);
    }
  }

  lemma ReadFieldExtends(m: Message, num: nat, wireType: nat, s: seq<Byte>, at: nat, more: seq<Byte>)
    requires Known(m, num) && ReadField(m, num, wireType, s, at).Ok?
    ensures ReadField(m, num, wireType, s + more, at)
         == Ok((ReadField(m, num, wireType, s, at).value.0, ReadField(m, num, wireType, s, at).value.1 + more))
  {
    hide ReadVarint;
    ReadVarintExtends(s, 0, more);
    if wireType != 0 {
      var (length, rest) := ReadVarint(s, 0).value;
      var n := ToInt64(length);
      assert (rest + more)[..n] == rest[..n] && (rest + more)[n..] == rest[n..] + more;
    }
  }
}
