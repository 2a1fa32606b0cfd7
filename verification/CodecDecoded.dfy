/** Whatever was decoded can be written again. */
module CodecDecoded {
  import opened Wrappers
  import opened Wire
  import opened Ast
  import opened Codec
  import opened CodecRoundTrip

  /** No nil where `Marshal` would dereference it, and only bytes in texts. */
  predicate Writable(m: Message) {
    match m
    case TokenMessage(token) => EncodableToken(token)
    case NodeMessage(e) => Encodable(e)
    case ExpressionMessage(e) => Encodable(e)
  }

  lemma {:induction false} UnmarshalWritable(s: seq<Byte>, at: nat, m: Message)
    requires IsMessage(m) && Writable(m) && Unmarshal(s, at, m).Ok?
    ensures Writable(Unmarshal(s, at, m).value)
    decreases |s|, 1
  {
    hide Writable, UnmarshalTurn;
    if s != [] {
      TurnWritable(s, at, m);
      var (m', rest) := UnmarshalTurn(s, at, m).value;
      UnmarshalWritable(rest, at + (|s| - |rest|), m');
    }
  }

  lemma {:induction false} TurnWritable(s: seq<Byte>, at: nat, m: Message)
    requires IsMessage(m) && Writable(m) && s != [] && UnmarshalTurn(s, at, m).Ok?
    ensures Writable(UnmarshalTurn(s, at, m).value.0)
    decreases |s|, 0
  {
    hide Writable, ReadVarint, ReadField, Apply, SkipUnknownField, ToInt32;
    var (wire, rest) := ReadVarint(s, 0).value;
    var num := ToInt32(wire / 8);
    if Known(m, num) {
      var f := ReadField(m, num, wire % 8, rest, at + (|s| - |rest|)).value.0;
      ApplyWritable(m, f);
    }
  }

  lemma {:induction false} ApplyWritable(m: Message, f: Field)
    requires IsMessage(m) && Writable(m) && Fits(m, f) && Apply(m, f).Ok?
    ensures Writable(Apply(m, f).value)
    decreases if f.Record? then |f.body| else 0, 2
  {
    hide Unmarshal;
    match m
    case TokenMessage(_) =>
    case ExpressionMessage(_) =>
      UnmarshalWritable(f.body, 0, NodeMessage(ZeroNode(f.num)));
    case NodeMessage(e) =>
      if f.Record? {
        if f.num == 1 {
          UnmarshalWritable(f.body, 0, TokenMessage(TokenOf(e)));
        } else if MessageField(e, f.num).Some? {
          var target := MessageField(e, f.num).value;
          TargetWritable(e, f.num);
          UnmarshalWritable(f.body, 0, target);
          PartWritable(e, f.num, Unmarshal(f.body, 0, target).value.e);
        }
      }
  }

  lemma TargetWritable(e: Expression, num: nat)
    requires Kind(e) > 0 && Encodable(e) && MessageField(e, num).Some?
    ensures Writable(MessageField(e, num).value)
  {}

  lemma PartWritable(e: Expression, num: nat, part: Expression)
    requires Kind(e) > 0 && Encodable(e) && Encodable(part) && (e.CallExpression? && num == 2 ==> part.Ident?)
    ensures Encodable(WithPart(e, num, part))
  {
    match e
    case InfixExpression(token, left, operator, right) =>
      assert EncodableOrNil(left) && EncodableOrNil(right) && EncodableOrNil(part);
    case PrefixExpression(_, _, _) =>
      assert EncodableOrNil(part);
    case _ =>
  }

  /** The tree of any bytes that decode can be encoded, and decoding that gives the tree again. */
  lemma DecodeEncodeDecode(d: seq<Byte>)
    requires Decode(d).Ok?
    ensures Encodable(Decode(d).value)
    ensures |Encode(Decode(d).value)| < TWO63 ==> Decode(Encode(Decode(d).value)) == Decode(d)
  {
    hide Unmarshal, Encode;
    UnmarshalWritable(d, 0, ExpressionMessage(Unset));
    if |Encode(Decode(d).value)| < TWO63 {
      DecodeOfEncode(Decode(d).value);
    }
  }
}
