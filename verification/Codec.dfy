/** The AST messages on the wire. The ten generated `Unmarshal` methods share one loop and
    differ in the switch over the field number; `Apply` is that switch. */
module Codec {
  import opened Wrappers
  import opened Wire
  import opened Skipping
  import opened Tokens
  import opened Ast

  /** The messages: a token, what an oneof of `Expression` holds (named by its constructor; an
      identifier is also the callee of a call), or an expression around it. */
  datatype Message = TokenMessage(token: Token) | NodeMessage(e: Expression) | ExpressionMessage(e: Expression)

  /** A known field: a number, or a length-delimited record. */
  datatype Field = Number(num: nat, v: U64) | Record(num: nat, body: seq<Byte>)

  // ----- Text -----

  predicate IsBytes(s: string) { forall i | 0 <= i < |s| :: s[i] as int < 0x100 }

  function BytesOf(s: string): seq<Byte>
    requires IsBytes(s)
  {
    seq(|s|, i requires 0 <= i < |s| => s[i] as int)
  }

  function StringOf(b: seq<Byte>): (s: string)
    ensures IsBytes(s)
  {
    seq(|b|, i requires 0 <= i < |b| => b[i] as char)
  }

  lemma StringOfBytes(s: string)
    requires IsBytes(s)
    ensures StringOf(BytesOf(s)) == s
  {
  }

  // ----- Messages as field lists -----

  const ZERO_TOKEN := Token(ILLEGAL, "")

  /** The number of the oneof field that holds the node; 0 for what is no node. */
  function Kind(e: Expression): nat {
    match e
    case NilExpr => 0
    case Unset => 0
    case Ident(_) => 1
    case IntegerLiteral(_, _) => 2
    case BooleanLiteral(_, _) => 3
    case StringLiteral(_, _) => 4
    case ArrayLiteral(_, _) => 5
    case CallExpression(_, _, _) => 6
    case InfixExpression(_, _, _, _) => 7
    case PrefixExpression(_, _, _) => 8
  }

  /** The freshly allocated message of oneof field `kind`. */
  function ZeroNode(kind: nat): (e: Expression)
    requires 1 <= kind <= 8
    ensures Kind(e) == kind
  {
    if kind == 1 then Ident(Identifier(ZERO_TOKEN, ""))
    else if kind == 2 then IntegerLiteral(ZERO_TOKEN, "")
    else if kind == 3 then BooleanLiteral(ZERO_TOKEN, false)
    else if kind == 4 then StringLiteral(ZERO_TOKEN, "")
    else if kind == 5 then ArrayLiteral(ZERO_TOKEN, [])
    else if kind == 6 then CallExpression(ZERO_TOKEN, None, [])
    else if kind == 7 then InfixExpression(ZERO_TOKEN, NilExpr, "", NilExpr)
    else PrefixExpression(ZERO_TOKEN, "", NilExpr)
  }

  /** Go writes every tree without nil list elements; a nil operand or callee is left out. */
  predicate Encodable(e: Expression)
    decreases e, 0
  {
    match e
    case NilExpr => false
    case Unset => true
    case Ident(ident) => EncodableToken(ident.token) && IsBytes(ident.value)
    case IntegerLiteral(token, value) => EncodableToken(token) && IsBytes(value)
    case BooleanLiteral(token, _) => EncodableToken(token)
    case StringLiteral(token, value) => EncodableToken(token) && IsBytes(value)
    case ArrayLiteral(token, elements) => EncodableToken(token) && AllEncodable(elements)
    case CallExpression(token, callee, arguments) =>
      && EncodableToken(token) && AllEncodable(arguments)
      && (callee.Some? ==> EncodableToken(callee.value.token) && IsBytes(callee.value.value))
    case InfixExpression(token, left, operator, right) =>
      EncodableToken(token) && EncodableOrNil(left) && IsBytes(operator) && EncodableOrNil(right)
    case PrefixExpression(token, operator, right) =>
      EncodableToken(token) && IsBytes(operator) && EncodableOrNil(right)
  }

  predicate AllEncodable(es: seq<Expression>) { forall i | 0 <= i < |es| :: Encodable(es[i]) }

  predicate EncodableOrNil(e: Expression)
    decreases e, 1
  {
    e.NilExpr? || Encodable(e)
  }

  predicate EncodableToken(t: Token) { IsBytes(t.literal) }

  function TextField(num: nat, s: string): seq<Field>
    requires IsBytes(s)
  {
    if s == "" then [] else [Record(num, BytesOf(s))]
  }

  function TokenFields(t: Token): seq<Field>
    requires EncodableToken(t)
  {
    (if t.kind != 0 then [Number(1, FromInt32(t.kind))] else []) + TextField(2, t.literal)
  }

  function NameFields(ident: Identifier): seq<Field>
    requires EncodableToken(ident.token) && IsBytes(ident.value)
  {
    [Record(1, EncodeFields(TokenFields(ident.token)))] + TextField(2, ident.value)
  }

  /** The fields of the node in the order of their numbers, as `MarshalToSizedBuffer` leaves them. */
  function NodeFields(e: Expression): seq<Field>
    requires Encodable(e) && Kind(e) > 0
    decreases e, 0
  {
    match e
    case Ident(ident) => NameFields(ident)
    case IntegerLiteral(token, value) => [TokenField(token)] + TextField(2, value)
    case BooleanLiteral(token, truth) => [TokenField(token)] + if truth then [Number(2, 1)] else []
    case StringLiteral(token, value) => [TokenField(token)] + TextField(2, value)
    case ArrayLiteral(token, elements) => [TokenField(token)] + ListFields(2, elements)
    case CallExpression(token, callee, arguments) =>
      [TokenField(token)] + CalleeField(callee) + ListFields(3, arguments)
    case InfixExpression(token, left, operator, right) =>
      [TokenField(token)] + OperandField(2, left) + TextField(3, operator) + OperandField(4, right)
    case PrefixExpression(token, operator, right) =>
      [TokenField(token)] + TextField(2, operator) + OperandField(3, right)
  }

  function TokenField(t: Token): Field
    requires EncodableToken(t)
  {
    Record(1, EncodeFields(TokenFields(t)))
  }

  function CalleeField(callee: Option<Identifier>): seq<Field>
    requires callee.Some? ==> EncodableToken(callee.value.token) && IsBytes(callee.value.value)
  {
    if callee.None? then [] else [Record(2, EncodeFields(NameFields(callee.value)))]
  }

  function OperandField(num: nat, e: Expression): seq<Field>
    requires EncodableOrNil(e)
    decreases e, 3
  {
    if e.NilExpr? then [] else [Record(num, Encode(e))]
  }

  function ListFields(num: nat, es: seq<Expression>): seq<Field>
    requires AllEncodable(es)
    decreases es, 0
  {
    if es == [] then [] else [Record(num, Encode(es[0]))] + ListFields(num, es[1..])
  }

  function ExpressionFields(e: Expression): seq<Field>
    requires Encodable(e)
    decreases e, 1
  {
    if e.Unset? then [] else [Record(Kind(e), EncodeFields(NodeFields(e)))]
  }

  // ----- Encoding -----

  /** Field numbers are below 16, so a tag is one byte. */
  function Tag(f: Field): Byte
    requires f.num < 16
  {
    8 * f.num + if f.Number? then 0 else 2
  }

  function FieldBody(f: Field): seq<Byte> {
    match f
    case Number(_, v) => Varint(v)
    case Record(_, body) => Varint(|body|) + body
  }

  function EncodeField(f: Field): seq<Byte> { if f.num < 16 then [Tag(f)] + FieldBody(f) else [] }

  function EncodeFields(fs: seq<Field>): seq<Byte> {
    if fs == [] then [] else EncodeField(fs[0]) + EncodeFields(fs[1..])
  }

  /** What `Marshal` returns. */
  function Encode(e: Expression): seq<Byte>
    requires Encodable(e)
    decreases e, 2
  {
    EncodeFields(ExpressionFields(e))
  }

  // ----- Decoding -----

  function FieldCount(m: Message): nat {
    match m
    case TokenMessage(_) => 2
    case ExpressionMessage(_) => 8
    case NodeMessage(e) => if e.CallExpression? || e.PrefixExpression? then 3 else if e.InfixExpression? then 4 else 2
  }

  predicate Known(m: Message, num: int) { 1 <= num <= FieldCount(m) }

  function WireTypeOf(m: Message, num: int): nat {
    if (m.TokenMessage? && num == 1) || (m.NodeMessage? && m.e.BooleanLiteral? && num == 2) then 0 else 2
  }

  predicate Fits(m: Message, f: Field) {
    Known(m, f.num) && (f.Number? <==> WireTypeOf(m, f.num) == 0)
  }

  predicate IsMessage(m: Message) { m.NodeMessage? ==> Kind(m.e) > 0 }

  /** Decoding fills a message in; it does not change what it is. */
  predicate SameKind(a: Message, b: Message) {
    match (a, b)
    case (TokenMessage(_), TokenMessage(_)) => true
    case (ExpressionMessage(x), ExpressionMessage(y)) => !x.NilExpr? ==> !y.NilExpr?
    case (NodeMessage(x), NodeMessage(y)) => Kind(x) == Kind(y)
    case _ => false
  }

  /** A length-delimited record behind its tag, at index `at` of the message. */
  function ReadRecord(s: seq<Byte>, at: nat): (r: Result<(seq<Byte>, seq<Byte>)>)
    ensures r.Ok? ==> |r.value.0| + |r.value.1| < |s|
  {
    var (length, rest) :- ReadVarint(s, 0);
    var n := ToInt64(length);
    if n < 0 || at + (|s| - |rest|) + n >= TWO63 then Err(InvalidLength)
    else if n > |rest| then Err(UnexpectedEOF)
    else Ok((rest[..n], rest[n..]))
  }

  /** A known field behind its tag, whose wire type must be the declared one. */
  function ReadField(m: Message, num: nat, wireType: nat, s: seq<Byte>, at: nat): (r: Result<(Field, seq<Byte>)>)
    requires Known(m, num)
    ensures r.Ok? ==>
              && Fits(m, r.value.0) && r.value.0.num == num && |r.value.1| < |s|
              && (r.value.0.Record? ==> |r.value.0.body| < |s|)
  {
    if wireType != WireTypeOf(m, num) then Err(WrongWireType)
    else if wireType == 0 then
      var (v, rest) :- ReadVarint(s, 0);
      Ok((Number(num, v), rest))
    else
      var (body, rest) :- ReadRecord(s, at);
      Ok((Record(num, body), rest))
  }

  /** One turn of the loop: a tag, and the field behind it stored or skipped. */
  function UnmarshalTurn(s: seq<Byte>, at: nat, m: Message): (r: Result<(Message, seq<Byte>)>)
    requires IsMessage(m) && s != []
    ensures r.Ok? ==> IsMessage(r.value.0) && SameKind(m, r.value.0) && |r.value.1| < |s|
    decreases |s|, 0
  {
    var (wire, rest) :- ReadVarint(s, 0);
    var num := ToInt32(wire / 8);
    if wire % 8 == 4 then Err(EndGroup)
    else if num <= 0 then Err(IllegalTag)
    else if Known(m, num) then
      var (f, rest') :- ReadField(m, num, wire % 8, rest, at + (|s| - |rest|));
      var m' :- Apply(m, f);
      Ok((m', rest'))
    else
      var rest' :- SkipUnknownField(s, at);
      Ok((m, rest'))
  }

  /** The default branch: go back to the tag and skip the field with it. */
  function SkipUnknownField(s: seq<Byte>, at: nat): (r: Result<seq<Byte>>)
    ensures r.Ok? ==> |r.value| < |s|
  {
    var n :- Skip(s, 0, 0);
    if at + n >= TWO63 then Err(InvalidLength)
    else if n > |s| then Err(UnexpectedEOF)
    else Ok(s[n..])
  }

  /** The bytes of `s`, from index `at` of the message on, added to what `m` holds already. */
  function Unmarshal(s: seq<Byte>, at: nat, m: Message): (r: Result<Message>)
    requires IsMessage(m)
    ensures r.Ok? ==> IsMessage(r.value) && SameKind(m, r.value)
    decreases |s|, 1
  {
    if s == [] then Ok(m)
    else
      var (m', rest) :- UnmarshalTurn(s, at, m);
      Unmarshal(rest, at + (|s| - |rest|), m')
  }

  /** Stores a field in the message. A record of a oneof is decoded into a new message that
      replaces the old one, a list element into a new last element, any other message field
      into the one that is there. */
  function Apply(m: Message, f: Field): (r: Result<Message>)
    requires IsMessage(m) && Fits(m, f)
    ensures r.Ok? ==> IsMessage(r.value) && SameKind(m, r.value)
    decreases if f.Record? then |f.body| else 0, 2
  {
    match m
    case TokenMessage(t) =>
      if f.Number? then Ok(TokenMessage(t.(kind := ToInt32(f.v))))
      else Ok(TokenMessage(t.(literal := StringOf(f.body))))
    case ExpressionMessage(_) =>
      var node :- Unmarshal(f.body, 0, NodeMessage(ZeroNode(f.num)));
      Ok(ExpressionMessage(node.e))
    case NodeMessage(e) =>
      if f.Number? then Ok(NodeMessage(e.(truth := f.v != 0)))
      else if f.num == 1 then
        var t :- Unmarshal(f.body, 0, TokenMessage(TokenOf(e)));
        Ok(NodeMessage(WithToken(e, t.token)))
      else match MessageField(e, f.num)
        case None => Ok(NodeMessage(WithText(e, StringOf(f.body))))
        case Some(target) =>
          var part :- Unmarshal(f.body, 0, target);
          Ok(NodeMessage(WithPart(e, f.num, part.e)))
  }

  function TokenOf(e: Expression): Token
    requires Kind(e) > 0
  {
    if e.Ident? then e.ident.token else e.token
  }

  function WithToken(e: Expression, t: Token): (r: Expression)
    requires Kind(e) > 0
    ensures Kind(r) == Kind(e)
  {
    match e
    case Ident(ident) => Ident(ident.(token := t))
    case IntegerLiteral(_, value) => IntegerLiteral(t, value)
    case BooleanLiteral(_, truth) => BooleanLiteral(t, truth)
    case StringLiteral(_, value) => StringLiteral(t, value)
    case ArrayLiteral(_, elements) => ArrayLiteral(t, elements)
    case CallExpression(_, callee, arguments) => CallExpression(t, callee, arguments)
    case InfixExpression(_, left, operator, right) => InfixExpression(t, left, operator, right)
    case PrefixExpression(_, operator, right) => PrefixExpression(t, operator, right)
  }

  /** The only text field of the node. */
  function WithText(e: Expression, s: string): (r: Expression)
    requires Kind(e) > 0
    ensures Kind(r) == Kind(e)
  {
    match e
    case Ident(ident) => Ident(ident.(value := s))
    case IntegerLiteral(token, _) => IntegerLiteral(token, s)
    case StringLiteral(token, _) => StringLiteral(token, s)
    case InfixExpression(token, left, _, right) => InfixExpression(token, left, s, right)
    case PrefixExpression(token, _, right) => PrefixExpression(token, s, right)
    case _ => e
  }

  /** What the message field `num` of the node is decoded into; none for a text field. */
  function MessageField(e: Expression, num: nat): (r: Option<Message>)
    requires Kind(e) > 0
    ensures r.Some? ==> IsMessage(r.value) && !r.value.TokenMessage?
    ensures r.Some? && e.CallExpression? && num == 2 ==> r.value.NodeMessage? && r.value.e.Ident?
  {
    match e
    case ArrayLiteral(_, _) => Some(ExpressionMessage(Unset))
    case CallExpression(_, callee, _) =>
      if num == 2 then Some(NodeMessage(if callee.Some? then Ident(callee.value) else ZeroNode(1)))
      else Some(ExpressionMessage(Unset))
    case InfixExpression(_, left, _, right) =>
      if num == 2 then Some(ExpressionMessage(OrNew(left)))
      else if num == 4 then Some(ExpressionMessage(OrNew(right)))
      else None
    case PrefixExpression(_, _, right) => if num == 3 then Some(ExpressionMessage(OrNew(right))) else None
    case _ => None
  }

  /** `if m.Left == nil { m.Left = &Expression{} }` */
  function OrNew(e: Expression): Expression { if e.NilExpr? then Unset else e }

  function WithPart(e: Expression, num: nat, part: Expression): (r: Expression)
    requires Kind(e) > 0 && (e.CallExpression? && num == 2 ==> part.Ident?)
    ensures Kind(r) == Kind(e)
  {
    match e
    case ArrayLiteral(token, elements) => ArrayLiteral(token, elements + [part])
    case CallExpression(token, callee, arguments) =>
      if num == 2 then CallExpression(token, Some(part.ident), arguments)
      else CallExpression(token, callee, arguments + [part])
    case InfixExpression(token, left, operator, right) =>
      if num == 2 then InfixExpression(token, part, operator, right)
      else InfixExpression(token, left, operator, part)
    case PrefixExpression(token, operator, _) => PrefixExpression(token, operator, part)
    case _ => e
  }

  /** `new(Expression).Unmarshal(d)`. */
  function Decode(d: seq<Byte>): Result<Expression> {
    var m :- Unmarshal(d, 0, ExpressionMessage(Unset));
    Ok(m.e)
  }
}
