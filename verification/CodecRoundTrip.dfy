/** Decoding undoes encoding, for every message and through every level of nesting. */
module CodecRoundTrip {
  import opened Wrappers
  import opened Wire
  import opened Skipping
  import opened Tokens
  import opened Ast
  import opened Codec

  /** All fields applied in order. */
  function ApplyAll(m: Message, fs: seq<Field>): (r: Result<Message>)
    requires IsMessage(m) && AllFit(m, fs)
    ensures r.Ok? ==> IsMessage(r.value) && SameKind(m, r.value)
    decreases |fs|
  {
    if fs == [] then Ok(m)
    else
      var m' :- Apply(m, fs[0]);
      FitsSameKind(m, m', fs[1..]);
      ApplyAll(m', fs[1..])
  }

  predicate AllFit(m: Message, fs: seq<Field>) { forall i | 0 <= i < |fs| :: Fits(m, fs[i]) }

  lemma FitsSameKind(m: Message, m': Message, fs: seq<Field>)
    requires SameKind(m, m') && AllFit(m, fs)
    ensures AllFit(m', fs)
  {
  }

  lemma FieldSizes(f: Field)
    requires f.num < 16 && |EncodeField(f)| < TWO63
    ensures f.Record? ==> |f.body| < |EncodeField(f)|
  {
  }

  /** The tag of a known field, read back. */
  lemma ReadTagByte(f: Field, rest: seq<Byte>)
    requires 0 < f.num < 16
    ensures ReadVarint([Tag(f)] + rest, 0) == Ok((Tag(f), rest))
    ensures ToInt32(Tag(f) / 8) == f.num && Tag(f) % 8 == if f.Number? then 0 else 2
  {
    assert ([Tag(f)] + rest)[1..] == rest;
  }

  lemma ReadFieldBack(m: Message, f: Field, rest: seq<Byte>, at: nat)
    requires Fits(m, f) && at + |FieldBody(f)| < TWO63
    ensures ReadField(m, f.num, if f.Number? then 0 else 2, FieldBody(f) + rest, at) == Ok((f, rest))
  {
    assert WireTypeOf(m, f.num) == if f.Number? then 0 else 2;
    hide ReadVarint, Varint, ReadRecord, WireTypeOf, FieldCount;
    match f
    case Number(_, v) =>
      VarintLength(v);
      ReadVarintOfVarint(v, 0, rest);
    case Record(_, body) =>
      assert FieldBody(f) + rest == Varint(|body|) + (body + rest);
      ReadRecordBack(body, rest, at);
  }

  lemma ReadRecordBack(body: seq<Byte>, rest: seq<Byte>, at: nat)
    requires at + |Varint(|body|)| + |body| < TWO63
    ensures ReadRecord(Varint(|body|) + (body + rest), at) == Ok((body, rest))
  {
    hide ReadVarint, Varint;
    VarintLength(|body|);
    ReadVarintOfVarint(|body|, 0, body + rest);
    assert (body + rest)[..|body|] == body && (body + rest)[|body|..] == rest;
  }

  /** An encoded field in front of more bytes is stored. */
  lemma KnownTurn(f: Field, rest: seq<Byte>, at: nat, m: Message)
    requires IsMessage(m) && Fits(m, f) && at + |EncodeField(f)| < TWO63
    ensures UnmarshalTurn(EncodeField(f) + rest, at, m) ==
            match Apply(m, f)
            case Err(e) => Err(e)
            case Ok(m') => Ok((m', rest))
  {
    hide ReadVarint, ReadField, Apply, FieldBody, ToInt32, WireTypeOf, Tag, Skip;
    var behind := FieldBody(f) + rest;
    assert EncodeField(f) + rest == [Tag(f)] + behind;
    ReadTagByte(f, behind);
    ReadFieldBack(m, f, rest, at + 1);
  }

  lemma {:induction false} UnmarshalFields(fs: seq<Field>, at: nat, m: Message)
    requires IsMessage(m) && AllFit(m, fs) && at + |EncodeFields(fs)| < TWO63
    ensures Unmarshal(EncodeFields(fs), at, m) == ApplyAll(m, fs)
    decreases |fs|
  {
    hide UnmarshalTurn, Apply, EncodeField;
    if fs != [] {
      FieldNotEmpty(fs[0]);
      KnownTurn(fs[0], EncodeFields(fs[1..]), at, m);
      match Apply(m, fs[0])
      case Err(_) =>
      case Ok(m') =>
        FitsSameKind(m, m', fs[1..]);
        UnmarshalFields(fs[1..], at + |EncodeField(fs[0])|, m');
    }
  }

  lemma FieldNotEmpty(f: Field)
    requires f.num < 16
    ensures EncodeField(f) != []
  {
  }

  lemma {:induction false} EncodeFieldsConcat(a: seq<Field>, b: seq<Field>)
    ensures EncodeFields(a + b) == EncodeFields(a) + EncodeFields(b)
    decreases |a|
  {
    hide EncodeField;
    if a == [] {
      assert a + b == b;
    } else {
      assert (a + b)[1..] == a[1..] + b;
      EncodeFieldsConcat(a[1..], b);
    }
  }

  lemma {:induction false} ApplyAllConcat(m: Message, a: seq<Field>, b: seq<Field>)
    requires IsMessage(m) && AllFit(m, a) && AllFit(m, b) && ApplyAll(m, a).Ok?
    ensures AllFit(ApplyAll(m, a).value, b)
    ensures AllFit(m, a + b) && ApplyAll(m, a + b) == ApplyAll(ApplyAll(m, a).value, b)
    decreases |a|
  {
    hide Apply;
    if a == [] {
      assert a + b == b;
    } else {
      assert (a + b)[1..] == a[1..] + b;
      var m' := Apply(m, a[0]).value;
      FitsSameKind(m, m', a[1..]);
      FitsSameKind(m, m', b);
      ApplyAllConcat(m', a[1..], b);
    }
  }

  // ----- Tokens -----

  lemma TokenBack(t: Token)
    requires EncodableToken(t) && |EncodeFields(TokenFields(t))| < TWO63
    ensures Unmarshal(EncodeFields(TokenFields(t)), 0, TokenMessage(ZERO_TOKEN)) == Ok(TokenMessage(t))
  {
    hide Unmarshal;
    var m := TokenMessage(ZERO_TOKEN);
    UnmarshalFields(TokenFields(t), 0, m);
    Int32RoundTrip(t.kind);
    StringOfBytes(t.literal);
    var kind := if t.kind != 0 then [Number(1, FromInt32(t.kind))] else [];
    var text := TextField(2, t.literal);
    var m1 := TokenMessage(Token(t.kind, ""));
    assert ApplyAll(m, kind) == Ok(m1);
    assert ApplyAll(m1, text) == Ok(TokenMessage(t));
    ApplyAllConcat(m, kind, text);
  }

  // ----- Nodes -----

  /** The first field of a node, its token. */
  lemma TokenApplied(e: Expression, t: Token)
    requires Kind(e) > 0 && TokenOf(e) == ZERO_TOKEN
    requires EncodableToken(t) && |EncodeFields([TokenField(t)])| < TWO63
    ensures AllFit(NodeMessage(e), [TokenField(t)])
    ensures ApplyAll(NodeMessage(e), [TokenField(t)]) == Ok(NodeMessage(WithToken(e, t)))
  {
    hide Unmarshal;
    assert EncodeFields([TokenField(t)]) == EncodeField(TokenField(t));
    FieldSizes(TokenField(t));
    TokenBack(t);
  }

  lemma TextApplied(e: Expression, num: nat, s: string)
    requires Kind(e) > 0 && IsBytes(s) && num >= 2 && Known(NodeMessage(e), num)
    requires WireTypeOf(NodeMessage(e), num) == 2 && MessageField(e, num).None? && WithText(e, "") == e
    ensures AllFit(NodeMessage(e), TextField(num, s))
    ensures ApplyAll(NodeMessage(e), TextField(num, s)) == Ok(NodeMessage(WithText(e, s)))
  {
    StringOfBytes(s);
    if s != "" {
      var fs := TextField(num, s);
      assert Apply(NodeMessage(e), fs[0]) == Ok(NodeMessage(WithText(e, s)));
      assert fs[1..] == [];
    }
  }

  /** A record that is decoded into a fresh part of the node. */
  lemma PartApplied(e: Expression, num: nat, body: seq<Byte>, part: Message)
    requires Kind(e) > 0 && num >= 2 && Known(NodeMessage(e), num) && WireTypeOf(NodeMessage(e), num) == 2
    requires MessageField(e, num).Some? && !part.TokenMessage?
    requires Unmarshal(body, 0, MessageField(e, num).value) == Ok(part)
    ensures AllFit(NodeMessage(e), [Record(num, body)])
    ensures e.CallExpression? && num == 2 ==> part.e.Ident?
    ensures ApplyAll(NodeMessage(e), [Record(num, body)]) == Ok(NodeMessage(WithPart(e, num, part.e)))
  {
    hide Unmarshal;
    var fs := [Record(num, body)];
    assert Apply(NodeMessage(e), fs[0]) == Ok(NodeMessage(WithPart(e, num, part.e)));
    assert fs[1..] == [];
  }

  lemma {:induction false} ListApplied(e: Expression, num: nat, es: seq<Expression>)
    requires AllEncodable(es) && |EncodeFields(ListFields(num, es))| < TWO63
    requires (e.ArrayLiteral? && num == 2) || (e.CallExpression? && num == 3)
    requires AllBack(es)
    ensures AllFit(NodeMessage(e), ListFields(num, es))
    ensures ApplyAll(NodeMessage(e), ListFields(num, es)) == Ok(NodeMessage(WithParts(e, es)))
    decreases |es|
  {
    hide Unmarshal, Apply, ApplyAll, WithParts, WithPart, EncodeFields, ListFields, Encode, Encodable, Fits, AllBack;
    if es == [] {
      NothingApplied(e, num);
    } else {
      var first, rest := [Record(num, Encode(es[0]))], ListFields(num, es[1..]);
      ListFieldsStep(num, es);
      WithPartsStep(e, num, es);
      EncodeFieldsConcat(first, rest);
      ElementApplied(e, num, es[0]);
      var e' := WithPart(e, num, es[0]);
      ListApplied(e', num, es[1..]);
      FitsSameKind(NodeMessage(e'), NodeMessage(e), rest);
      ApplyAllConcat(NodeMessage(e), first, rest);
    }
  }

  lemma NothingApplied(e: Expression, num: nat)
    requires Kind(e) > 0
    ensures WithParts(e, []) == e && ListFields(num, []) == []
    ensures ApplyAll(NodeMessage(e), []) == Ok(NodeMessage(e))
  {}

  lemma ListFieldsStep(num: nat, es: seq<Expression>)
    requires AllEncodable(es) && es != []
    ensures ListFields(num, es) == [Record(num, Encode(es[0]))] + ListFields(num, es[1..])
    ensures AllBack(es) ==> AllBack(es[1..]) && (|Encode(es[0])| < TWO63 ==> ExpressionBack(es[0]))
  {
    hide Encode, ExpressionBack;
    assert forall i | 0 <= i < |es[1..]| :: es[1..][i] == es[i + 1];
  }

  lemma ElementApplied(e: Expression, num: nat, x: Expression)
    requires (e.ArrayLiteral? && num == 2) || (e.CallExpression? && num == 3)
    requires Encodable(x) && |EncodeFields([Record(num, Encode(x))])| < TWO63
    requires |Encode(x)| < TWO63 ==> ExpressionBack(x)
    ensures AllFit(NodeMessage(e), [Record(num, Encode(x))])
    ensures ApplyAll(NodeMessage(e), [Record(num, Encode(x))]) == Ok(NodeMessage(WithPart(e, num, x)))
  {
    hide Unmarshal, Apply, ApplyAll, Encode;
    var f := Record(num, Encode(x));
    assert EncodeFields([f]) == EncodeField(f);
    FieldSizes(f);
    PartApplied(e, num, Encode(x), ExpressionMessage(x));
  }

  lemma WithPartsStep(e: Expression, num: nat, es: seq<Expression>)
    requires es != [] && ((e.ArrayLiteral? && num == 2) || (e.CallExpression? && num == 3))
    ensures WithParts(WithPart(e, num, es[0]), es[1..]) == WithParts(e, es)
    ensures var e' := WithPart(e, num, es[0]);
            if e.ArrayLiteral? then e'.ArrayLiteral? else e'.CallExpression?
  {
    var xs := if e.ArrayLiteral? then e.elements else e.arguments;
    assert xs + [es[0]] + es[1..] == xs + es;
  }

  /** The list extended by `es`. */
  function WithParts(e: Expression, es: seq<Expression>): Expression {
    match e
    case ArrayLiteral(token, elements) => ArrayLiteral(token, elements + es)
    case CallExpression(token, callee, arguments) => CallExpression(token, callee, arguments + es)
    case _ => e
  }

  ghost predicate ExpressionBack(e: Expression)
    requires Encodable(e)
  {
    Unmarshal(Encode(e), 0, ExpressionMessage(Unset)) == Ok(ExpressionMessage(e))
  }

  ghost predicate AllBack(es: seq<Expression>)
    requires AllEncodable(es)
  {
    forall i | 0 <= i < |es| && |Encode(es[i])| < TWO63 :: ExpressionBack(es[i])
  }

  // ----- Whole messages -----

  /** A name, whether in an oneof or as the callee of a call. */
  lemma NameBack(ident: Identifier)
    requires EncodableToken(ident.token) && IsBytes(ident.value) && |EncodeFields(NameFields(ident))| < TWO63
    ensures Unmarshal(EncodeFields(NameFields(ident)), 0, NodeMessage(ZeroNode(1))) == Ok(NodeMessage(Ident(ident)))
  {
    TokenAndText(Ident(ident), ident.token, 2, ident.value);
  }

  /** A node that is a token and a text. */
  lemma TokenAndText(e: Expression, t: Token, num: nat, s: string)
    requires (e.Ident? || e.IntegerLiteral? || e.StringLiteral?) && num == 2
    requires EncodableToken(t) && IsBytes(s)
    requires e == WithText(WithToken(ZeroNode(Kind(e)), t), s)
    requires |EncodeFields([TokenField(t)] + TextField(2, s))| < TWO63
    ensures Unmarshal(EncodeFields([TokenField(t)] + TextField(2, s)), 0, NodeMessage(ZeroNode(Kind(e))))
         == Ok(NodeMessage(e))
  {
    hide Unmarshal, Apply, EncodeFields;
    var zero := ZeroNode(Kind(e));
    EncodeFieldsConcat([TokenField(t)], TextField(2, s));
    TokenApplied(zero, t);
    TextApplied(WithToken(zero, t), 2, s);
    Chain2(zero, [TokenField(t)], WithToken(zero, t), TextField(2, s), e);
  }

  /** A node from two runs of fields. */
  lemma Chain2(zero: Expression, a: seq<Field>, e1: Expression, b: seq<Field>, e2: Expression)
    requires Kind(zero) > 0 && Kind(e1) == Kind(zero) && Kind(e2) == Kind(zero)
    requires AllFit(NodeMessage(zero), a) && ApplyAll(NodeMessage(zero), a) == Ok(NodeMessage(e1))
    requires AllFit(NodeMessage(e1), b) && ApplyAll(NodeMessage(e1), b) == Ok(NodeMessage(e2))
    requires |EncodeFields(a + b)| < TWO63
    ensures AllFit(NodeMessage(zero), a + b)
    ensures ApplyAll(NodeMessage(zero), a + b) == Ok(NodeMessage(e2))
    ensures Unmarshal(EncodeFields(a + b), 0, NodeMessage(zero)) == Ok(NodeMessage(e2))
  {
    hide Unmarshal, Apply, EncodeFields, ApplyAll;
    FitsSameKind(NodeMessage(e1), NodeMessage(zero), b);
    ApplyAllConcat(NodeMessage(zero), a, b);
    UnmarshalFields(a + b, 0, NodeMessage(zero));
  }

  /** The tree comes back from its bytes. */
  lemma {:induction false} ExpressionRoundTrip(e: Expression)
    requires Encodable(e) && |Encode(e)| < TWO63
    ensures ExpressionBack(e)
    decreases e, 2
  {
    hide Unmarshal, NodeFields;
    var m := ExpressionMessage(Unset);
    if e.Unset? {
      UnmarshalFields([], 0, m);
    } else {
      var f := Record(Kind(e), EncodeFields(NodeFields(e)));
      assert EncodeFields([f]) == EncodeField(f);
      FieldSizes(f);
      NodeRoundTrip(e);
      UnmarshalFields([f], 0, m);
      assert Apply(m, f) == Ok(ExpressionMessage(e));
      assert [f][1..] == [];
    }
  }

  lemma {:induction false} NodeRoundTrip(e: Expression)
    requires Encodable(e) && Kind(e) > 0 && |EncodeFields(NodeFields(e))| < TWO63
    ensures Unmarshal(EncodeFields(NodeFields(e)), 0, NodeMessage(ZeroNode(Kind(e)))) == Ok(NodeMessage(e))
    decreases e, 1
  {
    hide Unmarshal, EncodeFields;
    match e
    case Ident(ident) => NameBack(ident);
    case IntegerLiteral(token, value) => TokenAndText(e, token, 2, value);
    case StringLiteral(token, value) => TokenAndText(e, token, 2, value);
    case BooleanLiteral(token, truth) => BooleanRoundTrip(e);
    case ArrayLiteral(token, elements) => ArrayRoundTrip(e);
    case CallExpression(token, callee, arguments) => CallRoundTrip(e);
    case InfixExpression(token, left, operator, right) => InfixRoundTrip(e);
    case PrefixExpression(token, operator, right) => PrefixRoundTrip(e);
  }

  lemma BooleanRoundTrip(e: Expression)
    requires Encodable(e) && e.BooleanLiteral? && |EncodeFields(NodeFields(e))| < TWO63
    ensures Unmarshal(EncodeFields(NodeFields(e)), 0, NodeMessage(ZeroNode(3))) == Ok(NodeMessage(e))
  {
    hide Unmarshal, EncodeFields;
    var flag := if e.truth then [Number(2, 1)] else [];
    var e1 := BooleanLiteral(e.token, false);
    EncodeFieldsConcat([TokenField(e.token)], flag);
    TokenApplied(ZeroNode(3), e.token);
    assert ApplyAll(NodeMessage(e1), flag) == Ok(NodeMessage(e));
    Chain2(ZeroNode(3), [TokenField(e.token)], e1, flag, e);
  }

  /** Every element of the list comes back. */
  lemma {:induction false} ElementsRoundTrip(es: seq<Expression>)
    requires AllEncodable(es)
    ensures AllBack(es)
    decreases es, 3
  {
    forall i | 0 <= i < |es| && |Encode(es[i])| < TWO63
      ensures ExpressionBack(es[i])
    {
      ExpressionRoundTrip(es[i]);
    }
  }

  lemma {:induction false} ArrayRoundTrip(e: Expression)
    requires Encodable(e) && e.ArrayLiteral? && |EncodeFields(NodeFields(e))| < TWO63
    ensures Unmarshal(EncodeFields(NodeFields(e)), 0, NodeMessage(ZeroNode(5))) == Ok(NodeMessage(e))
    decreases e, 0
  {
    hide Unmarshal, EncodeFields, Apply, ApplyAll;
    var list := ListFields(2, e.elements);
    var e1 := ArrayLiteral(e.token, []);
    EncodeFieldsConcat([TokenField(e.token)], list);
    TokenApplied(ZeroNode(5), e.token);
    ElementsRoundTrip(e.elements);
    ListApplied(e1, 2, e.elements);
    assert [] + e.elements == e.elements;
    Chain2(ZeroNode(5), [TokenField(e.token)], e1, list, e);
  }

  lemma {:induction false} CallRoundTrip(e: Expression)
    requires Encodable(e) && e.CallExpression? && |EncodeFields(NodeFields(e))| < TWO63
    ensures Unmarshal(EncodeFields(NodeFields(e)), 0, NodeMessage(ZeroNode(6))) == Ok(NodeMessage(e))
    decreases e, 0
  {
    hide Unmarshal, EncodeFields, Apply, ApplyAll;
    var head, callee, list := [TokenField(e.token)], CalleeField(e.callee), ListFields(3, e.arguments);
    var e1, e2 := CallExpression(e.token, None, []), CallExpression(e.token, e.callee, []);
    EncodeFieldsConcat(head, callee);
    EncodeFieldsConcat(head + callee, list);
    TokenApplied(ZeroNode(6), e.token);
    CalleeApplied(e1, e.callee);
    Chain2(ZeroNode(6), head, e1, callee, e2);
    ElementsRoundTrip(e.arguments);
    ListApplied(e2, 3, e.arguments);
    assert [] + e.arguments == e.arguments;
    Chain2(ZeroNode(6), head + callee, e2, list, e);
  }

  lemma CalleeApplied(e: Expression, callee: Option<Identifier>)
    requires e.CallExpression? && e.callee.None?
    requires callee.Some? ==> EncodableToken(callee.value.token) && IsBytes(callee.value.value)
    requires |EncodeFields(CalleeField(callee))| < TWO63
    ensures AllFit(NodeMessage(e), CalleeField(callee))
    ensures ApplyAll(NodeMessage(e), CalleeField(callee))
         == Ok(NodeMessage(CallExpression(e.token, callee, e.arguments)))
  {
    hide Unmarshal, Apply;
    if callee.Some? {
      var f := Record(2, EncodeFields(NameFields(callee.value)));
      assert EncodeFields([f]) == EncodeField(f);
      FieldSizes(f);
      NameBack(callee.value);
      PartApplied(e, 2, f.body, NodeMessage(Ident(callee.value)));
    }
  }

  /** An operand that is nil in the message and may be nil in the tree. */
  lemma {:induction false} OperandApplied(e: Expression, num: nat, x: Expression)
    requires (e.InfixExpression? && ((num == 2 && e.left.NilExpr?) || (num == 4 && e.right.NilExpr?)))
          || (e.PrefixExpression? && num == 3 && e.right.NilExpr?)
    requires EncodableOrNil(x) && |EncodeFields(OperandField(num, x))| < TWO63
    ensures AllFit(NodeMessage(e), OperandField(num, x))
    ensures ApplyAll(NodeMessage(e), OperandField(num, x)) == Ok(NodeMessage(WithPart(e, num, x)))
    decreases x, 3
  {
    hide Unmarshal, Apply;
    if !x.NilExpr? {
      var f := Record(num, Encode(x));
      assert EncodeFields([f]) == EncodeField(f);
      FieldSizes(f);
      ExpressionRoundTrip(x);
      PartApplied(e, num, f.body, ExpressionMessage(x));
    }
  }

  lemma {:induction false} InfixRoundTrip(e: Expression)
    requires Encodable(e) && e.InfixExpression? && |EncodeFields(NodeFields(e))| < TWO63
    ensures Unmarshal(EncodeFields(NodeFields(e)), 0, NodeMessage(ZeroNode(7))) == Ok(NodeMessage(e))
    decreases e, 0
  {
    hide Unmarshal, EncodeFields, Apply, ApplyAll;
    var head, left := [TokenField(e.token)], OperandField(2, e.left);
    var op, right := TextField(3, e.operator), OperandField(4, e.right);
    EncodeFieldsConcat(head, left);
    EncodeFieldsConcat(head + left, op);
    EncodeFieldsConcat(head + left + op, right);
    var e1 := InfixExpression(e.token, NilExpr, "", NilExpr);
    var e2 := InfixExpression(e.token, e.left, "", NilExpr);
    var e3 := InfixExpression(e.token, e.left, e.operator, NilExpr);
    TokenApplied(ZeroNode(7), e.token);
    OperandApplied(e1, 2, e.left);
    Chain2(ZeroNode(7), head, e1, left, e2);
    TextApplied(e2, 3, e.operator);
    Chain2(ZeroNode(7), head + left, e2, op, e3);
    OperandApplied(e3, 4, e.right);
    Chain2(ZeroNode(7), head + left + op, e3, right, e);
  }

  lemma {:induction false} PrefixRoundTrip(e: Expression)
    requires Encodable(e) && e.PrefixExpression? && |EncodeFields(NodeFields(e))| < TWO63
    ensures Unmarshal(EncodeFields(NodeFields(e)), 0, NodeMessage(ZeroNode(8))) == Ok(NodeMessage(e))
    decreases e, 0
  {
    hide Unmarshal, EncodeFields, Apply, ApplyAll;
    var head, op, right := [TokenField(e.token)], TextField(2, e.operator), OperandField(3, e.right);
    EncodeFieldsConcat(head, op);
    EncodeFieldsConcat(head + op, right);
    var e1 := PrefixExpression(e.token, "", NilExpr);
    var e2 := PrefixExpression(e.token, e.operator, NilExpr);
    TokenApplied(ZeroNode(8), e.token);
    TextApplied(e1, 2, e.operator);
    Chain2(ZeroNode(8), head, e1, op, e2);
    OperandApplied(e2, 3, e.right);
    Chain2(ZeroNode(8), head + op, e2, right, e);
  }

  /** `Unmarshal(Marshal(e))` is `e`, tokens and nil operands included. */
  lemma DecodeOfEncode(e: Expression)
    requires Encodable(e) && |Encode(e)| < TWO63
    ensures Decode(Encode(e)) == Ok(e)
  {
    ExpressionRoundTrip(e);
  }
}
