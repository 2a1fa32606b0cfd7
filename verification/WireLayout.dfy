/** The bytes themselves: what an encoded tree looks like, with every tag written as the byte that
    it is, and what the decoder makes of these bytes. */
module WireLayout {
  import opened Wrappers
  import opened Sequences
  import opened Wire
  import opened Skipping
  import opened Tokens
  import opened Ast
  import opened Codec
  import opened CodecRoundTrip
  import opened CodecNoise

  // ----- The layout -----

  /** A tag, the length and the bytes of a record. */
  function Framed(tag: Byte, body: seq<Byte>): seq<Byte> { [tag] + (Varint(|body|) + body) }

  function Text(tag: Byte, s: string): seq<Byte>
    requires IsBytes(s)
  {
    if s == "" then [] else Framed(tag, BytesOf(s))
  }

  /** A negative type is written as the 64-bit number with the same low bits. */
  function KindLayout(kind: TokenType): seq<Byte> {
    if kind == 0 then [] else [8] + Varint(if kind < 0 then 0x1_0000_0000_0000_0000 + kind else kind)
  }

  function TokenLayout(t: Token): seq<Byte>
    requires EncodableToken(t)
  {
    KindLayout(t.kind) + Text(18, t.literal)
  }

  function NameLayout(ident: Identifier): seq<Byte>
    requires EncodableToken(ident.token) && IsBytes(ident.value)
  {
    Framed(10, TokenLayout(ident.token)) + Text(18, ident.value)
  }

  function Layout(e: Expression): seq<Byte>
    requires Encodable(e)
    decreases e, 1
  {
    match e
    case Unset => []
    case Ident(ident) => Framed(10, NameLayout(ident))
    case IntegerLiteral(token, value) => Framed(18, Framed(10, TokenLayout(token)) + Text(18, value))
    case BooleanLiteral(token, truth) => Framed(26, Framed(10, TokenLayout(token)) + if truth then [16, 1] else [])
    case StringLiteral(token, value) => Framed(34, Framed(10, TokenLayout(token)) + Text(18, value))
    case ArrayLiteral(token, elements) => Framed(42, Framed(10, TokenLayout(token)) + AllLayouts(18, elements))
    case CallExpression(token, callee, arguments) =>
      Framed(50, Framed(10, TokenLayout(token))
                 + (if callee.None? then [] else Framed(18, NameLayout(callee.value)))
                 + AllLayouts(26, arguments))
    case InfixExpression(token, left, operator, right) =>
      Framed(58, Framed(10, TokenLayout(token))
                 + OperandLayout(18, left) + Text(26, operator) + OperandLayout(34, right))
    case PrefixExpression(token, operator, right) =>
      Framed(66, Framed(10, TokenLayout(token)) + Text(18, operator) + OperandLayout(26, right))
  }

  function OperandLayout(tag: Byte, e: Expression): seq<Byte>
    requires EncodableOrNil(e)
    decreases e, 2
  {
    if e.NilExpr? then [] else Framed(tag, Layout(e))
  }

  function AllLayouts(tag: Byte, es: seq<Expression>): seq<Byte>
    requires AllEncodable(es)
    decreases es, 0
  {
    if es == [] then [] else Framed(tag, Layout(es[0])) + AllLayouts(tag, es[1..])
  }

  // ----- Trees are encoded that way -----

  lemma OneRecord(num: nat, body: seq<Byte>)
    requires num < 16
    ensures EncodeFields([Record(num, body)]) == Framed(8 * num + 2, body)
  {
    var f := Record(num, body);
    assert [f][1..] == [];
    AppendNothing(EncodeField(f));
  }

  lemma TextLaidOut(num: nat, s: string)
    requires IsBytes(s) && num < 16
    ensures EncodeFields(TextField(num, s)) == Text(8 * num + 2, s)
  {
    if s != "" {
      OneRecord(num, BytesOf(s));
    }
  }

  lemma TokenLaidOut(t: Token)
    requires EncodableToken(t)
    ensures EncodeFields(TokenFields(t)) == TokenLayout(t)
    ensures EncodeFields([TokenField(t)]) == Framed(10, TokenLayout(t))
  {
    hide *;
    var kind := KindLaidOut(t);
    TextLaidOut(2, t.literal);
    EncodeFieldsConcat(kind, TextField(2, t.literal));
    OneRecord(1, EncodeFields(TokenFields(t)));
    TokenUnfolds(t);
  }

  lemma TokenUnfolds(t: Token)
    requires EncodableToken(t)
    ensures TokenLayout(t) == KindLayout(t.kind) + Text(18, t.literal)
    ensures TokenField(t) == Record(1, EncodeFields(TokenFields(t)))
  {}

  lemma KindLaidOut(t: Token) returns (kind: seq<Field>)
    requires EncodableToken(t)
    ensures IsBytes(t.literal) && TokenFields(t) == kind + TextField(2, t.literal)
    ensures EncodeFields(kind) == KindLayout(t.kind)
  {
    hide Varint, TextField;
    kind := if t.kind != 0 then [Number(1, FromInt32(t.kind))] else [];
    if t.kind != 0 {
      assert kind[1..] == [];
      AppendNothing(EncodeField(kind[0]));
    }
  }

  lemma NameLaidOut(ident: Identifier)
    requires EncodableToken(ident.token) && IsBytes(ident.value)
    ensures EncodeFields(NameFields(ident)) == NameLayout(ident)
  {
    TokenAndTextLaidOut(ident.token, ident.value);
    hide EncodeFields, TextField, TokenFields, TokenLayout, Text, Framed;
  }

  /** The encoding of every tree is this layout. */
  lemma {:induction false} EncodingIsLaidOut(e: Expression)
    requires Encodable(e)
    ensures Encode(e) == Layout(e)
    decreases e, 3
  {
    hide EncodeFields, NodeFields, Layout;
    if e.Unset? {
      NothingLaidOut();
    } else {
      NodeLaidOut(e);
      OneRecord(Kind(e), EncodeFields(NodeFields(e)));
    }
  }

  lemma {:induction false} NodeLaidOut(e: Expression)
    requires Encodable(e) && !e.Unset?
    ensures Layout(e) == Framed(8 * Kind(e) + 2, EncodeFields(NodeFields(e)))
    decreases e, 2
  {
    match e
    case BooleanLiteral(_, _) => BooleanLaidOut(e);
    case ArrayLiteral(_, _) => ArrayLaidOut(e);
    case CallExpression(_, _, _) => CallLaidOut(e);
    case InfixExpression(_, _, _, _) => InfixLaidOut(e);
    case PrefixExpression(_, _, _) => PrefixLaidOut(e);
    case _ => TextNodeLaidOut(e);
  }

  lemma NothingLaidOut()
    ensures Encode(Unset) == [] == Layout(Unset)
  {}

  lemma TextNodeLaidOut(e: Expression)
    requires Encodable(e) && (e.Ident? || e.IntegerLiteral? || e.StringLiteral?)
    ensures Layout(e) == Framed(8 * Kind(e) + 2, EncodeFields(NodeFields(e)))
  {
    if e.Ident? {
      NameLaidOut(e.ident);
    } else {
      TokenAndTextLaidOut(e.token, e.value);
    }
    hide EncodeFields, TokenFields, TokenLayout, NameLayout, NameFields, Text, TextField;
  }

  lemma TokenAndTextLaidOut(t: Token, s: string)
    requires EncodableToken(t) && IsBytes(s)
    ensures EncodeFields([TokenField(t)] + TextField(2, s)) == Framed(10, TokenLayout(t)) + Text(18, s)
  {
    hide *;
    TokenLaidOut(t);
    TextLaidOut(2, s);
    EncodeFieldsConcat([TokenField(t)], TextField(2, s));
  }

  lemma BooleanLaidOut(e: Expression)
    requires Encodable(e) && e.BooleanLiteral?
    ensures Layout(e) == Framed(26, EncodeFields(NodeFields(e)))
  {
    TokenLaidOut(e.token);
    EncodeFieldsConcat([TokenField(e.token)], if e.truth then [Number(2, 1)] else []);
    FlagLaidOut(e.truth);
    hide EncodeFields, TokenFields, TokenLayout;
  }

  lemma FlagLaidOut(truth: bool)
    ensures EncodeFields(if truth then [Number(2, 1)] else []) == if truth then [16, 1] else []
  {
    assert EncodeField(Number(2, 1)) == [16] + [1];
    assert [Number(2, 1)][1..] == [];
  }

  lemma {:induction false} ArrayLaidOut(e: Expression)
    requires Encodable(e) && e.ArrayLiteral?
    ensures Layout(e) == Framed(42, EncodeFields(NodeFields(e)))
    decreases e, 1
  {
    TokenLaidOut(e.token);
    ListLaidOut(2, e.elements);
    EncodeFieldsConcat([TokenField(e.token)], ListFields(2, e.elements));
    hide EncodeFields, TokenFields, TokenLayout, AllLayouts, ListFields;
  }

  lemma {:induction false} ListLaidOut(num: nat, es: seq<Expression>)
    requires AllEncodable(es) && num < 16
    ensures EncodeFields(ListFields(num, es)) == AllLayouts(8 * num + 2, es)
    decreases es, 0
  {
    hide Encode, Layout;
    if es != [] {
      EncodingIsLaidOut(es[0]);
      ListLaidOut(num, es[1..]);
      OneRecord(num, Encode(es[0]));
      EncodeFieldsConcat([Record(num, Encode(es[0]))], ListFields(num, es[1..]));
      hide EncodeFields;
    }
  }

  lemma {:induction false} OperandLaidOut(num: nat, e: Expression)
    requires EncodableOrNil(e) && num < 16
    ensures EncodeFields(OperandField(num, e)) == OperandLayout(8 * num + 2, e)
    decreases e, 4
  {
    hide Encode, Layout;
    if !e.NilExpr? {
      EncodingIsLaidOut(e);
      OneRecord(num, Encode(e));
    }
  }

  lemma {:induction false} CallLaidOut(e: Expression)
    requires Encodable(e) && e.CallExpression?
    ensures Layout(e) == Framed(50, EncodeFields(NodeFields(e)))
    decreases e, 1
  {
    var head, callee, list := [TokenField(e.token)], CalleeField(e.callee), ListFields(3, e.arguments);
    TokenLaidOut(e.token);
    CalleeLaidOut(e.callee);
    ListLaidOut(3, e.arguments);
    EncodeFieldsConcat(head, callee);
    EncodeFieldsConcat(head + callee, list);
    hide EncodeFields, TokenFields, TokenLayout, NameLayout, AllLayouts, ListFields;
  }

  lemma CalleeLaidOut(callee: Option<Identifier>)
    requires callee.Some? ==> EncodableToken(callee.value.token) && IsBytes(callee.value.value)
    ensures EncodeFields(CalleeField(callee)) == if callee.None? then [] else Framed(18, NameLayout(callee.value))
  {
    if callee.Some? {
      NameLaidOut(callee.value);
      OneRecord(2, EncodeFields(NameFields(callee.value)));
    }
  }

  lemma {:induction false} InfixLaidOut(e: Expression)
    requires Encodable(e) && e.InfixExpression?
    ensures Layout(e) == Framed(58, EncodeFields(NodeFields(e)))
    decreases e, 1
  {
    var head, left := [TokenField(e.token)], OperandField(2, e.left);
    var op, right := TextField(3, e.operator), OperandField(4, e.right);
    TokenLaidOut(e.token);
    OperandLaidOut(2, e.left);
    TextLaidOut(3, e.operator);
    OperandLaidOut(4, e.right);
    EncodeFieldsConcat(head, left);
    EncodeFieldsConcat(head + left, op);
    EncodeFieldsConcat(head + left + op, right);
    hide EncodeFields, TokenFields, TokenLayout, TextField, OperandField, OperandLayout, Text;
  }

  lemma {:induction false} PrefixLaidOut(e: Expression)
    requires Encodable(e) && e.PrefixExpression?
    ensures Layout(e) == Framed(66, EncodeFields(NodeFields(e)))
    decreases e, 1
  {
    var head, op, right := [TokenField(e.token)], TextField(2, e.operator), OperandField(3, e.right);
    TokenLaidOut(e.token);
    TextLaidOut(2, e.operator);
    OperandLaidOut(3, e.right);
    EncodeFieldsConcat(head, op);
    EncodeFieldsConcat(head + op, right);
    hide EncodeFields, TokenFields, TokenLayout, TextField, OperandField, OperandLayout, Text;
  }

  /** The first byte names what the expression is. */
  lemma FirstByte(e: Expression)
    requires Encodable(e)
    ensures Encode(e) == [] <==> e.Unset?
    ensures e.Ident? ==> Encode(e)[0] == 0x0a
    ensures e.IntegerLiteral? ==> Encode(e)[0] == 0x12
    ensures e.BooleanLiteral? ==> Encode(e)[0] == 0x1a
    ensures e.StringLiteral? ==> Encode(e)[0] == 0x22
    ensures e.ArrayLiteral? ==> Encode(e)[0] == 0x2a
    ensures e.CallExpression? ==> Encode(e)[0] == 0x32
    ensures e.InfixExpression? ==> Encode(e)[0] == 0x3a
    ensures e.PrefixExpression? ==> Encode(e)[0] == 0x42
  {
    EncodingIsLaidOut(e);
  }

  // ----- The decoder reads it -----

  /** These bytes decode to the tree they are the layout of. */
  lemma LayoutDecodes(e: Expression)
    requires Encodable(e) && |Layout(e)| < TWO63
    ensures Decode(Layout(e)) == Ok(e)
  {
    EncodingIsLaidOut(e);
    DecodeOfEncode(e);
  }

  predicate IsNamedBy(e: Expression, tag: Byte) {
    && (tag == 0x0a ==> e.Ident?) && (tag == 0x12 ==> e.IntegerLiteral?)
    && (tag == 0x1a ==> e.BooleanLiteral?) && (tag == 0x22 ==> e.StringLiteral?)
    && (tag == 0x2a ==> e.ArrayLiteral?) && (tag == 0x32 ==> e.CallExpression?)
    && (tag == 0x3a ==> e.InfixExpression?) && (tag == 0x42 ==> e.PrefixExpression?)
  }

  /** A record behind one of the eight tags decodes, if at all, to what the tag names, and it takes
      the place of anything decoded before it. */
  lemma LastRecordNames(d: seq<Byte>, tag: Byte, body: seq<Byte>)
    requires tag in {0x0a, 0x12, 0x1a, 0x22, 0x2a, 0x32, 0x3a, 0x42}
    requires Decode(d).Ok? && |d| + |Framed(tag, body)| < TWO63
    ensures Decode(d + Framed(tag, body)) == Decode(Framed(tag, body))
    ensures Decode(Framed(tag, body)).Ok? ==> IsNamedBy(Decode(Framed(tag, body)).value, tag)
  {
    hide Unmarshal, Varint;
    var num: nat := tag / 8;
    var f, empty := Record(num, body), ExpressionMessage(Unset);
    assert EncodeField(f) == Framed(tag, body);
    UnmarshalConcat(d, Framed(tag, body), 0, empty);
    OneTurnOnly(f, 0, empty);
    OneTurnOnly(f, |d|, Unmarshal(d, 0, empty).value);
  }

  lemma OneTurnOnly(f: Field, at: nat, m: Message)
    requires IsMessage(m) && Fits(m, f) && at + |EncodeField(f)| < TWO63
    ensures Unmarshal(EncodeField(f), at, m) == Apply(m, f)
  {
    hide Apply, UnmarshalTurn;
    KnownTurn(f, [], at, m);
    FieldNotEmpty(f);
    AppendNothing(EncodeField(f));
    assert [f][1..] == [];
  }

  /** A boolean is true for every number but zero. */
  lemma AnyNumberIsTrue(v: U64)
    ensures |Framed(0x1a, [16] + Varint(v))| < TWO63
    ensures Decode(Framed(0x1a, [16] + Varint(v))) == Ok(BooleanLiteral(Token(0, ""), v != 0))
  {
    hide Varint, Unmarshal;
    VarintLength(v);
    var flag := Number(2, v);
    var body := [16] + Varint(v);
    assert EncodeField(flag) == body;
    OneTurnOnly(flag, 0, NodeMessage(ZeroNode(3)));
    VarintLength(|body|);
    var f := Record(3, body);
    assert EncodeField(f) == Framed(0x1a, body);
    OneTurnOnly(f, 0, ExpressionMessage(Unset));
  }

  // ----- What it refuses -----

  /** A message that starts with any other byte below 0x80 is an error, if its field is one of the
      eight or there is none of that number. */
  lemma OtherFirstBytes(s: seq<Byte>)
    requires s != [] && s[0] < 0x80
    ensures s[0] % 8 == 4 ==> Decode(s) == Err(EndGroup)
    ensures s[0] in {0, 1, 2, 3, 5, 6, 7} ==> Decode(s) == Err(IllegalTag)
    ensures 8 <= s[0] < 72 && s[0] % 8 in {0, 1, 3, 5, 6, 7} ==> Decode(s) == Err(WrongWireType)
  {
    assert ReadVarint(s, 0) == Ok((s[0], s[1..]));
    hide ReadVarint, Apply, SkipUnknownField;
    var m := ExpressionMessage(Unset);
    assert ToInt32(s[0] / 8) == s[0] / 8;
    if s[0] % 8 == 4 {
      assert UnmarshalTurn(s, 0, m) == Err(EndGroup);
    } else if s[0] < 8 {
      assert UnmarshalTurn(s, 0, m) == Err(IllegalTag);
    } else if s[0] < 72 && s[0] % 8 != 2 {
      assert UnmarshalTurn(s, 0, m) == Err(WrongWireType);
    }
  }

  /** Cut anywhere, an encoded tree is not decoded to another tree: the end is missing. */
  lemma TruncationIsDetected(e: Expression, n: nat)
    requires Encodable(e) && |Encode(e)| < TWO63 && 0 < n < |Encode(e)|
    ensures Decode(Encode(e)[..n]) == Err(UnexpectedEOF)
  {
    hide Encode, Layout, EncodeFields;
    TreeIsOneRecord(e);
    var f := Record(Kind(e), EncodeFields(NodeFields(e)));
    var behind := (Varint(|f.body|) + f.body)[..n - 1];
    assert Encode(e)[..n] == [Tag(f)] + behind;
    CutRecord(f.body, n - 1);
    CutField(f, behind);
  }

  lemma CutField(f: Field, behind: seq<Byte>)
    requires f.Record? && 1 <= f.num <= 8 && ReadRecord(behind, 1) == Err(UnexpectedEOF)
    ensures Decode([Tag(f)] + behind) == Err(UnexpectedEOF)
  {
    var s, m := [Tag(f)] + behind, ExpressionMessage(Unset);
    ReadTagByte(f, behind);
    hide ReadVarint, Apply, SkipUnknownField, ReadRecord, Tag, ToInt32;
    assert ReadField(m, f.num, 2, behind, 1) == Err(UnexpectedEOF);
    assert UnmarshalTurn(s, 0, m) == Err(UnexpectedEOF);
  }

  lemma TreeIsOneRecord(e: Expression)
    requires Encodable(e) && Encode(e) != []
    ensures 0 < Kind(e) <= 8
    ensures Encode(e) == [8 * Kind(e) + 2]
                         + (Varint(|EncodeFields(NodeFields(e))|) + EncodeFields(NodeFields(e)))
  {
    hide EncodeFields;
    if e.Unset? {
      NothingLaidOut();
    } else {
      OneRecord(Kind(e), EncodeFields(NodeFields(e)));
    }
  }

  lemma CutRecord(body: seq<Byte>, n: nat)
    requires n < |Varint(|body|) + body| < TWO63 - 1
    ensures ReadRecord((Varint(|body|) + body)[..n], 1) == Err(UnexpectedEOF)
  {
    hide Varint, ReadVarint;
    var length := Varint(|body|);
    VarintLength(|body|);
    if n < |length| {
      assert (length + body)[..n] == length[..n];
      CutVarint(|body|, 0, n);
    } else {
      assert (length + body)[..n] == length + body[..n - |length|];
      ReadVarintOfVarint(|body|, 0, body[..n - |length|]);
    }
  }

  lemma {:induction false} CutVarint(v: U64, k: nat, n: nat)
    requires n < |Varint(v)| && |Varint(v)| + k <= 10
    ensures ReadVarint(Varint(v)[..n], k) == Err(UnexpectedEOF)
    decreases n
  {
    VarintHead(v);
    hide Varint;
    if n > 0 {
      assert Varint(v)[..n][0] == Varint(v)[0] && Varint(v)[..n][1..] == Varint(v)[1..][..n - 1];
      CutVarint(v / 0x80, k + 1, n - 1);
    }
  }

  // ----- Skipping, by the byte -----

  /** How long an unknown field is, from its tag of one byte: a fixed number of bytes, or up to the
      end of what follows; the other wire types are refused. */
  lemma SkippedSizes(tag: Byte, rest: seq<Byte>)
    requires tag < 0x80
    ensures tag % 8 == 1 ==> Skip([tag] + rest, 0, 0) == Ok(9)
    ensures tag % 8 == 5 ==> Skip([tag] + rest, 0, 0) == Ok(5)
    ensures tag % 8 == 0 && rest != [] && rest[0] < 0x80 ==> Skip([tag] + rest, 0, 0) == Ok(2)
    ensures tag % 8 == 2 && rest != [] && rest[0] < 0x80 ==> Skip([tag] + rest, 0, 0) == Ok(2 + rest[0])
    ensures tag % 8 == 4 ==> Skip([tag] + rest, 0, 0) == Err(UnexpectedEndOfGroup)
    ensures tag % 8 in {6, 7} ==> Skip([tag] + rest, 0, 0) == Err(IllegalWireType)
  {
    var s := [tag] + rest;
    assert s[1..] == rest && ReadVarint(s, 0) == Ok((tag, rest));
    if rest != [] && rest[0] < 0x80 {
      assert ReadVarint(rest, 0) == Ok((rest[0], rest[1..]));
    }
    hide ReadVarint;
  }
}
