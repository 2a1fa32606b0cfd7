/** The generated methods: `Size` adds up, `MarshalToSizedBuffer` fills a buffer from its end
    backwards, `Unmarshal` moves an index over the bytes. */
module CodecMethods {
  import opened Wrappers
  import opened Sequences
  import opened Wire
  import opened Skipping
  import opened Tokens
  import opened Ast
  import opened Codec
  import opened CodecRoundTrip

  // ----- Unmarshal -----

  /** Fills `m0` in from the bytes. Total: every input gives a message or an error. */
  method UnmarshalMessage(d: seq<Byte>, m0: Message) returns (r: Result<Message>)
    requires IsMessage(m0) && |d| < TWO63
    ensures r == Unmarshal(d, 0, m0)
    decreases |d|, 2
  {
    hide UnmarshalTurn;
    var m, iNdEx := m0, 0;
    assert d[0..] == d;
    while iNdEx < |d|
      invariant 0 <= iNdEx <= |d| && IsMessage(m)
      invariant Unmarshal(d, 0, m0) == Unmarshal(d[iNdEx..], iNdEx, m)
      decreases |d| - iNdEx
    {
      ghost var i := iNdEx;
      var turn, next := UnmarshalOne(d, iNdEx, m);
      if turn.Err? {
        return Err(turn.error);
      }
      assert |d[i..]| - |d[next..]| == next - i;
      m, iNdEx := turn.value, next;
    }
    assert d[iNdEx..] == [];
    return Ok(m);
  }

  /** The body of the loop: one field is read and stored, or skipped. */
  method UnmarshalOne(d: seq<Byte>, i: nat, m: Message) returns (r: Result<Message>, next: nat)
    requires IsMessage(m) && i < |d| < TWO63
    ensures r.Ok? ==> i < next <= |d|
    ensures match r
            case Err(e) => UnmarshalTurn(d[i..], i, m) == Err(e)
            case Ok(m') => UnmarshalTurn(d[i..], i, m) == Ok((m', d[next..]))
    decreases |d|, 1
  {
    hide ReadVarint, ReadField, Apply, Skip;
    var wire;
    wire, next := DecodeVarint(d, i);
    if wire.Err? {
      return Err(wire.error), next;
    }
    var fieldNum, wireType := ToInt32(wire.value / 8), wire.value % 8;
    if wireType == 4 {
      return Err(EndGroup), next;
    }
    if fieldNum <= 0 {
      return Err(IllegalTag), next;
    }
    assert |d[i..]| - |d[next..]| == next - i;
    if Known(m, fieldNum) {
      var f;
      f, next := ReadKnown(d, next, m, fieldNum, wireType);
      if f.Err? {
        return Err(f.error), next;
      }
      r := Store(m, f.value, d);
      return;
    }
    var skippy := SkipField(d[i..]);
    if skippy.Err? {
      return Err(skippy.error), next;
    }
    var end := Add64(i, skippy.value);
    if end < 0 {
      return Err(InvalidLength), next;
    }
    if end > |d| {
      return Err(UnexpectedEOF), next;
    }
    assert d[i..][skippy.value..] == d[end..];
    return Ok(m), end;
  }

  method ReadKnown(d: seq<Byte>, i: nat, m: Message, num: nat, wireType: nat) returns (f: Result<Field>, next: nat)
    requires Known(m, num) && i <= |d| < TWO63
    ensures f.Ok? ==> i < next <= |d| && Fits(m, f.value) && (f.value.Record? ==> |f.value.body| < |d| - i)
    ensures match f
            case Err(e) => ReadField(m, num, wireType, d[i..], i) == Err(e)
            case Ok(v) => ReadField(m, num, wireType, d[i..], i) == Ok((v, d[next..]))
  {
    hide ReadVarint;
    if wireType != WireTypeOf(m, num) {
      return Err(WrongWireType), i;
    }
    var v;
    v, next := DecodeVarint(d, i);
    if v.Err? {
      return Err(v.error), next;
    }
    if wireType == 0 {
      return Ok(Number(num, v.value)), next;
    }
    var length := ToInt64(v.value);
    if length < 0 {
      return Err(InvalidLength), next;
    }
    var postIndex := Add64(next, length);
    if postIndex < 0 {
      return Err(InvalidLength), next;
    }
    if postIndex > |d| {
      return Err(UnexpectedEOF), next;
    }
    assert |d[i..]| - |d[next..]| == next - i;
    assert d[next..][..length] == d[next..postIndex] && d[next..][length..] == d[postIndex..];
    return Ok(Record(num, d[next..postIndex])), postIndex;
  }

  /** The switch over the field number. */
  method Store(m: Message, f: Field, ghost d: seq<Byte>) returns (r: Result<Message>)
    requires IsMessage(m) && Fits(m, f) && (f.Record? ==> |f.body| < |d|) && |d| < TWO63
    ensures r == Apply(m, f)
    decreases |d|, 0
  {
    hide Unmarshal;
    match m
    case TokenMessage(t) =>
      return Ok(TokenMessage(if f.Number? then t.(kind := ToInt32(f.v)) else t.(literal := StringOf(f.body))));
    case ExpressionMessage(_) =>
      var node := UnmarshalMessage(f.body, NodeMessage(ZeroNode(f.num)));
      return if node.Err? then node else Ok(ExpressionMessage(node.value.e));
    case NodeMessage(e) =>
      if f.Number? {
        return Ok(NodeMessage(e.(truth := f.v != 0)));
      }
      if f.num == 1 {
        var t := UnmarshalMessage(f.body, TokenMessage(TokenOf(e)));
        return if t.Err? then t else Ok(NodeMessage(WithToken(e, t.value.token)));
      }
      var target := MessageField(e, f.num);
      if target.None? {
        return Ok(NodeMessage(WithText(e, StringOf(f.body))));
      }
      var part := UnmarshalMessage(f.body, target.value);
      return if part.Err? then part else Ok(NodeMessage(WithPart(e, f.num, part.value.e)));
  }

  // ----- Size -----

  lemma FieldSize(f: Field)
    requires f.num < 16
    ensures |EncodeFields([f])| == 1 + if f.Number? then Sov(f.v) else |f.body| + Sov(|f.body|)
  {
    hide Varint, Sov;
    SovIsExact(if f.Number? then f.v else |f.body|);
    assert EncodeFields([f]) == EncodeField(f) + [];
  }

  method SizeText(num: nat, s: string) returns (n: nat)
    requires num < 16 && IsBytes(s)
    ensures n == |EncodeFields(TextField(num, s))|
  {
    n := 0;
    if |s| > 0 {
      FieldSize(Record(num, BytesOf(s)));
      n := n + 1 + |s| + Sov(|s|);
    }
  }

  method SizeToken(t: Token) returns (n: nat)
    requires EncodableToken(t)
    ensures n == |EncodeFields(TokenFields(t))|
  {
    var kind := if t.kind != 0 then [Number(1, FromInt32(t.kind))] else [];
    EncodeFieldsConcat(kind, TextField(2, t.literal));
    n := 0;
    if t.kind != 0 {
      FieldSize(kind[0]);
      n := n + 1 + Sov(FromInt32(t.kind));
    }
    var text := SizeText(2, t.literal);
    n := n + text;
  }

  /** The token field that starts every node. */
  method SizeTokenField(t: Token) returns (n: nat)
    requires EncodableToken(t)
    ensures n == |EncodeFields([TokenField(t)])|
  {
    FieldSize(TokenField(t));
    var l := SizeToken(t);
    n := 1 + l + Sov(l);
  }

  method SizeName(ident: Identifier) returns (n: nat)
    requires EncodableToken(ident.token) && IsBytes(ident.value)
    ensures n == |EncodeFields(NameFields(ident))|
  {
    EncodeFieldsConcat([TokenField(ident.token)], TextField(2, ident.value));
    n := SizeTokenField(ident.token);
    var text := SizeText(2, ident.value);
    n := n + text;
  }

  method Size(e: Expression) returns (n: nat)
    requires Encodable(e)
    ensures n == |Encode(e)|
    decreases e, 2
  {
    n := 0;
    if !e.Unset? {
      FieldSize(Record(Kind(e), EncodeFields(NodeFields(e))));
      var l := SizeNode(e);
      n := n + 1 + l + Sov(l);
    }
  }

  method SizeNode(e: Expression) returns (n: nat)
    requires Encodable(e) && Kind(e) > 0
    ensures n == |EncodeFields(NodeFields(e))|
    decreases e, 1
  {
    hide EncodeFields, Sov;
    var l;
    match e
    case Ident(ident) => n := SizeName(ident);
    case IntegerLiteral(token, value) =>
      n := SizeTokenField(token);
      l := SizeText(2, value);
      EncodeFieldsConcat([TokenField(token)], TextField(2, value));
      n := n + l;
    case StringLiteral(token, value) =>
      n := SizeTokenField(token);
      l := SizeText(2, value);
      EncodeFieldsConcat([TokenField(token)], TextField(2, value));
      n := n + l;
    case BooleanLiteral(token, truth) =>
      n := SizeTokenField(token);
      l := SizeFlag(truth);
      EncodeFieldsConcat([TokenField(token)], if truth then [Number(2, 1)] else []);
      n := n + l;
    case ArrayLiteral(token, elements) =>
      n := SizeTokenField(token);
      l := SizeList(2, elements);
      EncodeFieldsConcat([TokenField(token)], ListFields(2, elements));
      n := n + l;
    case CallExpression(token, callee, arguments) => n := SizeCall(e);
    case InfixExpression(token, left, operator, right) => n := SizeInfix(e);
    case PrefixExpression(token, operator, right) => n := SizePrefix(e);
  }

  method SizeFlag(truth: bool) returns (n: nat)
    ensures n == |EncodeFields(if truth then [Number(2, 1)] else [])|
  {
    n := 0;
    if truth {
      FieldSize(Number(2, 1));
      assert Sov(1) == 1 by { SovIsExact(1); }
      n := n + 2;
    }
  }

  method SizeOperand(num: nat, e: Expression) returns (n: nat)
    requires num < 16 && EncodableOrNil(e)
    ensures n == |EncodeFields(OperandField(num, e))|
    decreases e, 3
  {
    n := 0;
    if !e.NilExpr? {
      FieldSize(Record(num, Encode(e)));
      var l := Size(e);
      n := n + 1 + l + Sov(l);
    }
  }

  method SizeList(num: nat, es: seq<Expression>) returns (n: nat)
    requires num < 16 && AllEncodable(es)
    ensures n == |EncodeFields(ListFields(num, es))|
    decreases es, 0
  {
    n := 0;
    for k := 0 to |es|
      invariant n + |EncodeFields(ListFields(num, es[k..]))| == |EncodeFields(ListFields(num, es))|
    {
      hide EncodeFields, Sov;
      ListHead(num, es[k..]);
      assert es[k..][0] == es[k] && es[k..][1..] == es[k + 1..];
      FieldSize(Record(num, Encode(es[k])));
      var l := Size(es[k]);
      n := n + 1 + l + Sov(l);
    }
  }

  lemma ListHead(num: nat, es: seq<Expression>)
    requires AllEncodable(es) && es != []
    ensures EncodeFields(ListFields(num, es))
         == EncodeFields([Record(num, Encode(es[0]))]) + EncodeFields(ListFields(num, es[1..]))
  {
    EncodeFieldsConcat([Record(num, Encode(es[0]))], ListFields(num, es[1..]));
  }

  method SizeCall(e: Expression) returns (n: nat)
    requires Encodable(e) && e.CallExpression?
    ensures n == |EncodeFields(NodeFields(e))|
    decreases e, 0
  {
    hide EncodeFields, Sov;
    ghost var head, callee, list := [TokenField(e.token)], CalleeField(e.callee), ListFields(3, e.arguments);
    EncodeFieldsConcat(head, callee);
    EncodeFieldsConcat(head + callee, list);
    n := SizeTokenField(e.token);
    var l := SizeCallee(e.callee);
    n := n + l;
    l := SizeList(3, e.arguments);
    n := n + l;
  }

  method SizeCallee(callee: Option<Identifier>) returns (n: nat)
    requires callee.Some? ==> EncodableToken(callee.value.token) && IsBytes(callee.value.value)
    ensures n == |EncodeFields(CalleeField(callee))|
  {
    n := 0;
    if callee.Some? {
      FieldSize(Record(2, EncodeFields(NameFields(callee.value))));
      var l := SizeName(callee.value);
      n := n + 1 + l + Sov(l);
    }
  }

  method SizeInfix(e: Expression) returns (n: nat)
    requires Encodable(e) && e.InfixExpression?
    ensures n == |EncodeFields(NodeFields(e))|
    decreases e, 0
  {
    hide EncodeFields, Sov;
    ghost var head, left := [TokenField(e.token)], OperandField(2, e.left);
    ghost var op, right := TextField(3, e.operator), OperandField(4, e.right);
    EncodeFieldsConcat(head, left);
    EncodeFieldsConcat(head + left, op);
    EncodeFieldsConcat(head + left + op, right);
    n := SizeTokenField(e.token);
    var l := SizeOperand(2, e.left);
    n := n + l;
    l := SizeText(3, e.operator);
    n := n + l;
    l := SizeOperand(4, e.right);
    n := n + l;
  }

  method SizePrefix(e: Expression) returns (n: nat)
    requires Encodable(e) && e.PrefixExpression?
    ensures n == |EncodeFields(NodeFields(e))|
    decreases e, 0
  {
    hide EncodeFields, Sov;
    ghost var head, op, right := [TokenField(e.token)], TextField(2, e.operator), OperandField(3, e.right);
    EncodeFieldsConcat(head, op);
    EncodeFieldsConcat(head + op, right);
    n := SizeTokenField(e.token);
    var l := SizeText(2, e.operator);
    n := n + l;
    l := SizeOperand(3, e.right);
    n := n + l;
  }

  // ----- Marshal -----

  /** The bytes of the buffer outside of `lo..hi` are as they were. */
  twostate predicate Outside(dAtA: array<Byte>, lo: nat, hi: nat)
    reads dAtA
  {
    forall k | 0 <= k < dAtA.Length && (k < lo || hi <= k) :: dAtA[k] == old(dAtA[k])
  }

  /** Length and tag in front of the `size` bytes of a record that start at `i`. */
  method PutHeader(dAtA: array<Byte>, i: nat, num: nat, size: nat) returns (lo: nat)
    requires num < 16 && size < TWO63 && 1 + Sov(size) <= i <= dAtA.Length
    modifies dAtA
    ensures lo + 1 + Sov(size) == i
    ensures dAtA[lo..i] == [8 * num + 2] + Varint(size)
    ensures Outside(dAtA, lo, i)
  {
    hide Sov, Varint;
    lo := EncodeVarint(dAtA, i, size);
    ghost var length := dAtA[lo..i];
    lo := lo - 1;
    dAtA[lo] := 8 * num + 2;
    assert dAtA[lo..i] == [8 * num + 2] + length;
  }

  method PutText(dAtA: array<Byte>, hi: nat, num: nat, s: string) returns (lo: nat)
    requires num < 16 && IsBytes(s) && |s| < TWO63
    requires |EncodeFields(TextField(num, s))| <= hi <= dAtA.Length
    modifies dAtA
    ensures lo + |EncodeFields(TextField(num, s))| == hi
    ensures dAtA[lo..hi] == EncodeFields(TextField(num, s))
    ensures Outside(dAtA, lo, hi)
  {
    hide Sov, Varint;
    lo := hi;
    if |s| > 0 {
      ghost var f := Record(num, BytesOf(s));
      FieldSize(f);
      RecordBytes(num, f.body);
      hide EncodeFields;
      var i := hi - |s|;
      forall k | 0 <= k < |s| {
        dAtA[i + k] := s[k] as int;
      }
      ghost var body := dAtA[i..hi];
      assert body == BytesOf(s);
      lo := PutHeader(dAtA, i, num, |s|);
      assert dAtA[lo..hi] == dAtA[lo..i] + body;
    }
  }

  /** A record whose body is in place in `i..hi` gets its header. */
  method CloseRecord(dAtA: array<Byte>, hi: nat, num: nat, size: nat) returns (lo: nat)
    requires num < 16 && size <= hi <= dAtA.Length && size < TWO63
    requires |EncodeFields([Record(num, dAtA[hi - size..hi])])| <= hi
    modifies dAtA
    ensures lo + |old(EncodeFields([Record(num, dAtA[hi - size..hi])]))| == hi
    ensures dAtA[lo..hi] == old(EncodeFields([Record(num, dAtA[hi - size..hi])]))
    ensures Outside(dAtA, lo, hi)
  {
    ghost var before, body := dAtA[..], dAtA[hi - size..hi];
    FieldSize(Record(num, body));
    RecordBytes(num, body);
    hide Sov, Varint, EncodeFields;
    lo := PutHeader(dAtA, hi - size, num, size);
    Joined(before, dAtA[..], lo, hi - size, hi, [8 * num + 2] + Varint(size), body);
    Associate([8 * num + 2], Varint(size), body);
  }

  /** A header written in front of a body that stays. */
  lemma Joined(before: seq<Byte>, after: seq<Byte>, lo: nat, mid: nat, hi: nat, header: seq<Byte>, body: seq<Byte>)
    requires lo <= mid <= hi <= |before| == |after| && after[lo..mid] == header && before[mid..hi] == body
    requires forall k | mid <= k < hi :: after[k] == before[k]
    ensures after[lo..hi] == header + body
  {
    assert after[mid..hi] == body;
  }

  method PutNumber(dAtA: array<Byte>, hi: nat, num: nat, v: U64) returns (lo: nat)
    requires num < 16 && |EncodeFields([Number(num, v)])| <= hi <= dAtA.Length
    modifies dAtA
    ensures lo + |EncodeFields([Number(num, v)])| == hi
    ensures dAtA[lo..hi] == EncodeFields([Number(num, v)])
    ensures Outside(dAtA, lo, hi)
  {
    hide Sov, Varint, EncodeFields;
    FieldSize(Number(num, v));
    NumberBytes(num, v);
    lo := EncodeVarint(dAtA, hi, v);
    ghost var number := dAtA[lo..hi];
    lo := lo - 1;
    dAtA[lo] := 8 * num;
    assert dAtA[lo + 1..hi] == number;
    assert dAtA[lo..hi] == [8 * num] + number;
  }

  lemma NumberBytes(num: nat, v: U64)
    requires num < 16
    ensures EncodeFields([Number(num, v)]) == [8 * num] + Varint(v)
  {
    OneField(Number(num, v));
    hide Varint, EncodeFields;
  }

  lemma RecordBytes(num: nat, body: seq<Byte>)
    requires num < 16
    ensures EncodeFields([Record(num, body)]) == [8 * num + 2] + (Varint(|body|) + body)
  {
    OneField(Record(num, body));
    hide Varint, EncodeFields;
    Associate([8 * num + 2], Varint(|body|), body);
  }

  lemma OneField(f: Field)
    ensures EncodeFields([f]) == EncodeField(f)
  {
    hide EncodeField;
    assert [f][1..] == [];
    assert EncodeFields([f]) == EncodeField(f) + [];
  }

  method MarshalToken(dAtA: array<Byte>, hi: nat, t: Token) returns (n: nat)
    requires EncodableToken(t) && |EncodeFields(TokenFields(t))| <= hi <= dAtA.Length < TWO63
    modifies dAtA
    ensures n == |EncodeFields(TokenFields(t))|
    ensures dAtA[hi - n..hi] == EncodeFields(TokenFields(t))
    ensures Outside(dAtA, hi - n, hi)
  {
    hide EncodeFields, FromInt32, TextField;
    ghost var kind := if t.kind != 0 then [Number(1, FromInt32(t.kind))] else [];
    NoFields();
    EncodeFieldsConcat(kind, TextField(2, t.literal));
    TextFits(2, t.literal);
    var i := PutText(dAtA, hi, 2, t.literal);
    if t.kind != 0 {
      ghost var before, j, text := dAtA[..], i, dAtA[i..hi];
      i := PutNumber(dAtA, i, 1, FromInt32(t.kind));
      Joined(before, dAtA[..], i, j, hi, dAtA[i..j], text);
    }
    n := hi - i;
  }

  lemma TextFits(num: nat, s: string)
    requires num < 16 && IsBytes(s)
    ensures |s| <= |EncodeFields(TextField(num, s))|
    ensures TextField(num, s) == [] ==> EncodeFields(TextField(num, s)) == []
  {
    if s != "" {
      FieldSize(Record(num, BytesOf(s)));
    }
  }

  lemma RecordFits(f: Field)
    requires f.num < 16 && f.Record?
    ensures |f.body| < |EncodeFields([f])|
  {
    FieldSize(f);
  }

  /** The token field in front of a node's other fields. */
  method PutToken(dAtA: array<Byte>, hi: nat, t: Token) returns (lo: nat)
    requires EncodableToken(t) && |EncodeFields([TokenField(t)])| <= hi <= dAtA.Length < TWO63
    modifies dAtA
    ensures lo + |EncodeFields([TokenField(t)])| == hi
    ensures dAtA[lo..hi] == EncodeFields([TokenField(t)])
    ensures Outside(dAtA, lo, hi)
  {
    hide EncodeFields, TokenFields;
    RecordFits(TokenField(t));
    var size := MarshalToken(dAtA, hi, t);
    lo := CloseRecord(dAtA, hi, 1, size);
  }

  method MarshalName(dAtA: array<Byte>, hi: nat, ident: Identifier) returns (n: nat)
    requires EncodableToken(ident.token) && IsBytes(ident.value)
    requires |EncodeFields(NameFields(ident))| <= hi <= dAtA.Length < TWO63
    modifies dAtA
    ensures n == |EncodeFields(NameFields(ident))|
    ensures dAtA[hi - n..hi] == EncodeFields(NameFields(ident))
    ensures Outside(dAtA, hi - n, hi)
  {
    n := PutTokenAndText(dAtA, hi, ident.token, ident.value);
  }

  method PutTokenAndText(dAtA: array<Byte>, hi: nat, t: Token, s: string) returns (n: nat)
    requires EncodableToken(t) && IsBytes(s)
    requires |EncodeFields([TokenField(t)] + TextField(2, s))| <= hi <= dAtA.Length < TWO63
    modifies dAtA
    ensures n == |EncodeFields([TokenField(t)] + TextField(2, s))|
    ensures dAtA[hi - n..hi] == EncodeFields([TokenField(t)] + TextField(2, s))
    ensures Outside(dAtA, hi - n, hi)
  {
    hide EncodeFields, TokenFields;
    EncodeFieldsConcat([TokenField(t)], TextField(2, s));
    TextFits(2, s);
    var i := PutText(dAtA, hi, 2, s);
    ghost var before, j, text := dAtA[..], i, dAtA[i..hi];
    i := PutToken(dAtA, i, t);
    Joined(before, dAtA[..], i, j, hi, dAtA[i..j], text);
    n := hi - i;
  }

  /** `Expression.MarshalToSizedBuffer`: the value is written into the last `Size()` bytes. */
  method MarshalExpression(dAtA: array<Byte>, hi: nat, e: Expression) returns (n: nat)
    requires Encodable(e) && |Encode(e)| <= hi <= dAtA.Length < TWO63
    modifies dAtA
    ensures n == |Encode(e)|
    ensures dAtA[hi - n..hi] == Encode(e)
    ensures Outside(dAtA, hi - n, hi)
    decreases e, 2
  {
    hide EncodeFields, NodeFields;
    if e.Unset? {
      NoFields();
      return 0;
    }
    ghost var f := Record(Kind(e), EncodeFields(NodeFields(e)));
    RecordFits(f);
    var size := Size(e);
    var written := MarshalNode(dAtA, hi, e);
    var lo := CloseRecord(dAtA, hi, Kind(e), written);
    assert lo == hi - size;
    return hi - lo;
  }

  lemma NoFields()
    ensures EncodeFields([]) == []
  {
  }

  /** The `MarshalToSizedBuffer` methods of what an oneof holds. */
  method MarshalNode(dAtA: array<Byte>, hi: nat, e: Expression) returns (n: nat)
    requires Encodable(e) && Kind(e) > 0 && |EncodeFields(NodeFields(e))| <= hi <= dAtA.Length < TWO63
    modifies dAtA
    ensures n == |EncodeFields(NodeFields(e))|
    ensures dAtA[hi - n..hi] == EncodeFields(NodeFields(e))
    ensures Outside(dAtA, hi - n, hi)
    decreases e, 1
  {
    hide EncodeFields, TokenFields;
    match e
    case Ident(ident) => n := MarshalName(dAtA, hi, ident);
    case IntegerLiteral(token, value) => n := PutTokenAndText(dAtA, hi, token, value);
    case StringLiteral(token, value) => n := PutTokenAndText(dAtA, hi, token, value);
    case BooleanLiteral(token, truth) => n := MarshalBoolean(dAtA, hi, e);
    case ArrayLiteral(token, elements) => n := MarshalArray(dAtA, hi, e);
    case CallExpression(token, callee, arguments) => n := MarshalCall(dAtA, hi, e);
    case InfixExpression(token, left, operator, right) => n := MarshalInfix(dAtA, hi, e);
    case PrefixExpression(token, operator, right) => n := MarshalPrefix(dAtA, hi, e);
  }

  method MarshalBoolean(dAtA: array<Byte>, hi: nat, e: Expression) returns (n: nat)
    requires Encodable(e) && e.BooleanLiteral? && |EncodeFields(NodeFields(e))| <= hi <= dAtA.Length < TWO63
    modifies dAtA
    ensures n == |EncodeFields(NodeFields(e))|
    ensures dAtA[hi - n..hi] == EncodeFields(NodeFields(e))
    ensures Outside(dAtA, hi - n, hi)
  {
    hide EncodeFields, TokenFields;
    NoFields();
    ghost var flag := if e.truth then [Number(2, 1)] else [];
    EncodeFieldsConcat([TokenField(e.token)], flag);
    var i := hi;
    if e.truth {
      i := PutNumber(dAtA, i, 2, 1);
    }
    assert dAtA[i..hi] == EncodeFields(flag);
    ghost var before, j, text := dAtA[..], i, dAtA[i..hi];
    i := PutToken(dAtA, i, e.token);
    Joined(before, dAtA[..], i, j, hi, dAtA[i..j], text);
    n := hi - i;
  }

  /** List elements, last one first. */
  method PutList(dAtA: array<Byte>, hi: nat, num: nat, es: seq<Expression>) returns (lo: nat)
    requires num < 16 && AllEncodable(es) && |EncodeFields(ListFields(num, es))| <= hi <= dAtA.Length < TWO63
    modifies dAtA
    ensures lo + |EncodeFields(ListFields(num, es))| == hi
    ensures dAtA[lo..hi] == EncodeFields(ListFields(num, es))
    ensures Outside(dAtA, lo, hi)
    decreases es, 0
  {
    hide EncodeFields, Encode;
    lo := hi;
    assert es[|es|..] == [];
    NoFields();
    var iNdEx := |es| - 1;
    while iNdEx >= 0
      invariant -1 <= iNdEx < |es|
      invariant 0 <= lo <= hi && lo + |EncodeFields(ListFields(num, es[iNdEx + 1..]))| == hi
      invariant dAtA[lo..hi] == EncodeFields(ListFields(num, es[iNdEx + 1..]))
      invariant forall k | 0 <= k < dAtA.Length && (k < lo || hi <= k) :: dAtA[k] == old(dAtA[k])
    {
      ghost var before, j, text := dAtA[..], lo, dAtA[lo..hi];
      ListHead(num, es[iNdEx..]);
      assert es[iNdEx..][0] == es[iNdEx] && es[iNdEx..][1..] == es[iNdEx + 1..];
      ListSuffixFits(num, es, iNdEx);
      lo := PutExpression(dAtA, lo, num, es[iNdEx]);
      Joined(before, dAtA[..], lo, j, hi, dAtA[lo..j], text);
      iNdEx := iNdEx - 1;
    }
    assert es[0..] == es;
  }

  lemma {:induction false} ListSuffixFits(num: nat, es: seq<Expression>, k: nat)
    requires AllEncodable(es) && k <= |es|
    ensures |EncodeFields(ListFields(num, es[k..]))| <= |EncodeFields(ListFields(num, es))|
  {
    hide EncodeFields, Encode;
    if k > 0 {
      ListHead(num, es[k - 1..]);
      assert es[k - 1..][1..] == es[k..];
      ListSuffixFits(num, es, k - 1);
    } else {
      assert es[0..] == es;
    }
  }

  /** A message field that holds an expression. */
  method PutExpression(dAtA: array<Byte>, hi: nat, num: nat, e: Expression) returns (lo: nat)
    requires num < 16 && Encodable(e) && |EncodeFields([Record(num, Encode(e))])| <= hi <= dAtA.Length < TWO63
    modifies dAtA
    ensures lo + |EncodeFields([Record(num, Encode(e))])| == hi
    ensures dAtA[lo..hi] == EncodeFields([Record(num, Encode(e))])
    ensures Outside(dAtA, lo, hi)
    decreases e, 3
  {
    hide EncodeFields, Encode;
    RecordFits(Record(num, Encode(e)));
    var size := MarshalExpression(dAtA, hi, e);
    lo := CloseRecord(dAtA, hi, num, size);
  }

  method PutOperand(dAtA: array<Byte>, hi: nat, num: nat, e: Expression) returns (lo: nat)
    requires num < 16 && EncodableOrNil(e) && |EncodeFields(OperandField(num, e))| <= hi <= dAtA.Length < TWO63
    modifies dAtA
    ensures lo + |EncodeFields(OperandField(num, e))| == hi
    ensures dAtA[lo..hi] == EncodeFields(OperandField(num, e))
    ensures Outside(dAtA, lo, hi)
    decreases e, 4
  {
    hide EncodeFields;
    lo := hi;
    if e.NilExpr? {
      NoFields();
    } else {
      lo := PutExpression(dAtA, lo, num, e);
    }
  }

  method PutCallee(dAtA: array<Byte>, hi: nat, callee: Option<Identifier>) returns (lo: nat)
    requires callee.Some? ==> EncodableToken(callee.value.token) && IsBytes(callee.value.value)
    requires |EncodeFields(CalleeField(callee))| <= hi <= dAtA.Length < TWO63
    modifies dAtA
    ensures lo + |EncodeFields(CalleeField(callee))| == hi
    ensures dAtA[lo..hi] == EncodeFields(CalleeField(callee))
    ensures Outside(dAtA, lo, hi)
  {
    hide EncodeFields, NameFields;
    lo := hi;
    if callee.None? {
      NoFields();
    } else {
      RecordFits(Record(2, EncodeFields(NameFields(callee.value))));
      var size := MarshalName(dAtA, hi, callee.value);
      lo := CloseRecord(dAtA, hi, 2, size);
    }
  }

  method MarshalArray(dAtA: array<Byte>, hi: nat, e: Expression) returns (n: nat)
    requires Encodable(e) && e.ArrayLiteral? && |EncodeFields(NodeFields(e))| <= hi <= dAtA.Length < TWO63
    modifies dAtA
    ensures n == |EncodeFields(NodeFields(e))|
    ensures dAtA[hi - n..hi] == EncodeFields(NodeFields(e))
    ensures Outside(dAtA, hi - n, hi)
    decreases e, 0
  {
    hide EncodeFields, TokenFields, ListFields;
    EncodeFieldsConcat([TokenField(e.token)], ListFields(2, e.elements));
    var i := PutList(dAtA, hi, 2, e.elements);
    ghost var before, j, text := dAtA[..], i, dAtA[i..hi];
    i := PutToken(dAtA, i, e.token);
    Joined(before, dAtA[..], i, j, hi, dAtA[i..j], text);
    n := hi - i;
  }

  method MarshalCall(dAtA: array<Byte>, hi: nat, e: Expression) returns (n: nat)
    requires Encodable(e) && e.CallExpression? && |EncodeFields(NodeFields(e))| <= hi <= dAtA.Length < TWO63
    modifies dAtA
    ensures n == |EncodeFields(NodeFields(e))|
    ensures dAtA[hi - n..hi] == EncodeFields(NodeFields(e))
    ensures Outside(dAtA, hi - n, hi)
    decreases e, 0
  {
    hide EncodeFields, TokenFields, ListFields, CalleeField;
    ghost var head, callee, list := [TokenField(e.token)], CalleeField(e.callee), ListFields(3, e.arguments);
    EncodeFieldsConcat(head, callee);
    EncodeFieldsConcat(head + callee, list);
    var i := PutList(dAtA, hi, 3, e.arguments);
    ghost var before, j, text := dAtA[..], i, dAtA[i..hi];
    i := PutCallee(dAtA, i, e.callee);
    Joined(before, dAtA[..], i, j, hi, dAtA[i..j], text);
    before, j, text := dAtA[..], i, dAtA[i..hi];
    i := PutToken(dAtA, i, e.token);
    Joined(before, dAtA[..], i, j, hi, dAtA[i..j], text);
    n := hi - i;
  }

  method MarshalInfix(dAtA: array<Byte>, hi: nat, e: Expression) returns (n: nat)
    requires Encodable(e) && e.InfixExpression? && |EncodeFields(NodeFields(e))| <= hi <= dAtA.Length < TWO63
    modifies dAtA
    ensures n == |EncodeFields(NodeFields(e))|
    ensures dAtA[hi - n..hi] == EncodeFields(NodeFields(e))
    ensures Outside(dAtA, hi - n, hi)
    decreases e, 0
  {
    hide EncodeFields, TokenFields, OperandField, TextField;
    ghost var head, left := [TokenField(e.token)], OperandField(2, e.left);
    ghost var tail := TextField(3, e.operator) + OperandField(4, e.right);
    assert NodeFields(e) == head + left + tail;
    EncodeFieldsConcat(head, left);
    EncodeFieldsConcat(head + left, tail);
    var i := PutTextAndOperand(dAtA, hi, 3, e.operator, e.right);
    ghost var before, j, text := dAtA[..], i, dAtA[i..hi];
    i := PutOperand(dAtA, i, 2, e.left);
    Joined(before, dAtA[..], i, j, hi, dAtA[i..j], text);
    before, j, text := dAtA[..], i, dAtA[i..hi];
    i := PutToken(dAtA, i, e.token);
    Joined(before, dAtA[..], i, j, hi, dAtA[i..j], text);
    n := hi - i;
  }

  /** An operator in field `num` and the operand behind it. */
  method PutTextAndOperand(dAtA: array<Byte>, hi: nat, num: nat, s: string, e: Expression) returns (lo: nat)
    requires num < 15 && IsBytes(s) && EncodableOrNil(e)
    requires |EncodeFields(TextField(num, s) + OperandField(num + 1, e))| <= hi <= dAtA.Length < TWO63
    modifies dAtA
    ensures lo + |EncodeFields(TextField(num, s) + OperandField(num + 1, e))| == hi
    ensures dAtA[lo..hi] == EncodeFields(TextField(num, s) + OperandField(num + 1, e))
    ensures Outside(dAtA, lo, hi)
    decreases e, 5
  {
    hide EncodeFields, OperandField, TextField;
    EncodeFieldsConcat(TextField(num, s), OperandField(num + 1, e));
    TextFits(num, s);
    lo := PutOperand(dAtA, hi, num + 1, e);
    ghost var before, j, text := dAtA[..], lo, dAtA[lo..hi];
    lo := PutText(dAtA, lo, num, s);
    Joined(before, dAtA[..], lo, j, hi, dAtA[lo..j], text);
  }

  method MarshalPrefix(dAtA: array<Byte>, hi: nat, e: Expression) returns (n: nat)
    requires Encodable(e) && e.PrefixExpression? && |EncodeFields(NodeFields(e))| <= hi <= dAtA.Length < TWO63
    modifies dAtA
    ensures n == |EncodeFields(NodeFields(e))|
    ensures dAtA[hi - n..hi] == EncodeFields(NodeFields(e))
    ensures Outside(dAtA, hi - n, hi)
    decreases e, 0
  {
    hide EncodeFields, TokenFields, OperandField, TextField;
    ghost var head := [TokenField(e.token)];
    ghost var tail := TextField(2, e.operator) + OperandField(3, e.right);
    assert NodeFields(e) == head + tail;
    EncodeFieldsConcat(head, tail);
    var i := PutTextAndOperand(dAtA, hi, 2, e.operator, e.right);
    ghost var before, j, text := dAtA[..], i, dAtA[i..hi];
    i := PutToken(dAtA, i, e.token);
    Joined(before, dAtA[..], i, j, hi, dAtA[i..j], text);
    n := hi - i;
  }

  /** The buffer of exactly `Size()` bytes is filled exactly: its contents are the encoding. */
  method Marshal(e: Expression) returns (dAtA: array<Byte>)
    requires Encodable(e) && |Encode(e)| < TWO63
    ensures fresh(dAtA) && dAtA[..] == Encode(e)
  {
    hide Encode;
    var size := Size(e);
    dAtA := new Byte[size];
    var n := MarshalExpression(dAtA, size, e);
    assert dAtA[..] == dAtA[size - n..size];
  }

  /** A tree that was written and read again. */
  method MarshalUnmarshal(e: Expression) returns (r: Result<Expression>)
    requires Encodable(e) && |Encode(e)| < TWO63
    ensures r == Ok(e)
  {
    hide Encode, Unmarshal;
    var dAtA := Marshal(e);
    DecodeOfEncode(e);
    var m := UnmarshalMessage(dAtA[..], ExpressionMessage(Unset));
    r := if m.Err? then Err(m.error) else Ok(m.value.e);
  }
}
