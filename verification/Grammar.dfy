/** The grammar of Shield, written down without the parser: the parser accepts exactly the
    programs that start with a derivation, and returns its tree. */
module Grammar {
  import opened Wrappers
  import opened Sequences
  import opened Tokens
  import opened Lexing
  import opened Ast
  import opened Parsing
  import opened Printing
  import Decimal

  const OPEN := Token(LPAREN, "(")
  const CLOSE := Token(RPAREN, ")")
  const OPEN_LIST := Token(LBRACKET, "[")
  const CLOSE_LIST := Token(RBRACKET, "]")
  const SEPARATOR := Token(COMMA, ",")

  /** Derivations. Parentheses leave no trace in the tree, but they do here. */
  datatype Syntax =
    | Atom(token: Token)
    | Group(inner: Syntax)
    | List(elements: seq<Syntax>)
    | Call(callee: Syntax, arguments: seq<Syntax>)
    | Minus(token: Token, operand: Syntax)
    | Binary(left: Syntax, op: Token, right: Syntax)

  /** The program text, as tokens. */
  function TokensOf(x: Syntax): (ts: seq<Token>)
    ensures ts != []
    decreases x, 0
  {
    match x
    case Atom(token) => [token]
    case Group(inner) => [OPEN] + TokensOf(inner) + [CLOSE]
    case List(elements) => [OPEN_LIST] + ItemTokens(elements) + [CLOSE_LIST]
    case Call(callee, arguments) => TokensOf(callee) + ([OPEN] + ItemTokens(arguments) + [CLOSE])
    case Minus(token, operand) => [token] + TokensOf(operand)
    case Binary(left, op, right) => TokensOf(left) + ([op] + TokensOf(right))
  }

  function ItemTokens(xs: seq<Syntax>): seq<Token>
    decreases xs, 0
  {
    if xs == [] then [] else TokensOf(xs[0]) + TailTokensOf(xs[1..])
  }

  function TailTokensOf(xs: seq<Syntax>): seq<Token>
    decreases xs, 1
  {
    if xs == [] then [] else [SEPARATOR] + ItemTokens(xs)
  }

  function LastOf(x: Syntax): Token { TokensOf(x)[|TokensOf(x)| - 1] }

  /** What the program means: the tree without parentheses. */
  function TreeOf(x: Syntax): Expression
    decreases x, 0
  {
    match x
    case Atom(token) => AtomTree(token)
    case Group(inner) => TreeOf(inner)
    case List(elements) => ArrayLiteral(OPEN_LIST, TreesOf(elements))
    case Call(callee, arguments) =>
      var name := TreeOf(callee);
      CallExpression(OPEN, if name.Ident? then Some(name.ident) else None, TreesOf(arguments))
    case Minus(token, operand) => PrefixExpression(token, token.literal, TreeOf(operand))
    case Binary(left, op, right) => InfixExpression(op, TreeOf(left), op.literal, TreeOf(right))
  }

  function TreesOf(xs: seq<Syntax>): (es: seq<Expression>)
    ensures |es| == |xs|
    decreases xs, 0
  {
    if xs == [] then [] else [TreeOf(xs[0])] + TreesOf(xs[1..])
  }

  function AtomTree(token: Token): Expression {
    if token.kind == IDENT then Ident(Identifier(token, token.literal))
    else if token.kind == STRING then StringLiteral(token, token.literal)
    else if token.kind == INT then
      match Decimal.SetString(token.literal)
      case Some(n) => IntegerLiteral(token, Decimal.String(n))
      case None => NilExpr
    else BooleanLiteral(token, token.kind == TRUE)
  }

  /** The levels of binding: six of binary operators, and operands above them. */
  function Level(x: Syntax): int { if x.Binary? then Strength(x.op.literal) else PREFIX }

  function Strength(op: string): int {
    if op == "||" then 2
    else if op == "&&" then 3
    else if op in ["==", "!="] then 4
    else if op in [">", ">=", "<", "<="] then 5
    else if op in ["+", "-"] then 6
    else if op in ["*", "/"] then 7
    else 0
  }

  /** The rules: names are called, minus signs take operands, and binary operators of one level
      associate to the left. */
  predicate Derivation(x: Syntax)
    decreases x, 0
  {
    match x
    case Atom(token) =>
      WellLexed(token) && token.kind in {IDENT, INT, STRING, TRUE, FALSE}
    case Group(inner) => Derivation(inner)
    case List(elements) => Derivations(elements)
    case Call(callee, arguments) => Derivation(callee) && TreeOf(callee).Ident? && Derivations(arguments)
    case Minus(token, operand) =>
      WellLexed(token) && token.kind == SUB && Derivation(operand) && !operand.Binary?
    case Binary(left, op, right) =>
      && WellLexed(op) && BinaryOperator(op.kind) && Derivation(left) && Derivation(right)
      && Level(left) >= Strength(op.literal) && Level(right) > Strength(op.literal)
  }

  predicate Derivations(xs: seq<Syntax>) { forall i | 0 <= i < |xs| :: Derivation(xs[i]) }

  /** These are all binary operators, and the parser's table has these levels. */
  lemma StrengthIsPrecedence(op: string)
    ensures IsOperator(op) <==> LOWEST < Strength(op) < PREFIX
    ensures IsOperator(op) ==> Precedence(OperatorType(op)) == Strength(op) && BinaryOperator(OperatorType(op))
  {
    if |op| == 1 {
      assert op == [op[0]];
    } else if |op| == 2 {
      assert op == [op[0], op[1]];
    }
  }

  lemma StrengthOf(op: Token)
    requires WellLexed(op) && BinaryOperator(op.kind)
    ensures LOWEST < Strength(op.literal) == Precedence(op.kind) < PREFIX
  {
    StrengthIsPrecedence(op.literal);
  }

  // ----- Steps of the parser -----

  lemma LoopTurn(ts: seq<Token>, errs: seq<ParseError>, p: int, left: Expression, right: Expression, ts': seq<Token>)
    requires BinaryOperator(Ahead(ts).kind) && p < Precedence(Ahead(ts).kind)
    requires ParseExpression(Advance(Advance(ts)), errs, Precedence(Ahead(ts).kind)) == Parsed(right, ts', errs)
    ensures ParseInfixes(ts, errs, p, left)
         == ParseInfixes(ts', errs, p, InfixExpression(Ahead(ts), left, Ahead(ts).literal, right))
  {
    hide ParseExpression;
  }

  lemma GroupPrefix(inner: seq<Token>, last: Token, rest: seq<Token>, errs: seq<ParseError>, value: Expression)
    requires ParseExpression(inner, errs, LOWEST) == Parsed(value, [last] + ([CLOSE] + rest), errs)
    ensures HasPrefix(OPEN.kind) && ParsePrefix([OPEN] + inner, errs) == Parsed(value, [CLOSE] + rest, errs)
  {
    hide ParseExpression, ParseList;
    Front(OPEN, inner);
    Front(last, [CLOSE] + rest);
    assert ParsePrefix([OPEN] + inner, errs) == ParseGrouped([OPEN] + inner, errs);
  }

  lemma ListPrefix(behind: seq<Token>, ts': seq<Token>, errs: seq<ParseError>, elements: seq<Expression>)
    requires ParseList([OPEN_LIST] + behind, errs, RBRACKET) == Parsed(elements, ts', errs)
    ensures HasPrefix(OPEN_LIST.kind)
    ensures ParsePrefix([OPEN_LIST] + behind, errs) == Parsed(ArrayLiteral(OPEN_LIST, elements), ts', errs)
  {
    hide ParseExpression, ParseList, ParseGrouped;
    Front(OPEN_LIST, behind);
  }

  lemma MinusPrefix(token: Token, behind: seq<Token>, ts': seq<Token>, errs: seq<ParseError>, operand: Expression)
    requires token.kind == SUB && ParseExpression(behind, errs, PREFIX) == Parsed(operand, ts', errs)
    ensures HasPrefix(token.kind)
    ensures ParsePrefix([token] + behind, errs) == Parsed(PrefixExpression(token, token.literal, operand), ts', errs)
  {
    hide ParseExpression, ParseList, ParseGrouped;
    Front(token, behind);
  }

  /** One turn over the arguments of a call. */
  lemma CallTurn(ts: seq<Token>, errs: seq<ParseError>, p: int, name: Identifier, args: seq<Expression>, ts': seq<Token>)
    requires Ahead(ts) == OPEN && p < CALL
    requires ParseList(Advance(ts), errs, RPAREN) == Parsed(args, ts', errs)
    ensures ParseInfixes(ts, errs, p, Ident(name)) == ParseInfixes(ts', errs, p, CallExpression(OPEN, Some(name), args))
  {
    hide ParseList, ParseExpression;
    assert ParseInfix(Advance(ts), errs, Ident(name)) == Parsed(CallExpression(OPEN, Some(name), args), ts', errs);
  }

  // ----- Derivations parse to their trees -----

  /** The token behind the derivation does not bind into it. */
  predicate Ends(x: Syntax, rest: seq<Token>) {
    match x
    case Binary(_, _, _) => Precedence(Cur(rest).kind) <= Level(x)
    case Minus(_, _) => Precedence(Cur(rest).kind) <= PREFIX
    case _ => true
  }

  lemma Front(t: Token, ts: seq<Token>)
    ensures Cur([t] + ts) == t && Advance([t] + ts) == ts && Ahead([t] + ts) == Cur(ts)
  {
    assert ([t] + ts)[1..] == ts;
  }

  /** On the tokens of a derivation, with any tokens behind them that do not bind into it, the
      parser arrives at its loop with the tree as the left operand. */
  lemma {:induction false} DerivationParses(x: Syntax, rest: seq<Token>, errs: seq<ParseError>, p: int)
    requires Derivation(x) && Ends(x, rest) && p < CALL && (x.Binary? ==> p < Level(x))
    ensures ParseExpression(TokensOf(x) + rest, errs, p) == ParseInfixes([LastOf(x)] + rest, errs, p, TreeOf(x))
    decreases x, 1
  {
    match x
    case Atom(_) => AtomParses(x, rest, errs, p);
    case Group(_) => GroupParses(x, rest, errs, p);
    case List(_) => ListParses(x, rest, errs, p);
    case Call(_, _) => CallParses(x, rest, errs, p);
    case Minus(_, _) => MinusParses(x, rest, errs, p);
    case Binary(_, _, _) => BinaryParses(x, rest, errs, p);
  }

  lemma AtomParses(x: Syntax, rest: seq<Token>, errs: seq<ParseError>, p: int)
    requires Derivation(x) && x.Atom?
    ensures ParseExpression(TokensOf(x) + rest, errs, p) == ParseInfixes([LastOf(x)] + rest, errs, p, TreeOf(x))
  {
    hide ParseExpression, ParseInfixes, ParseList, ParseGrouped;
    if x.token.kind == INT {
      Decimal.StringOfSetString(x.token.literal);
    }
    LoopEntered([x.token] + rest, errs, p);
  }

  lemma {:induction false} GroupParses(x: Syntax, rest: seq<Token>, errs: seq<ParseError>, p: int)
    requires Derivation(x) && x.Group?
    ensures ParseExpression(TokensOf(x) + rest, errs, p) == ParseInfixes([LastOf(x)] + rest, errs, p, TreeOf(x))
    decreases x, 0
  {
    var inner, last := TokensOf(x.inner), LastOf(x.inner);
    InnerParses(x.inner, [CLOSE] + rest, errs);
    GroupTokens(x);
    Front(OPEN, inner + ([CLOSE] + rest));
    hide *;
    Associate4([OPEN], inner, [CLOSE], rest);
    GroupPrefix(inner + ([CLOSE] + rest), last, rest, errs, TreeOf(x.inner));
    LoopEntered([OPEN] + (inner + ([CLOSE] + rest)), errs, p);
  }

  lemma GroupTokens(x: Syntax)
    requires x.Group?
    ensures TokensOf(x) == [OPEN] + TokensOf(x.inner) + [CLOSE] && LastOf(x) == CLOSE && TreeOf(x) == TreeOf(x.inner)
  {}

  /** A whole expression in front of a token that ends it. */
  lemma {:induction false} InnerParses(x: Syntax, rest: seq<Token>, errs: seq<ParseError>)
    requires Derivation(x) && Precedence(Cur(rest).kind) <= LOWEST
    ensures ParseExpression(TokensOf(x) + rest, errs, LOWEST) == Parsed(TreeOf(x), [LastOf(x)] + rest, errs)
    decreases x, 2
  {
    hide ParseExpression, ParseInfixes, TokensOf, TreeOf;
    if x.Binary? {
      StrengthOf(x.op);
    }
    DerivationParses(x, rest, errs, LOWEST);
    Front(LastOf(x), rest);
    LoopLeft([LastOf(x)] + rest, errs, LOWEST, TreeOf(x));
  }

  lemma {:induction false} ListParses(x: Syntax, rest: seq<Token>, errs: seq<ParseError>, p: int)
    requires Derivation(x) && x.List?
    ensures ParseExpression(TokensOf(x) + rest, errs, p) == ParseInfixes([LastOf(x)] + rest, errs, p, TreeOf(x))
    decreases x, 0
  {
    var items := ItemTokens(x.elements);
    var behind := items + ([CLOSE_LIST] + rest);
    ItemsParse(OPEN_LIST, x.elements, CLOSE_LIST, rest, errs);
    ListTokensOf(x);
    Front(OPEN_LIST, behind);
    hide *;
    Associate4([OPEN_LIST], items, [CLOSE_LIST], rest);
    ListPrefix(behind, [CLOSE_LIST] + rest, errs, TreesOf(x.elements));
    LoopEntered([OPEN_LIST] + behind, errs, p);
  }

  lemma ListTokensOf(x: Syntax)
    requires x.List?
    ensures TokensOf(x) == [OPEN_LIST] + ItemTokens(x.elements) + [CLOSE_LIST] && LastOf(x) == CLOSE_LIST
    ensures TreeOf(x) == ArrayLiteral(OPEN_LIST, TreesOf(x.elements))
  {}

  lemma {:induction false} CallParses(x: Syntax, rest: seq<Token>, errs: seq<ParseError>, p: int)
    requires Derivation(x) && x.Call? && p < CALL
    ensures ParseExpression(TokensOf(x) + rest, errs, p) == ParseInfixes([LastOf(x)] + rest, errs, p, TreeOf(x))
    decreases x, 0
  {
    var name, items := TreeOf(x.callee).ident, ItemTokens(x.arguments);
    var behind := [OPEN] + (items + ([CLOSE] + rest));
    NamesAreAtoms(x.callee);
    DerivationParses(x.callee, behind, errs, p);
    ItemsParse(OPEN, x.arguments, CLOSE, rest, errs);
    CallTokens(x, name);
    hide ParseExpression, ParseInfixes, ParseList, TokensOf, TreeOf;
    Front(LastOf(x.callee), behind);
    Front(OPEN, items + ([CLOSE] + rest));
    CallTurn([LastOf(x.callee)] + behind, errs, p, name, TreesOf(x.arguments), [CLOSE] + rest);
    Associate(TokensOf(x.callee), [OPEN] + items + [CLOSE], rest);
    Associate4([OPEN], items, [CLOSE], rest);
  }

  lemma CallTokens(x: Syntax, name: Identifier)
    requires x.Call? && TreeOf(x.callee) == Ident(name)
    ensures TokensOf(x) == TokensOf(x.callee) + ([OPEN] + ItemTokens(x.arguments) + [CLOSE]) && LastOf(x) == CLOSE
    ensures TreeOf(x) == CallExpression(OPEN, Some(name), TreesOf(x.arguments))
  {}

  /** A name, possibly in parentheses. */
  lemma {:induction false} NamesAreAtoms(x: Syntax)
    requires Derivation(x) && TreeOf(x).Ident?
    ensures x.Atom? || x.Group?
  {}

  lemma {:induction false} MinusParses(x: Syntax, rest: seq<Token>, errs: seq<ParseError>, p: int)
    requires Derivation(x) && x.Minus? && Ends(x, rest)
    ensures ParseExpression(TokensOf(x) + rest, errs, p) == ParseInfixes([LastOf(x)] + rest, errs, p, TreeOf(x))
    decreases x, 0
  {
    var operand, last := TokensOf(x.operand), LastOf(x.operand);
    DerivationParses(x.operand, rest, errs, PREFIX);
    MinusTokens(x);
    Front(last, rest);
    Front(x.token, operand + rest);
    LoopLeft([last] + rest, errs, PREFIX, TreeOf(x.operand));
    hide *;
    Associate([x.token], operand, rest);
    MinusPrefix(x.token, operand + rest, [last] + rest, errs, TreeOf(x.operand));
    LoopEntered([x.token] + (operand + rest), errs, p);
  }

  lemma {:induction false} BinaryParses(x: Syntax, rest: seq<Token>, errs: seq<ParseError>, p: int)
    requires Derivation(x) && x.Binary? && Ends(x, rest) && p < Level(x)
    ensures ParseExpression(TokensOf(x) + rest, errs, p) == ParseInfixes([LastOf(x)] + rest, errs, p, TreeOf(x))
    decreases x, 0
  {
    var behind := [x.op] + (TokensOf(x.right) + rest);
    var lefts, rights, lastLeft, lastRight := TokensOf(x.left), TokensOf(x.right), LastOf(x.left), LastOf(x.right);
    StrengthOf(x.op);
    DerivationParses(x.left, behind, errs, p);
    DerivationParses(x.right, rest, errs, Level(x));
    BinaryTokens(x);
    hide ParseExpression, ParseInfixes, TokensOf, TreeOf, Derivation;
    Front(lastRight, rest);
    LoopLeft([lastRight] + rest, errs, Level(x), TreeOf(x.right));
    Front(lastLeft, behind);
    Front(x.op, rights + rest);
    LoopTurn([lastLeft] + behind, errs, p, TreeOf(x.left), TreeOf(x.right), [lastRight] + rest);
    Associate(lefts, [x.op] + rights, rest);
    Associate([x.op], rights, rest);
  }

  lemma {:induction false} ItemsParse(open: Token, xs: seq<Syntax>, close: Token, rest: seq<Token>, errs: seq<ParseError>)
    requires Derivations(xs) && (close == CLOSE || close == CLOSE_LIST)
    ensures ParseList([open] + (ItemTokens(xs) + ([close] + rest)), errs, close.kind)
         == Parsed(TreesOf(xs), [close] + rest, errs)
    decreases xs, 1
  {
    hide ParseExpression, ParseInfixes, ParseListTail, TokensOf, TreeOf, Derivation;
    var tail := [close] + rest;
    if xs == [] {
      AppendNothing(tail);
      Front(open, tail);
      Front(close, rest);
    } else {
      var behind := TailTokensOf(xs[1..]) + tail;
      TailEnds(xs[1..], tail);
      InnerParses(xs[0], behind, errs);
      Associate(TokensOf(xs[0]), TailTokensOf(xs[1..]), tail);
      ItemIsNotEnd(xs[0], behind);
      FirstItem(open, TokensOf(xs[0]) + behind, errs, close.kind, TreeOf(xs[0]), [LastOf(xs[0])] + behind);
      TailParses(LastOf(xs[0]), xs[1..], close, rest, errs, [TreeOf(xs[0])]);
    }
  }

  lemma FirstItem(open: Token, ts: seq<Token>, errs: seq<ParseError>, close: TokenType, item: Expression, ts': seq<Token>)
    requires ParseExpression(ts, errs, LOWEST) == Parsed(item, ts', errs) && Cur(ts).kind != close
    ensures ParseList([open] + ts, errs, close) == ParseListTail(ts', errs, close, [item])
  {
    hide ParseExpression, ParseListTail;
    Front(open, ts);
  }

  lemma NextItem(last: Token, ts: seq<Token>, errs: seq<ParseError>, close: TokenType, args: seq<Expression>,
      item: Expression, ts': seq<Token>)
    requires ParseExpression(ts, errs, LOWEST) == Parsed(item, ts', errs)
    ensures ParseListTail([last] + ([SEPARATOR] + ts), errs, close, args)
         == ParseListTail(ts', errs, close, args + [item])
  {
    hide ParseExpression;
    Front(last, [SEPARATOR] + ts);
    Front(SEPARATOR, ts);
  }

  lemma ItemsEnd(last: Token, close: Token, rest: seq<Token>, errs: seq<ParseError>, args: seq<Expression>)
    requires close == CLOSE || close == CLOSE_LIST
    ensures ParseListTail([last] + ([close] + rest), errs, close.kind, args) == Parsed(args, [close] + rest, errs)
  {
    hide ParseExpression;
    Front(last, [close] + rest);
    Front(close, rest);
  }

  lemma TailEnds(xs: seq<Syntax>, tail: seq<Token>)
    requires tail != [] && Precedence(tail[0].kind) <= LOWEST
    ensures Precedence(Cur(TailTokensOf(xs) + tail).kind) <= LOWEST
  {
    hide TokensOf;
    if xs == [] {
      AppendNothing(tail);
    }
  }

  lemma {:induction false} ItemIsNotEnd(x: Syntax, rest: seq<Token>)
    requires Derivation(x)
    ensures HasPrefix(Cur(TokensOf(x) + rest).kind)
  {
    match x
    case Call(callee, _) =>
      NamesAreAtoms(callee);
      ItemIsNotEnd(callee, rest);
    case Binary(left, _, _) =>
      ItemIsNotEnd(left, rest);
    case _ =>
  }

  lemma {:induction false} TailParses(last: Token, xs: seq<Syntax>, close: Token, rest: seq<Token>,
                                      errs: seq<ParseError>, args: seq<Expression>)
    requires Derivations(xs) && (close == CLOSE || close == CLOSE_LIST)
    ensures ParseListTail([last] + (TailTokensOf(xs) + ([close] + rest)), errs, close.kind, args)
         == Parsed(args + TreesOf(xs), [close] + rest, errs)
    decreases xs, 2
  {
    hide ParseExpression, ParseInfixes, ParseListTail, TokensOf, TreeOf, Derivation;
    var tail := [close] + rest;
    if xs == [] {
      AppendNothing(tail);
      AppendNothing(args);
      ItemsEnd(last, close, rest, errs, args);
    } else {
      var first, behind := TokensOf(xs[0]), TailTokensOf(xs[1..]) + tail;
      assert TailTokensOf(xs) == [SEPARATOR] + (first + TailTokensOf(xs[1..]));
      Associate4([SEPARATOR], first, TailTokensOf(xs[1..]), tail);
      Associate([SEPARATOR], first, TailTokensOf(xs[1..]));
      TailEnds(xs[1..], tail);
      InnerParses(xs[0], behind, errs);
      NextItem(last, first + behind, errs, close.kind, args, TreeOf(xs[0]), [LastOf(xs[0])] + behind);
      TailParses(LastOf(xs[0]), xs[1..], close, rest, errs, args + [TreeOf(xs[0])]);
      Associate(args, [TreeOf(xs[0])], TreesOf(xs[1..]));
    }
  }

  // ----- What parses without errors is a derivation -----

  /** From `ts` to `end`, whose first token is the last one of `x`, the tokens are those of `x`. */
  ghost predicate Derives(x: Syntax, ts: seq<Token>, end: seq<Token>) {
    && Derivation(x) && AllWellLexed(end)
    && end != [] && end[0] == LastOf(x)
    && ts == TokensOf(x) + end[1..]
  }

  ghost predicate DeriveItems(xs: seq<Syntax>, ts: seq<Token>, end: seq<Token>, close: TokenType) {
    && Derivations(xs) && AllWellLexed(end)
    && end != [] && end[0].kind == close
    && ts == ItemTokens(xs) + end
  }

  predicate Clean<T>(r: Outcome<T>) { r.Parsed? && r.errors == [] }

  lemma PunctuationIsFixed(t: Token)
    requires WellLexed(t)
    ensures t.kind == LPAREN ==> t == OPEN
    ensures t.kind == RPAREN ==> t == CLOSE
    ensures t.kind == LBRACKET ==> t == OPEN_LIST
    ensures t.kind == RBRACKET ==> t == CLOSE_LIST
    ensures t.kind == COMMA ==> t == SEPARATOR
  {
    if |t.literal| == 1 {
      assert t.literal == [t.literal[0]];
    }
  }

  lemma HeadAndRest(ts: seq<Token>)
    requires ts != []
    ensures ts == [ts[0]] + ts[1..] && Advance(ts) == ts[1..]
    ensures |ts| >= 2 ==> Advance(ts)[0] == Ahead(ts)
    ensures Ahead(ts).kind != EOF ==> |ts| >= 2
  {}

  lemma {:induction false} ExpressionDerives(ts: seq<Token>, p: int) returns (x: Syntax)
    requires AllWellLexed(ts) && LOWEST <= p < CALL && Clean(ParseExpression(ts, [], p))
    ensures var r := ParseExpression(ts, [], p);
            && Derives(x, ts, r.ts) && TreeOf(x) == r.value
            && (x.Binary? ==> p < Level(x)) && Precedence(Ahead(r.ts).kind) <= p
    decreases |ts|, 5
  {
    hide ParsePrefix, ParseInfixes, Derivation, TreeOf, TokensOf;
    var first := PrefixDerives(ts);
    var ts' := ParsePrefix(ts, []).ts;
    x := LoopDerives(first, ts', p);
  }

  lemma {:induction false} PrefixDerives(ts: seq<Token>) returns (x: Syntax)
    requires AllWellLexed(ts) && HasPrefix(Cur(ts).kind) && Clean(ParsePrefix(ts, []))
    ensures Derives(x, ts, ParsePrefix(ts, []).ts) && TreeOf(x) == ParsePrefix(ts, []).value && !x.Binary?
    decreases |ts|, 4
  {
    hide ParseExpression, ParseInfixes, ParseList, ParseGrouped;
    HeadAndRest(ts);
    var token := ts[0];
    PunctuationIsFixed(token);
    if token.kind == LBRACKET {
      x := ListDerives(ts);
    } else if token.kind == LPAREN {
      x := GroupDerives(ts);
    } else if token.kind == SUB {
      x := MinusDerives(ts);
    } else {
      x := Atom(token);
    }
  }

  lemma {:induction false} MinusDerives(ts: seq<Token>) returns (x: Syntax)
    requires AllWellLexed(ts) && Cur(ts).kind == SUB && Clean(ParsePrefix(ts, []))
    ensures Derives(x, ts, ParsePrefix(ts, []).ts) && TreeOf(x) == ParsePrefix(ts, []).value && !x.Binary?
    decreases |ts|, 3
  {
    hide ParseExpression, ParsePrefix, ParseInfixes, TokensOf, TreeOf, Derivation, Derives, WellLexed, Level;
    MinusRun(ts);
    var operand := ExpressionDerives(ts[1..], PREFIX);
    DerivesIsDerivation(operand, ts[1..], ParsePrefix(ts, []).ts);
    LevelBelowPrefix(operand);
    x := Minus(ts[0], operand);
    MinusJoins(x, ts[1..], ParsePrefix(ts, []).ts);
  }

  lemma DerivesIsDerivation(x: Syntax, ts: seq<Token>, end: seq<Token>)
    requires Derives(x, ts, end)
    ensures Derivation(x)
  {}

  lemma LevelBelowPrefix(x: Syntax)
    requires Derivation(x)
    ensures x.Binary? <==> Level(x) < PREFIX
  {
    if x.Binary? {
      StrengthOf(x.op);
    }
  }

  lemma MinusJoins(x: Syntax, behind: seq<Token>, end: seq<Token>)
    requires x.Minus? && Derives(x.operand, behind, end) && !x.operand.Binary?
    requires WellLexed(x.token) && x.token.kind == SUB
    ensures Derives(x, [x.token] + behind, end)
    ensures TreeOf(x) == PrefixExpression(x.token, x.token.literal, TreeOf(x.operand))
  {
    assert Derivation(x);
    MinusTokens(x);
    hide TokensOf, Derivation, TreeOf;
    Associate([x.token], TokensOf(x.operand), end[1..]);
  }

  lemma MinusRun(ts: seq<Token>)
    requires AllWellLexed(ts) && Cur(ts).kind == SUB && Clean(ParsePrefix(ts, []))
    ensures ts != [] && ts == [ts[0]] + ts[1..]
    ensures WellLexed(ts[0]) && ts[0].kind == SUB && AllWellLexed(ts[1..])
    ensures var r := ParseExpression(ts[1..], [], PREFIX);
            Clean(r) && ParsePrefix(ts, []) == Parsed(PrefixExpression(ts[0], ts[0].literal, r.value), r.ts, [])
  {
    hide ParseExpression, ParseInfixes, ParseList, ParseGrouped, WellLexed;
  }

  lemma MinusTokens(x: Syntax)
    requires x.Minus?
    ensures TokensOf(x) == [x.token] + TokensOf(x.operand) && LastOf(x) == LastOf(x.operand)
    ensures TreeOf(x) == PrefixExpression(x.token, x.token.literal, TreeOf(x.operand))
  {}

  lemma BinaryTokens(x: Syntax)
    requires x.Binary?
    ensures TokensOf(x) == TokensOf(x.left) + ([x.op] + TokensOf(x.right)) && LastOf(x) == LastOf(x.right)
    ensures TreeOf(x) == InfixExpression(x.op, TreeOf(x.left), x.op.literal, TreeOf(x.right))
  {}

  lemma {:induction false} GroupDerives(ts: seq<Token>) returns (x: Syntax)
    requires AllWellLexed(ts) && Cur(ts).kind == LPAREN && Clean(ParseGrouped(ts, []))
    ensures Derives(x, ts, ParseGrouped(ts, []).ts) && TreeOf(x) == ParseGrouped(ts, []).value && x.Group?
    decreases |ts|, 3
  {
    hide ParseExpression;
    HeadAndRest(ts);
    PunctuationIsFixed(ts[0]);
    var inner := ExpressionDerives(Advance(ts), LOWEST);
    var end := ParseExpression(Advance(ts), [], LOWEST).ts;
    HeadAndRest(end);
    PunctuationIsFixed(end[1]);
    HeadAndRest(end[1..]);
    x := Group(inner);
    GroupTokens(x);
    Associate4([OPEN], TokensOf(inner), [CLOSE], end[1..][1..]);
  }

  lemma {:induction false} ListDerives(ts: seq<Token>) returns (x: Syntax)
    requires AllWellLexed(ts) && Cur(ts).kind == LBRACKET && Clean(ParsePrefix(ts, []))
    ensures Derives(x, ts, ParsePrefix(ts, []).ts) && TreeOf(x) == ParsePrefix(ts, []).value && x.List?
    decreases |ts|, 3
  {
    hide ParseExpression, ParseInfixes, ParseList, ParseGrouped;
    HeadAndRest(ts);
    PunctuationIsFixed(ts[0]);
    var items := ItemsDerive(ts, RBRACKET);
    var end := ParseList(ts, [], RBRACKET).ts;
    PunctuationIsFixed(end[0]);
    HeadAndRest(end);
    x := List(items);
    Associate4([OPEN_LIST], ItemTokens(items), [CLOSE_LIST], end[1..]);
  }

  /** The loop, entered with a derivation parsed. */
  lemma {:induction false} LoopDerives(l: Syntax, ts: seq<Token>, p: int) returns (x: Syntax)
    requires Derivation(l) && AllWellLexed(ts) && ts != [] && ts[0] == LastOf(l)
    requires LOWEST <= p < CALL && Clean(ParseInfixes(ts, [], p, TreeOf(l)))
    requires l.Binary? ==> p < Level(l) && Precedence(Ahead(ts).kind) <= Level(l)
    ensures var r := ParseInfixes(ts, [], p, TreeOf(l));
            && Derives(x, TokensOf(l) + ts[1..], r.ts) && TreeOf(x) == r.value
            && (x.Binary? ==> p < Level(x)) && Precedence(Ahead(r.ts).kind) <= p
    decreases |ts|, 1
  {
    hide ParseExpression, ParseList, Derivation, TreeOf, TokensOf, ParseInfix;
    var next := Ahead(ts).kind;
    if next == SEMICOLON || p >= Precedence(next) || !HasInfix(next) {
      x := l;
    } else {
      HeadAndRest(ts);
      var turn;
      if next == LPAREN {
        turn := CallDerives(l, ts, p);
      } else {
        turn := BinaryDerives(l, ts, p);
      }
      x := LoopDerives(turn, ParseInfix(Advance(ts), [], TreeOf(l)).ts, p);
    }
  }

  /** What one turn of the loop makes of `l`. */
  ghost predicate Turned(l: Syntax, ts: seq<Token>, p: int, x: Syntax)
    requires HasInfix(Ahead(ts).kind) && ts != []
  {
    var r := ParseInfix(Advance(ts), [], TreeOf(l));
    Clean(r) ==>
      && Derives(x, TokensOf(l) + ts[1..], r.ts) && TreeOf(x) == r.value
      && (x.Binary? ==> p < Level(x) && Precedence(Ahead(r.ts).kind) <= Level(x))
  }

  lemma {:induction false} BinaryDerives(l: Syntax, ts: seq<Token>, p: int) returns (x: Syntax)
    requires Derivation(l) && AllWellLexed(ts) && ts != [] && BinaryOperator(Ahead(ts).kind)
    requires p < Precedence(Ahead(ts).kind) && (l.Binary? ==> Precedence(Ahead(ts).kind) <= Level(l))
    requires Clean(ParseInfix(Advance(ts), [], TreeOf(l)))
    ensures Turned(l, ts, p, x)
    decreases |ts|, 0
  {
    HeadAndRest(ts);
    HeadAndRest(ts[1..]);
    var op, behind := ts[1], Advance(Advance(ts));
    StrengthOf(op);
    BinaryRun(Advance(ts), TreeOf(l));
    hide ParseExpression, ParseInfixes, ParseInfix, TokensOf, TreeOf, Derivation, Derives;
    var right := ExpressionDerives(behind, Precedence(op.kind));
    x := Binary(l, op, right);
    if right.Binary? {
      StrengthOf(right.op);
    }
    BinaryTokens(x);
    BinaryJoins(x, behind, ParseExpression(behind, [], Precedence(op.kind)).ts);
  }

  lemma BinaryJoins(x: Syntax, behind: seq<Token>, end: seq<Token>)
    requires x.Binary? && Derives(x.right, behind, end)
    requires WellLexed(x.op) && BinaryOperator(x.op.kind) && Derivation(x.left)
    requires Level(x.left) >= Level(x) && Level(x.right) > Level(x)
    ensures Derives(x, TokensOf(x.left) + ([x.op] + behind), end)
  {
    assert Derivation(x);
    BinaryTokens(x);
    hide TokensOf, Derivation, TreeOf;
    Associate(TokensOf(x.left), [x.op] + TokensOf(x.right), end[1..]);
    Associate([x.op], TokensOf(x.right), end[1..]);
  }

  lemma BinaryRun(ts: seq<Token>, left: Expression)
    requires BinaryOperator(Cur(ts).kind) && Clean(ParseInfix(ts, [], left))
    ensures var r := ParseExpression(Advance(ts), [], Precedence(Cur(ts).kind));
            && Clean(r)
            && ParseInfix(ts, [], left) == Parsed(InfixExpression(Cur(ts), left, Cur(ts).literal, r.value), r.ts, [])
  {
    hide ParseExpression, ParseList;
  }

  lemma {:induction false} CallDerives(l: Syntax, ts: seq<Token>, p: int) returns (x: Syntax)
    requires Derivation(l) && AllWellLexed(ts) && ts != [] && Ahead(ts).kind == LPAREN
    requires Clean(ParseInfix(Advance(ts), [], TreeOf(l)))
    ensures Turned(l, ts, p, x)
    decreases |ts|, 0
  {
    hide ParseExpression, ParseList;
    HeadAndRest(ts);
    HeadAndRest(ts[1..]);
    PunctuationIsFixed(ts[1]);
    var items := ItemsDerive(Advance(ts), RPAREN);
    var end := ParseList(Advance(ts), [], RPAREN).ts;
    PunctuationIsFixed(end[0]);
    HeadAndRest(end);
    x := Call(l, items);
    CallTokens(x, TreeOf(l).ident);
    Associate(TokensOf(l), [OPEN] + ItemTokens(items) + [CLOSE], end[1..]);
    Associate4([OPEN], ItemTokens(items), [CLOSE], end[1..]);
  }

  lemma {:induction false} ItemsDerive(ts: seq<Token>, close: TokenType) returns (xs: seq<Syntax>)
    requires AllWellLexed(ts) && ts != [] && (close == RPAREN || close == RBRACKET) && Clean(ParseList(ts, [], close))
    ensures var r := ParseList(ts, [], close);
            DeriveItems(xs, ts[1..], r.ts, close) && TreesOf(xs) == r.value
    decreases |ts|, 2
  {
    hide ParseExpression, ParseListTail;
    HeadAndRest(ts);
    if Ahead(ts).kind == close {
      xs := [];
      AppendNothing(ts[1..]);
    } else {
      var first := ExpressionDerives(Advance(ts), LOWEST);
      var end := ParseExpression(Advance(ts), [], LOWEST).ts;
      var more := TailDerives(end, close, [TreeOf(first)]);
      xs := [first] + more;
      ItemsFrom(first, more);
      Associate(TokensOf(first), TailTokensOf(more), ParseList(ts, [], close).ts);
    }
  }

  lemma ItemsFrom(first: Syntax, more: seq<Syntax>)
    ensures ItemTokens([first] + more) == TokensOf(first) + TailTokensOf(more)
    ensures TreesOf([first] + more) == [TreeOf(first)] + TreesOf(more)
    ensures TailTokensOf([first] + more) == [SEPARATOR] + (TokensOf(first) + TailTokensOf(more))
    ensures Derivation(first) && Derivations(more) ==> Derivations([first] + more)
  {
    hide TokensOf, TreeOf, Derivation;
    Cons(first, more);
  }

  lemma {:induction false} TailDerives(ts: seq<Token>, close: TokenType, args: seq<Expression>) returns (xs: seq<Syntax>)
    requires AllWellLexed(ts) && ts != [] && (close == RPAREN || close == RBRACKET)
    requires Clean(ParseListTail(ts, [], close, args))
    ensures var r := ParseListTail(ts, [], close, args);
            && Derivations(xs) && AllWellLexed(r.ts) && r.ts != [] && r.ts[0].kind == close
            && ts[1..] == TailTokensOf(xs) + r.ts && r.value == args + TreesOf(xs)
    decreases |ts|, 1
  {
    hide ParseExpression;
    HeadAndRest(ts);
    if Ahead(ts).kind == COMMA {
      HeadAndRest(ts[1..]);
      PunctuationIsFixed(ts[1]);
      var first := ExpressionDerives(Advance(Advance(ts)), LOWEST);
      var end := ParseExpression(Advance(Advance(ts)), [], LOWEST).ts;
      var more := TailDerives(end, close, args + [TreeOf(first)]);
      var r := ParseListTail(ts, [], close, args);
      xs := [first] + more;
      ItemsFrom(first, more);
      Associate(TokensOf(first), TailTokensOf(more), r.ts);
      Associate([SEPARATOR], TokensOf(first) + TailTokensOf(more), r.ts);
      Associate(args, [TreeOf(first)], TreesOf(more));
    } else {
      xs := [];
      AppendNothing(ts[1..]);
      AppendNothing(args);
    }
  }

  // ----- The parser and the grammar -----

  /** The program starts with this derivation, and the next token does not bind into it. */
  ghost predicate StartsWith(ts: seq<Token>, x: Syntax, rest: seq<Token>) {
    Derivation(x) && ts == TokensOf(x) + rest && Precedence(Cur(rest).kind) <= LOWEST
  }

  /** `Parse` records no error exactly on the programs that start with a derivation, and then it
      returns the tree of that derivation. */
  lemma ParserAcceptsGrammar(s: string, e: Expression)
    ensures Clean(Parse(s)) && Parse(s).value == e
       <==> exists x, rest :: StartsWith(Tokenize(s), x, rest) && TreeOf(x) == e
  {
    hide Parse, StartsWith, TreeOf;
    if Clean(Parse(s)) {
      var x, rest := AcceptedIsDerivation(s);
    }
    forall x, rest | StartsWith(Tokenize(s), x, rest)
      ensures Clean(Parse(s)) && Parse(s).value == TreeOf(x)
    {
      DerivationIsAccepted(s, x, rest);
    }
  }

  lemma AcceptedIsDerivation(s: string) returns (x: Syntax, rest: seq<Token>)
    requires Clean(Parse(s))
    ensures StartsWith(Tokenize(s), x, rest) && TreeOf(x) == Parse(s).value
  {
    hide Tokenize, ParseExpression, Derivation, TreeOf, TokensOf;
    TokenizeWellLexed(s);
    x := ExpressionDerives(Tokenize(s), LOWEST);
    HeadAndRest(Parse(s).ts);
    rest := Parse(s).ts[1..];
  }

  lemma DerivationIsAccepted(s: string, x: Syntax, rest: seq<Token>)
    requires StartsWith(Tokenize(s), x, rest)
    ensures Parse(s) == Parsed(TreeOf(x), [LastOf(x)] + rest, [])
  {
    hide Tokenize, ParseExpression, Derivation, TreeOf, TokensOf;
    InnerParses(x, rest, []);
  }

  /** No program text has two meanings. */
  lemma GrammarIsUnambiguous(x: Syntax, y: Syntax)
    requires Derivation(x) && Derivation(y) && TokensOf(x) == TokensOf(y)
    ensures TreeOf(x) == TreeOf(y)
  {
    hide ParseExpression, Derivation, TreeOf, TokensOf;
    InnerParses(x, [], []);
    InnerParses(y, [], []);
  }
}
