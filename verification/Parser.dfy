/** The Pratt parser: the functions say what it does with the tokens from the current one on;
    class `Parser`, with its two-token window over the lexer, is proved to do the same. */
module Parsing {
  import opened Wrappers
  import opened Tokens
  import opened Lexing
  import opened Ast
  import Decimal

  const LOWEST := 1
  const PREFIX := 8
  const CALL := 9

  function Precedence(t: TokenType): int {
    if t == OR then 2
    else if t == AND then 3
    else if t == EQ || t == NEQ then 4
    else if t == GT || t == GTE || t == LT || t == LTE then 5
    else if t == ADD || t == SUB then 6
    else if t == MUL || t == DIV then 7
    else if t == LPAREN then CALL
    else LOWEST
  }

  /** The registered prefix parse functions. */
  predicate HasPrefix(t: TokenType) {
    t == IDENT || t == INT || t == STRING || t == TRUE || t == FALSE || t == LBRACKET || t == LPAREN || t == SUB
  }

  /** The registered infix parse functions. */
  predicate HasInfix(t: TokenType) { BinaryOperator(t) || t == LPAREN }

  predicate BinaryOperator(t: TokenType) { AND <= t <= DIV }

  datatype ParseError =
    | NoPrefix(found: TokenType)
    | NotANumber(text: string)
    | NotAnIdentifier
    | WrongToken(want: TokenType, found: TokenType)

  /** Where a parse function leaves the parser, or that it dereferenced a nil expression. */
  datatype Outcome<+T> =
    | Panicked(errors: seq<ParseError>)
    | Parsed(value: T, ts: seq<Token>, errors: seq<ParseError>)
  {
    predicate IsFailure() { Panicked? }

    function PropagateFailure<U>(): Outcome<U>
      requires Panicked?
    {
      Panicked(errors)
    }

    function Extract(): (T, seq<Token>, seq<ParseError>)
      requires Parsed?
    {
      (value, ts, errors)
    }
  }

  /** `ts` holds the tokens from the current one on; behind them there is only EOF. */
  function Cur(ts: seq<Token>): Token { if ts == [] then END else ts[0] }

  function Ahead(ts: seq<Token>): Token { if |ts| < 2 then END else ts[1] }

  function Advance(ts: seq<Token>): seq<Token> { if ts == [] then [] else ts[1..] }

  /** What every parse function keeps: it never gives tokens back and never drops an error. */
  ghost predicate Progress<T>(ts: seq<Token>, errs: seq<ParseError>, r: Outcome<T>) {
    && errs <= r.errors
    && (r.Parsed? ==> |r.ts| <= |ts|)
  }

  function ParseExpression(ts: seq<Token>, errs: seq<ParseError>, precedence: int): (r: Outcome<Expression>)
    ensures Progress(ts, errs, r)
    decreases |ts|, 5
  {
    if !HasPrefix(Cur(ts).kind) then Parsed(NilExpr, ts, errs + [NoPrefix(Cur(ts).kind)])
    else
      var (left, ts', errs') :- ParsePrefix(ts, errs);
      ParseInfixes(ts', errs', precedence, left)
  }

  function ParsePrefix(ts: seq<Token>, errs: seq<ParseError>): (r: Outcome<Expression>)
    requires HasPrefix(Cur(ts).kind)
    ensures Progress(ts, errs, r)
    decreases |ts|, 4
  {
    var tok := Cur(ts);
    if tok.kind == IDENT then Parsed(Ident(Identifier(tok, tok.literal)), ts, errs)
    else if tok.kind == INT then ParseIntegerLiteral(ts, errs)
    else if tok.kind == STRING then Parsed(StringLiteral(tok, tok.literal), ts, errs)
    else if tok.kind == TRUE || tok.kind == FALSE then Parsed(BooleanLiteral(tok, tok.kind == TRUE), ts, errs)
    else if tok.kind == LBRACKET then
      var (elements, ts', errs') :- ParseList(ts, errs, RBRACKET);
      Parsed(ArrayLiteral(tok, elements), ts', errs')
    else if tok.kind == LPAREN then ParseGrouped(ts, errs)
    else
      var (right, ts', errs') :- ParseExpression(Advance(ts), errs, PREFIX);
      Parsed(PrefixExpression(tok, tok.literal, right), ts', errs')
  }

  function ParseIntegerLiteral(ts: seq<Token>, errs: seq<ParseError>): (r: Outcome<Expression>)
    ensures Progress(ts, errs, r)
  {
    match Decimal.SetString(Cur(ts).literal)
    case None => Parsed(NilExpr, ts, errs + [NotANumber(Cur(ts).literal)])
    case Some(n) => Parsed(IntegerLiteral(Cur(ts), Decimal.String(n)), ts, errs)
  }

  function ParseGrouped(ts: seq<Token>, errs: seq<ParseError>): (r: Outcome<Expression>)
    requires Cur(ts).kind == LPAREN
    ensures Progress(ts, errs, r)
    decreases |ts|, 3
  {
    var (exp, ts', errs') :- ParseExpression(Advance(ts), errs, LOWEST);
    if Ahead(ts').kind == RPAREN then Parsed(exp, Advance(ts'), errs')
    else Parsed(NilExpr, ts', errs' + [WrongToken(RPAREN, Ahead(ts').kind)])
  }

  /** The loop of `parseExpression`, entered with `left` parsed. */
  function ParseInfixes(ts: seq<Token>, errs: seq<ParseError>, precedence: int, left: Expression)
    : (r: Outcome<Expression>)
    ensures Progress(ts, errs, r)
    decreases |ts|, 1
  {
    var next := Ahead(ts).kind;
    if next == SEMICOLON || precedence >= Precedence(next) || !HasInfix(next) then Parsed(left, ts, errs)
    else
      var (exp, ts', errs') :- ParseInfix(Advance(ts), errs, left);
      ParseInfixes(ts', errs', precedence, exp)
  }

  function ParseInfix(ts: seq<Token>, errs: seq<ParseError>, left: Expression): (r: Outcome<Expression>)
    requires HasInfix(Cur(ts).kind)
    ensures Progress(ts, errs, r)
    decreases |ts|, 4
  {
    var tok := Cur(ts);
    if tok.kind == LPAREN then ParseCall(ts, errs, left)
    else
      var (right, ts', errs') :- ParseExpression(Advance(ts), errs, Precedence(tok.kind));
      Parsed(InfixExpression(tok, left, tok.literal, right), ts', errs')
  }

  function ParseCall(ts: seq<Token>, errs: seq<ParseError>, left: Expression): (r: Outcome<Expression>)
    requires Cur(ts).kind == LPAREN
    ensures Progress(ts, errs, r)
    decreases |ts|, 3
  {
    if left.NilExpr? then Panicked(errs)
    else if !left.Ident? then Parsed(NilExpr, ts, errs + [NotAnIdentifier])
    else
      var (arguments, ts', errs') :- ParseList(ts, errs, RPAREN);
      Parsed(CallExpression(Cur(ts), Some(left.ident), arguments), ts', errs')
  }

  /** The current token opens the list. */
  function ParseList(ts: seq<Token>, errs: seq<ParseError>, end: TokenType): (r: Outcome<seq<Expression>>)
    requires ts != []
    ensures Progress(ts, errs, r)
    decreases |ts|, 2
  {
    if Ahead(ts).kind == end then Parsed([], Advance(ts), errs)
    else
      var (first, ts', errs') :- ParseExpression(Advance(ts), errs, LOWEST);
      ParseListTail(ts', errs', end, [first])
  }

  function ParseListTail(ts: seq<Token>, errs: seq<ParseError>, end: TokenType, args: seq<Expression>)
    : (r: Outcome<seq<Expression>>)
    ensures Progress(ts, errs, r)
    decreases |ts|, 1
  {
    if Ahead(ts).kind == COMMA then
      var (next, ts', errs') :- ParseExpression(Advance(Advance(ts)), errs, LOWEST);
      ParseListTail(ts', errs', end, args + [next])
    else if Ahead(ts).kind == end then Parsed(args, Advance(ts), errs)
    else Parsed([], ts, errs + [WrongToken(end, Ahead(ts).kind)])
  }

  /** `shield.Parse`: no EOF is required behind the first expression. */
  function Parse(s: string): Outcome<Expression> { ParseExpression(Tokenize(s), [], LOWEST) }

  // ----- The loop, step by step -----

  lemma NothingStarts(ts: seq<Token>, errs: seq<ParseError>, p: int)
    requires !HasPrefix(Cur(ts).kind)
    ensures ParseExpression(ts, errs, p) == Parsed(NilExpr, ts, errs + [NoPrefix(Cur(ts).kind)])
  {}

  lemma LoopEntered(ts: seq<Token>, errs: seq<ParseError>, p: int)
    requires HasPrefix(Cur(ts).kind)
    ensures var first := ParsePrefix(ts, errs);
            && (first.Panicked? ==> ParseExpression(ts, errs, p) == Panicked(first.errors))
            && (first.Parsed? ==>
                  ParseExpression(ts, errs, p) == ParseInfixes(first.ts, first.errors, p, first.value))
  {
    hide ParsePrefix, ParseInfixes;
  }

  lemma LoopLeft(ts: seq<Token>, errs: seq<ParseError>, p: int, left: Expression)
    requires Ahead(ts).kind == SEMICOLON || p >= Precedence(Ahead(ts).kind) || !HasInfix(Ahead(ts).kind)
    ensures ParseInfixes(ts, errs, p, left) == Parsed(left, ts, errs)
  {}

  lemma LoopTurns(ts: seq<Token>, errs: seq<ParseError>, p: int, left: Expression)
    requires Ahead(ts).kind != SEMICOLON && p < Precedence(Ahead(ts).kind) && HasInfix(Ahead(ts).kind)
    ensures var turn := ParseInfix(Advance(ts), errs, left);
            && (turn.Panicked? ==> ParseInfixes(ts, errs, p, left) == Panicked(turn.errors))
            && (turn.Parsed? ==> ParseInfixes(ts, errs, p, left) == ParseInfixes(turn.ts, turn.errors, p, turn.value))
  {
    hide ParseInfix;
  }
}
