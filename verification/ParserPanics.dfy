/** When the parser lives to report its errors: certain patterns of parentheses are all that it
    dies of, no printed program has one, and behind a complete expression they are exactly it. */
module ParserPanics {
  import opened Sequences
  import opened Tokens
  import opened Lexing
  import opened Ast
  import opened Parsing
  import opened Printing
  import opened Grammar
  import opened RoundTrip
  import opened NormalForm
  import Decimal

  predicate IsOpen(ts: seq<Token>, i: nat) { i < |ts| && ts[i].kind == LPAREN }

  predicate TwoOpen(ts: seq<Token>, i: nat) { IsOpen(ts, i) && IsOpen(ts, i + 1) }

  /** Any number of closing parentheses, and an opening one. */
  predicate ClosesThenOpens(ts: seq<Token>) {
    ts != [] && (ts[0].kind == LPAREN || (ts[0].kind == RPAREN && ClosesThenOpens(ts[1..])))
  }

  /** The last token of an operand that is no name. */
  predicate EndsOperand(t: TokenType) { t in {INT, STRING, TRUE, FALSE, RPAREN, RBRACKET} }

  predicate WantsOperand(t: TokenType) { BinaryOperator(t) || t in {LPAREN, LBRACKET, COMMA} }

  /** Two opening parentheses behind an operand that is no name, or behind a token that stands for
      an operand and cannot start one; or parentheses around such a token, and an opening one. */
  predicate TrapAt(ts: seq<Token>, i: nat) {
    i + 1 < |ts| &&
    (|| (EndsOperand(ts[i].kind) && TwoOpen(ts, i + 1))
     || (WantsOperand(ts[i].kind) && !HasPrefix(ts[i + 1].kind) && TwoOpen(ts, i + 2))
     || (ts[i].kind == LPAREN && !HasPrefix(ts[i + 1].kind) && ClosesThenOpens(ts[i + 2..])))
  }

  ghost predicate NoTraps(ts: seq<Token>) { forall i: nat :: !TrapAt(ts, i) }

  ghost predicate Tame(ts: seq<Token>) { AllWellLexed(ts) && NoTraps(ts) }

  lemma TameBehind(ts: seq<Token>)
    requires Tame(ts)
    ensures Tame(Advance(ts))
  {
    forall i: nat
      ensures !TrapAt(Advance(ts), i)
    {
      assert !TrapAt(ts, i + 1);
      assert i + 1 < |Advance(ts)| ==> Advance(ts)[i + 2..] == ts[i + 3..];
    }
  }

  /** Where the parser stands with a value: a call does not dereference nil, neither now nor after
      the parentheses around it are closed, and a call of what is no name is not called again. */
  predicate SafeAt(value: Expression, ts: seq<Token>) {
    && (value.NilExpr? ==> !ClosesThenOpens(Advance(ts)))
    && (!value.Ident? ==> !TwoOpen(ts, 1))
  }

  ghost predicate Survives(r: Outcome<Expression>) { r.Parsed? && Tame(r.ts) && SafeAt(r.value, r.ts) }

  ghost predicate ListSurvives(r: Outcome<seq<Expression>>) { r.Parsed? && Tame(r.ts) && !TwoOpen(r.ts, 1) }

  lemma {:induction false} ParseExpressionSurvives(ts: seq<Token>, errs: seq<ParseError>, p: int)
    requires Tame(ts) && p < CALL
    ensures var r := ParseExpression(ts, errs, p);
            if HasPrefix(Cur(ts).kind) then Survives(r) && Ahead(r.ts).kind != LPAREN
            else r.Parsed? && r.ts == ts && r.value.NilExpr?
    decreases |ts|, 5
  {
    hide Tame, ParsePrefix, ParseInfixes, SafeAt;
    if HasPrefix(Cur(ts).kind) {
      ParsePrefixSurvives(ts, errs);
      var first := ParsePrefix(ts, errs);
      ParseInfixesSurvives(first.ts, first.errors, p, first.value);
    }
  }

  lemma {:induction false} ParsePrefixSurvives(ts: seq<Token>, errs: seq<ParseError>)
    requires Tame(ts) && HasPrefix(Cur(ts).kind)
    ensures Survives(ParsePrefix(ts, errs))
    decreases |ts|, 4
  {
    hide ParseExpression, ParseInfixes, ParseList, ParseGrouped, ClosesThenOpens;
    assert !TrapAt(ts, 0);
    if Cur(ts).kind == INT {
      Decimal.StringOfSetString(ts[0].literal);
    } else if Cur(ts).kind == LBRACKET {
      ParseListSurvives(ts, errs, RBRACKET);
    } else if Cur(ts).kind == LPAREN {
      ParseGroupedSurvives(ts, errs);
    } else if Cur(ts).kind == SUB {
      TameBehind(ts);
      ParseExpressionSurvives(Advance(ts), errs, PREFIX);
    }
  }

  lemma {:induction false} ParseGroupedSurvives(ts: seq<Token>, errs: seq<ParseError>)
    requires Tame(ts) && Cur(ts).kind == LPAREN
    ensures Survives(ParseGrouped(ts, errs))
    decreases |ts|, 3
  {
    hide ParseExpression;
    TameBehind(ts);
    ParseExpressionSurvives(Advance(ts), errs, LOWEST);
    var inner := ParseExpression(Advance(ts), errs, LOWEST).ts;
    TameBehind(inner);
    assert !TrapAt(ts, 0) && !TrapAt(Advance(inner), 0);
  }

  lemma {:induction false} ParseInfixesSurvives(ts: seq<Token>, errs: seq<ParseError>, p: int, left: Expression)
    requires Tame(ts) && p < CALL && SafeAt(left, ts)
    ensures var r := ParseInfixes(ts, errs, p, left);
            Survives(r) && Ahead(r.ts).kind != LPAREN
    decreases |ts|, 1
  {
    hide Tame, ParseInfix;
    var next := Ahead(ts).kind;
    if next != SEMICOLON && p < Precedence(next) && HasInfix(next) {
      TameBehind(ts);
      ParseInfixSurvives(Advance(ts), errs, left);
      var r := ParseInfix(Advance(ts), errs, left);
      ParseInfixesSurvives(r.ts, r.errors, p, r.value);
    }
  }

  lemma {:induction false} ParseInfixSurvives(ts: seq<Token>, errs: seq<ParseError>, left: Expression)
    requires Tame(ts) && HasInfix(Cur(ts).kind)
    requires Cur(ts).kind == LPAREN ==> !left.NilExpr? && (!left.Ident? ==> Ahead(ts).kind != LPAREN)
    ensures Survives(ParseInfix(ts, errs, left))
    decreases |ts|, 4
  {
    hide ParseExpression, ParseList;
    assert !TrapAt(ts, 0);
    if Cur(ts).kind == LPAREN {
      ParseListSurvives(ts, errs, RPAREN);
    } else {
      TameBehind(ts);
      ParseExpressionSurvives(Advance(ts), errs, Precedence(Cur(ts).kind));
    }
  }

  lemma {:induction false} ParseListSurvives(ts: seq<Token>, errs: seq<ParseError>, end: TokenType)
    requires Tame(ts) && ts != [] && (ts[0].kind == LPAREN || ts[0].kind == LBRACKET) && EndsOperand(end)
    ensures ListSurvives(ParseList(ts, errs, end))
    decreases |ts|, 2
  {
    hide ParseExpression, ParseListTail, ClosesThenOpens;
    TameBehind(ts);
    assert !TrapAt(ts, 0) && !TrapAt(Advance(ts), 0);
    if Ahead(ts).kind != end {
      ParseExpressionSurvives(Advance(ts), errs, LOWEST);
      var first := ParseExpression(Advance(ts), errs, LOWEST);
      ParseListTailSurvives(first.ts, first.errors, end, [first.value]);
    }
  }

  lemma {:induction false} ParseListTailSurvives(ts: seq<Token>, errs: seq<ParseError>, end: TokenType,
      args: seq<Expression>)
    requires Tame(ts) && !TwoOpen(ts, 1) && EndsOperand(end)
    ensures ListSurvives(ParseListTail(ts, errs, end, args))
    decreases |ts|, 1
  {
    hide ParseExpression, ClosesThenOpens;
    TameBehind(ts);
    assert !TrapAt(Advance(ts), 0);
    if Ahead(ts).kind == COMMA {
      TameBehind(Advance(ts));
      ParseExpressionSurvives(Advance(Advance(ts)), errs, LOWEST);
      var next := ParseExpression(Advance(Advance(ts)), errs, LOWEST);
      ParseListTailSurvives(next.ts, next.errors, end, args + [next.value]);
    }
  }

  /** Without these patterns `Parse` keeps its promise: it returns, with a tree or with errors. */
  lemma TamePrograms(s: string)
    requires NoTraps(Tokenize(s))
    ensures Parse(s).Parsed?
  {
    hide ParseExpression, Tokenize, NoTraps;
    TokenizeWellLexed(s);
    ParseExpressionSurvives(Tokenize(s), [], LOWEST);
  }

  // ----- Programs have no traps -----

  /** Functions are called by their bare names, not by names in parentheses. */
  predicate PlainCalls(x: Syntax) {
    match x
    case Atom(_) => true
    case Group(inner) => PlainCalls(inner)
    case List(elements) => AllPlainCalls(elements)
    case Call(callee, arguments) => callee.Atom? && AllPlainCalls(arguments)
    case Minus(_, operand) => PlainCalls(operand)
    case Binary(left, _, right) => PlainCalls(left) && PlainCalls(right)
  }

  predicate AllPlainCalls(xs: seq<Syntax>) { forall i | 0 <= i < |xs| :: PlainCalls(xs[i]) }

  ghost predicate Harmless(ts: seq<Token>) { NoTraps(ts) && !ClosesThenOpens(ts) }

  lemma NoTrapsInFront(t: Token, ts: seq<Token>)
    requires NoTraps(ts) && !TrapAt([t] + ts, 0)
    ensures NoTraps([t] + ts)
  {
    forall i: nat
      ensures !TrapAt([t] + ts, i)
    {
      if i > 0 {
        assert !TrapAt(ts, i - 1);
        assert i + 1 < |[t] + ts| ==> ([t] + ts)[i + 2..] == ts[i + 1..];
      }
    }
  }

  /** A token that opens nothing, in front of what no call can start with. */
  lemma HarmlessInFront(t: Token, ts: seq<Token>)
    requires Harmless(ts) && t.kind != LPAREN && (WantsOperand(t.kind) ==> HasPrefix(Cur(ts).kind) || !TwoOpen(ts, 1))
    ensures Harmless([t] + ts)
  {
    Cons(t, ts);
    NoTrapsInFront(t, ts);
  }

  /** A token in front of an operand, of its parentheses or of a list. */
  lemma NoTrapsOpening(t: Token, ts: seq<Token>)
    requires NoTraps(ts) && WantsOperand(t.kind) && HasPrefix(Cur(ts).kind)
    ensures NoTraps([t] + ts)
  {
    Cons(t, ts);
    NoTrapsInFront(t, ts);
  }

  lemma {:induction false} DerivationIsTame(x: Syntax, rest: seq<Token>)
    requires Derivation(x) && PlainCalls(x) && Harmless(rest)
    ensures NoTraps(TokensOf(x) + rest)
    decreases x, 1
  {
    hide NoTraps, ClosesThenOpens, TreeOf, TrapAt;
    match x
    case Atom(token) =>
      HarmlessInFront(token, rest);
    case Group(inner) =>
      var behind := [CLOSE] + rest;
      HarmlessClose(CLOSE, rest);
      DerivationIsTame(inner, behind);
      ItemIsNotEnd(inner, behind);
      NoTrapsOpening(OPEN, TokensOf(inner) + behind);
      Associate4([OPEN], TokensOf(inner), [CLOSE], rest);
    case List(elements) =>
      ItemsAreTame(OPEN_LIST, elements, CLOSE_LIST, rest);
      Associate4([OPEN_LIST], ItemTokens(elements), [CLOSE_LIST], rest);
    case Call(callee, arguments) =>
      var behind := [OPEN] + (ItemTokens(arguments) + ([CLOSE] + rest));
      ItemsAreTame(OPEN, arguments, CLOSE, rest);
      NameInFront(callee.token, behind);
      Associate(TokensOf(callee), [OPEN] + ItemTokens(arguments) + [CLOSE], rest);
      Associate4([OPEN], ItemTokens(arguments), [CLOSE], rest);
    case Minus(token, operand) =>
      DerivationIsTame(operand, rest);
      ItemIsNotEnd(operand, rest);
      NoTrapsOpening(token, TokensOf(operand) + rest);
      Associate([token], TokensOf(operand), rest);
    case Binary(left, op, right) =>
      var behind := TokensOf(right) + rest;
      DerivationIsTame(right, rest);
      ItemIsNotEnd(right, rest);
      NoTrapsOpening(op, behind);
      NothingCloses(op, behind);
      DerivationIsTame(left, [op] + behind);
      Associate(TokensOf(left), [op] + TokensOf(right), rest);
      Associate([op], TokensOf(right), rest);
  }

  lemma NameInFront(token: Token, ts: seq<Token>)
    requires NoTraps(ts) && Derivation(Atom(token)) && TreeOf(Atom(token)).Ident?
    ensures NoTraps([token] + ts)
  {
    Cons(token, ts);
    NoTrapsInFront(token, ts);
  }

  lemma NothingCloses(t: Token, ts: seq<Token>)
    requires t.kind != LPAREN && t.kind != RPAREN
    ensures !ClosesThenOpens([t] + ts)
  {}

  lemma HarmlessClose(close: Token, rest: seq<Token>)
    requires Harmless(rest) && (close == CLOSE || close == CLOSE_LIST)
    ensures Harmless([close] + rest)
  {
    HarmlessInFront(close, rest);
  }

  lemma {:induction false} ItemsAreTame(open: Token, xs: seq<Syntax>, close: Token, rest: seq<Token>)
    requires Derivations(xs) && AllPlainCalls(xs) && Harmless(rest)
    requires (open == OPEN && close == CLOSE) || (open == OPEN_LIST && close == CLOSE_LIST)
    ensures NoTraps([open] + (ItemTokens(xs) + ([close] + rest)))
    decreases xs, 1
  {
    hide NoTraps, ClosesThenOpens, TokensOf, Derivation, PlainCalls, TrapAt;
    var tail := [close] + rest;
    HarmlessClose(close, rest);
    if xs == [] {
      AppendNothing(tail);
      NothingInside(open, close, rest);
    } else {
      TailIsTame(xs[1..], tail);
      DerivationIsTame(xs[0], TailTokensOf(xs[1..]) + tail);
      Associate(TokensOf(xs[0]), TailTokensOf(xs[1..]), tail);
      ItemIsNotEnd(xs[0], TailTokensOf(xs[1..]) + tail);
      NoTrapsOpening(open, ItemTokens(xs) + tail);
    }
  }

  lemma NothingInside(open: Token, close: Token, rest: seq<Token>)
    requires Harmless(rest) && Harmless([close] + rest)
    requires (open == OPEN && close == CLOSE) || (open == OPEN_LIST && close == CLOSE_LIST)
    ensures NoTraps([open] + ([close] + rest))
  {
    Cons(open, [close] + rest);
    Cons(close, rest);
    assert ([open] + ([close] + rest))[2..] == rest;
    NoTrapsInFront(open, [close] + rest);
  }

  lemma {:induction false} TailIsTame(xs: seq<Syntax>, tail: seq<Token>)
    requires Derivations(xs) && AllPlainCalls(xs) && Harmless(tail)
    ensures Harmless(TailTokensOf(xs) + tail)
    decreases xs, 2
  {
    hide NoTraps, ClosesThenOpens, TokensOf, Derivation, PlainCalls, TrapAt;
    if xs == [] {
      AppendNothing(tail);
    } else {
      var behind := TailTokensOf(xs[1..]) + tail;
      TailIsTame(xs[1..], tail);
      DerivationIsTame(xs[0], behind);
      ItemIsNotEnd(xs[0], behind);
      NoTrapsOpening(SEPARATOR, TokensOf(xs[0]) + behind);
      NothingCloses(SEPARATOR, TokensOf(xs[0]) + behind);
      Associate([SEPARATOR], TokensOf(xs[0]) + TailTokensOf(xs[1..]), tail);
      Associate(TokensOf(xs[0]), TailTokensOf(xs[1..]), tail);
    }
  }

  /** The patterns exclude no program but those that call a name in parentheses: a program that is
      a derivation, alone or in front of harmless tokens, has none of them. */
  lemma ProgramsAreTame(s: string, x: Syntax, rest: seq<Token>)
    requires Derivation(x) && PlainCalls(x) && Harmless(rest) && Tokenize(s) == TokensOf(x) + rest
    ensures NoTraps(Tokenize(s))
  {
    DerivationIsTame(x, rest);
  }

  /** In particular, no printed program has one. */
  lemma PrintedProgramsAreTame(e: Expression)
    requires Printable(e) && HasCallees(e)
    ensures NoTraps(Tokenize(Stringify(e)))
  {
    hide Tokenize, Stringify, PrintTokens, Written, TokensOf, Derivation, NoTraps, PlainCalls;
    LexPrinted(e, "");
    TokenizeNothing();
    AppendNothing(Stringify(e));
    PrintedIsWritten(e);
    WrittenCallsNames(e);
    NothingIsHarmless();
    ProgramsAreTame(Stringify(e), Written(e), []);
  }

  lemma NothingIsHarmless()
    ensures Harmless([])
  {}

  lemma {:induction false} WrittenCallsNames(e: Expression)
    requires Printable(e)
    ensures PlainCalls(Written(e))
    decreases e, 1
  {
    match e
    case ArrayLiteral(_, elements) => AllWrittenCallNames(elements);
    case CallExpression(_, _, arguments) => AllWrittenCallNames(arguments);
    case PrefixExpression(_, _, right) => WrittenCallsNames(right);
    case InfixExpression(_, left, _, right) =>
      WrittenCallsNames(left);
      WrittenCallsNames(right);
    case _ =>
  }

  lemma {:induction false} AllWrittenCallNames(es: seq<Expression>)
    requires AllPrintable(es)
    ensures AllPlainCalls(AllWritten(es))
    decreases es, 0
  {
    hide Written, PlainCalls;
    if es != [] {
      WrittenCallsNames(es[0]);
      AllWrittenCallNames(es[1..]);
    }
  }

  // ----- Where the patterns are exact -----

  /** The operand that a further token would bind to. */
  function LastOperand(x: Syntax): Syntax {
    match x
    case Binary(_, _, right) => LastOperand(right)
    case Minus(_, operand) => LastOperand(operand)
    case _ => x
  }

  /** A call of what is no name. */
  predicate IsCalled(r: Outcome<Expression>, errs: seq<ParseError>, more: seq<Token>) {
    if Cur(more).kind == LPAREN then r.Panicked?
    else r.Parsed? && r.ts == [OPEN] + more && r.errors == errs + [NotAnIdentifier]
  }

  lemma {:induction false} CalledExpression(x: Syntax, more: seq<Token>, errs: seq<ParseError>, p: int)
    requires Derivation(x) && !TreeOf(LastOperand(x)).Ident? && !BinaryOperator(Cur(more).kind)
    requires LOWEST <= p < CALL && (x.Binary? ==> p < Level(x))
    ensures IsCalled(ParseExpression(TokensOf(x) + ([OPEN] + more), errs, p), errs, more)
    decreases x, 1
  {
    hide ParseExpression, ParseInfixes, TokensOf, TreeOf;
    match x
    case Binary(_, _, _) => CalledBinary(x, more, errs, p);
    case Minus(_, _) => CalledMinus(x, more, errs, p);
    case _ =>
      DerivationParses(x, [OPEN] + more, errs, p);
      TreesAreNotNil(x);
      CalledOperand(LastOf(x), more, errs, p, TreeOf(x));
  }

  lemma {:induction false} TreesAreNotNil(x: Syntax)
    requires Derivation(x)
    ensures !TreeOf(x).NilExpr?
  {
    match x
    case Atom(token) => Decimal.StringOfSetString(if token.kind == INT then token.literal else "0");
    case Group(inner) => TreesAreNotNil(inner);
    case _ =>
  }

  lemma CalledOperand(last: Token, more: seq<Token>, errs: seq<ParseError>, p: int, value: Expression)
    requires LOWEST <= p < CALL && !value.Ident? && !value.NilExpr? && !BinaryOperator(Cur(more).kind)
    ensures IsCalled(ParseInfixes([last] + ([OPEN] + more), errs, p, value), errs, more)
  {
    hide ParseExpression, ParseList;
    var ts := [OPEN] + more;
    Front(last, ts);
    Front(OPEN, more);
    assert ParseInfix(ts, errs, value) == Parsed(NilExpr, ts, errs + [NotAnIdentifier]);
    if Cur(more).kind == LPAREN {
      CallOnNilPanics(ts, errs + [NotAnIdentifier], p);
    } else {
      NothingBinds(ts, errs + [NotAnIdentifier], p, NilExpr);
    }
  }

  lemma NothingBinds(ts: seq<Token>, errs: seq<ParseError>, p: int, value: Expression)
    requires p >= LOWEST && Ahead(ts).kind != LPAREN && !BinaryOperator(Ahead(ts).kind)
    ensures ParseInfixes(ts, errs, p, value) == Parsed(value, ts, errs)
  {
    LoopLeft(ts, errs, p, value);
  }

  lemma {:induction false} CalledMinus(x: Syntax, more: seq<Token>, errs: seq<ParseError>, p: int)
    requires Derivation(x) && x.Minus? && !TreeOf(LastOperand(x)).Ident? && !BinaryOperator(Cur(more).kind)
    requires LOWEST <= p < CALL
    ensures IsCalled(ParseExpression(TokensOf(x) + ([OPEN] + more), errs, p), errs, more)
    decreases x, 0
  {
    var behind := TokensOf(x.operand) + ([OPEN] + more);
    CalledExpression(x.operand, more, errs, PREFIX);
    MinusTokens(x);
    Associate([x.token], TokensOf(x.operand), [OPEN] + more);
    Front(x.token, behind);
    Front(OPEN, more);
    MinusStep([x.token] + behind, errs, p);
    hide ParseExpression, ParseInfixes, ParsePrefix, TokensOf, TreeOf;
    var r := ParseExpression(behind, errs, PREFIX);
    if r.Parsed? {
      NothingBinds(r.ts, r.errors, p, PrefixExpression(x.token, x.token.literal, r.value));
    }
  }

  /** The loop after an operand was parsed into `value`. */
  function Resume(r: Outcome<Expression>, p: int, value: Expression): Outcome<Expression> {
    if r.Panicked? then r else ParseInfixes(r.ts, r.errors, p, value)
  }

  lemma MinusStep(ts: seq<Token>, errs: seq<ParseError>, p: int)
    requires Cur(ts).kind == SUB
    ensures var r := ParseExpression(Advance(ts), errs, PREFIX);
            ParseExpression(ts, errs, p)
            == Resume(r, p, if r.Parsed? then PrefixExpression(Cur(ts), Cur(ts).literal, r.value) else NilExpr)
  {
    hide ParseInfixes, ParseList, ParseGrouped;
  }

  lemma BinaryStep(ts: seq<Token>, errs: seq<ParseError>, p: int, left: Expression)
    requires BinaryOperator(Ahead(ts).kind) && p < Precedence(Ahead(ts).kind)
    ensures var r := ParseExpression(Advance(Advance(ts)), errs, Precedence(Ahead(ts).kind));
            ParseInfixes(ts, errs, p, left)
            == Resume(r, p, if r.Parsed? then InfixExpression(Ahead(ts), left, Ahead(ts).literal, r.value) else NilExpr)
  {
    hide ParseExpression;
  }

  lemma {:induction false} CalledBinary(x: Syntax, more: seq<Token>, errs: seq<ParseError>, p: int)
    requires Derivation(x) && x.Binary? && !TreeOf(LastOperand(x)).Ident? && !BinaryOperator(Cur(more).kind)
    requires LOWEST <= p < Level(x)
    ensures IsCalled(ParseExpression(TokensOf(x) + ([OPEN] + more), errs, p), errs, more)
    decreases x, 0
  {
    var behind := TokensOf(x.right) + ([OPEN] + more);
    var ts := [LastOf(x.left)] + ([x.op] + behind);
    StrengthOf(x.op);
    CalledExpression(x.right, more, errs, Level(x));
    DerivationParses(x.left, [x.op] + behind, errs, p);
    BinaryTokens(x);
    hide Derivation, TokensOf, TreeOf;
    Associate(TokensOf(x.left), [x.op] + TokensOf(x.right), [OPEN] + more);
    Associate([x.op], TokensOf(x.right), [OPEN] + more);
    Front(LastOf(x.left), [x.op] + behind);
    Front(x.op, behind);
    Front(OPEN, more);
    BinaryStep(ts, errs, p, TreeOf(x.left));
    hide ParseExpression, ParseInfixes;
    var r := ParseExpression(behind, errs, Level(x));
    if r.Parsed? {
      NothingBinds(r.ts, r.errors, p, InfixExpression(x.op, TreeOf(x.left), x.op.literal, r.value));
    }
  }

  /** On every program that goes on with an opening parenthesis behind a complete expression that
      does not end in a name: `Parse` panics exactly if one more opening parenthesis follows, and
      otherwise returns the one error that the call is of no name. What follows must not be a
      binary operator. */
  lemma CallsOfNoName(s: string, x: Syntax, more: seq<Token>)
    requires Derivation(x) && !TreeOf(LastOperand(x)).Ident? && !BinaryOperator(Cur(more).kind)
    requires Tokenize(s) == TokensOf(x) + ([OPEN] + more)
    ensures Parse(s).Panicked? <==> Cur(more).kind == LPAREN
    ensures Parse(s).Parsed? ==> Parse(s).errors == [NotAnIdentifier]
  {
    hide ParseExpression, Derivation, TokensOf, TreeOf, Tokenize;
    if x.Binary? {
      LevelsAboveLowest(x);
    }
    CalledExpression(x, more, [], LOWEST);
  }

  lemma LevelsAboveLowest(x: Syntax)
    requires Derivation(x) && x.Binary?
    ensures LOWEST < Level(x)
  {
    StrengthOf(x.op);
  }

  /** A printed tree that is no name, two opening parentheses behind it and any text. */
  lemma TwoOpenBehindPrinted(e: Expression, s: string)
    requires Printable(e) && HasCallees(e) && !e.Ident?
    ensures Parse(Stringify(e) + "((" + s).Panicked?
  {
    var more := [OPEN] + Tokenize(s);
    hide Tokenize, ParseExpression, PrintTokens, Stringify, Written, Derivation, TokensOf;
    LexByte('(', s);
    LexByte('(', "(" + s);
    assert "(" + ("(" + s) == "((" + s;
    LexPrinted(e, "((" + s);
    assert Stringify(e) + "((" + s == Stringify(e) + ("((" + s);
    PrintedIsWritten(e);
    RetokenIsNoName(e);
    Cons(OPEN, Tokenize(s));
    CallsOfNoName(Stringify(e) + "((" + s, Written(e), more);
  }

  lemma RetokenIsNoName(e: Expression)
    requires Printable(e) && !e.Ident?
    ensures !Retoken(e).Ident? && LastOperand(Written(e)) == Written(e)
  {}

  /** `n` pairs of parentheses around a token. */
  function Nest(n: nat, t: Token): seq<Token> { if n == 0 then [t] else [OPEN] + (Nest(n - 1, t) + [CLOSE]) }

  lemma {:induction false} NestIsNil(n: nat, t: Token, rest: seq<Token>, errs: seq<ParseError>)
    requires n > 0 && !HasPrefix(t.kind)
    ensures ParsePrefix(Nest(n, t) + rest, errs) == Parsed(NilExpr, [CLOSE] + rest, errs + [NoPrefix(t.kind)])
  {
    var inner := Nest(n - 1, t) + ([CLOSE] + rest);
    Associate([OPEN], Nest(n - 1, t) + [CLOSE], rest);
    Associate(Nest(n - 1, t), [CLOSE], rest);
    Front(CLOSE, rest);
    if n == 1 {
      Front(t, [CLOSE] + rest);
      NilGroup(inner, t, rest, errs, errs + [NoPrefix(t.kind)]);
    } else {
      NestIsNil(n - 1, t, [CLOSE] + rest, errs);
      NestOpens(n - 1, t, [CLOSE] + rest);
      Front(CLOSE, [CLOSE] + rest);
      NothingBinds([CLOSE] + ([CLOSE] + rest), errs + [NoPrefix(t.kind)], LOWEST, NilExpr);
      NilGroup(inner, CLOSE, rest, errs, errs + [NoPrefix(t.kind)]);
    }
  }

  lemma NestOpens(n: nat, t: Token, rest: seq<Token>)
    requires n > 0
    ensures Cur(Nest(n, t) + rest) == OPEN
  {}

  lemma NilGroup(inner: seq<Token>, last: Token, rest: seq<Token>, errs: seq<ParseError>, errs': seq<ParseError>)
    requires ParseExpression(inner, errs, LOWEST) == Parsed(NilExpr, [last] + ([CLOSE] + rest), errs')
    ensures ParsePrefix([OPEN] + inner, errs) == Parsed(NilExpr, [CLOSE] + rest, errs')
  {
    hide ParseExpression, ParseList;
    Front(OPEN, inner);
    Front(last, [CLOSE] + rest);
    assert ParsePrefix([OPEN] + inner, errs) == ParseGrouped([OPEN] + inner, errs);
  }

  /** On every program that starts with any number of parentheses around a token that cannot start
      an expression: `Parse` panics exactly if an opening parenthesis follows them. What follows
      must not be a binary operator. */
  lemma EmptyParentheses(s: string, n: nat, t: Token, rest: seq<Token>)
    requires n > 0 && !HasPrefix(t.kind) && !BinaryOperator(Cur(rest).kind) && Tokenize(s) == Nest(n, t) + rest
    ensures Parse(s).Panicked? <==> Cur(rest).kind == LPAREN
    ensures Parse(s).Parsed? ==> Parse(s).errors == [NoPrefix(t.kind)]
  {
    hide Tokenize, ParsePrefix, Nest;
    var errs := [NoPrefix(t.kind)];
    AppendNothing(errs);
    NestIsNil(n, t, rest, []);
    NestOpens(n, t, rest);
    Front(CLOSE, rest);
    if Cur(rest).kind == LPAREN {
      CallOnNilPanics([CLOSE] + rest, errs, LOWEST);
    } else {
      NothingBinds([CLOSE] + rest, errs, LOWEST, NilExpr);
    }
    hide ParseInfixes;
  }
}
