/** From text to meaning, through lexer, parser and evaluator: what programs written down
    evaluate to, and where their names stand. */
module ProgramTexts {
  import opened Wrappers
  import opened Sequences
  import opened Tokens
  import opened Lexing
  import opened Ast
  import opened Parsing
  import opened Printing
  import opened Grammar
  import opened PrecedenceGrammar
  import opened NormalForm
  import opened Evaluation
  import opened ProgramLaws
  import opened ProgramMetadata
  import Decimal
  import ParserPanics

  // ----- Printed trees -----

  /** The tokens kept in a tree do not matter to the evaluator. */
  lemma {:induction false} SameTreeSameOutcome(a: Expression, b: Expression, env: Environment)
    requires SameTree(a, b)
    ensures Eval(a, env) == Eval(b, env)
    decreases a, 1
  {
    hide EvalInfix, EvalPrefix, ApplyFunction, Resolve, Decimal.SetString;
    match a
    case ArrayLiteral(_, elements) => SameTreesSameOutcomes(elements, b.elements, env);
    case CallExpression(_, _, arguments) => SameTreesSameOutcomes(arguments, b.arguments, env);
    case PrefixExpression(_, _, right) => SameTreeSameOutcome(right, b.right, env);
    case InfixExpression(_, left, _, right) =>
      SameTreeSameOutcome(left, b.left, env);
      SameTreeSameOutcome(right, b.right, env);
    case _ =>
  }

  lemma {:induction false} SameTreesSameOutcomes(a: seq<Expression>, b: seq<Expression>, env: Environment)
    requires SameTrees(a, b)
    ensures EvalAll(a, env) == EvalAll(b, env)
    decreases a, 0
  {
    hide Eval;
    if a != [] {
      SameTreeSameOutcome(a[0], b[0], env);
      SameTreesSameOutcomes(a[1..], b[1..], env);
    }
  }

  /** The text evaluates to this, without a syntax error. */
  ghost predicate TextGives(s: string, env: Environment, outcome: Evaluation.Outcome<Object>) {
    Clean(Parse(s)) && Eval(Parse(s).value, env) == outcome
  }

  /** The text of a tree means what the tree means. */
  lemma PrintedTextMeans(e: Expression, env: Environment)
    requires Printable(e) && HasCallees(e)
    ensures TextGives(Stringify(e), env, Eval(e, env))
  {
    ParseStringify(e);
    hide Eval, Parse, Stringify, Printable, HasCallees, SameTree;
    SameTreeSameOutcome(Parse(Stringify(e)).value, e, env);
  }

  // ----- Literals -----

  /** Decimals are numbers. */
  lemma NumberText(n: nat, env: Environment)
    ensures TextGives(Decimal.String(n), env, Value(Integer(n)))
  {
    Decimal.DigitsCanonical(n);
    Decimal.SetStringOfString(n);
    var e := IntegerLiteral(END, Decimal.String(n));
    PrintedTextMeans(e, env);
    hide TextGives, Decimal.SetString, Decimal.String;
  }

  /** Quoted texts are texts. */
  lemma QuotedText(s: string, env: Environment)
    requires IsText(s)
    ensures TextGives("\"" + s + "\"", env, Value(String(s)))
  {
    PrintedTextMeans(StringLiteral(END, s), env);
    hide TextGives;
  }

  /** `true` and `false` are the truth values. */
  lemma TruthText(b: bool, env: Environment)
    ensures TextGives(if b then "true" else "false", env, Value(Boolean(b)))
  {
    PrintedTextMeans(BooleanLiteral(END, b), env);
    hide TextGives;
  }

  /** Digits have their places, and a minus sign makes the number negative. */
  lemma DecimalPlaces(s: string, d: char)
    requires Decimal.AllDigits(s) && '0' <= d <= '9'
    ensures var n := if s == "" then 0 else Decimal.SetString(s).value;
            (s != "" ==> Decimal.SetString(s).Some?)
            && Decimal.SetString(s + [d]) == Some(10 * n + (d as int - '0' as int))
            && Decimal.SetString("-" + (s + [d])) == Some(-(10 * n + (d as int - '0' as int)))
  {
    var t := s + [d];
    OneMoreDigit(s, d);
    hide Decimal.SetString, Decimal.ValueOf;
    Decimal.StringOfSetString(t);
    NegativeText(t);
    if s != "" {
      Decimal.StringOfSetString(s);
    }
  }

  lemma OneMoreDigit(s: string, d: char)
    requires Decimal.AllDigits(s) && '0' <= d <= '9'
    ensures Decimal.AllDigits(s + [d]) && Decimal.ValueOf("") == 0
    ensures Decimal.ValueOf(s + [d]) == 10 * Decimal.ValueOf(s) + (d as int - '0' as int)
  {
    assert (s + [d])[..|s|] == s && (s + [d])[|s|] == d;
  }

  lemma NegativeText(t: string)
    requires t != "" && Decimal.AllDigits(t)
    ensures Decimal.SetString("-" + t) == Some(0 - Decimal.ValueOf(t))
  {
    hide Decimal.ValueOf;
    assert ("-" + t)[1..] == t;
  }

  // ----- Operators -----

  function Number(n: nat): Syntax { Atom(Token(INT, Decimal.String(n))) }

  lemma NumberIsAtom(n: nat)
    ensures IsOperand(Number(n)) && TokensOf(Number(n)) == [Token(INT, Decimal.String(n))]
    ensures forall env :: Eval(TreeOf(Number(n)), env) == Value(Integer(n))
  {
    Decimal.DigitsCanonical(n);
    Decimal.SetStringOfString(n);
    assert WellLexed(Token(INT, Decimal.String(n)));
  }

  lemma LexDecimal(n: nat, rest: string)
    requires rest == "" || !IsDigit(rest[0])
    ensures Lexes(Decimal.String(n), [Token(INT, Decimal.String(n))], rest)
  {
    Decimal.DigitsCanonical(n);
    LexNumber(Decimal.String(n), rest);
  }

  /** An operator between blanks, and what follows it. */
  lemma LexOperatorTail(op: string, body: string, ts: seq<Token>, rest: string)
    requires IsOperator(op) && Lexes(body, ts, rest)
    ensures Lexes(" " + (op + (" " + body)), [OpToken(op)] + ts, rest)
  {
    hide *;
    LexSpaced(body, ts, rest);
    LexOperator(op, body + rest);
    Associate(" ", body, rest);
    LexBehind(op, OpToken(op), " " + body, ts, rest);
    LexSpaced(op + (" " + body), [OpToken(op)] + ts, rest);
  }

  function BinaryText(m: nat, op: string, n: nat): string {
    Decimal.String(m) + (" " + (op + (" " + Decimal.String(n))))
  }

  lemma LexBinary(m: nat, op: string, n: nat)
    requires IsOperator(op)
    ensures Tokenize(BinaryText(m, op, n))
         == [Token(INT, Decimal.String(m))] + ([OpToken(op)] + [Token(INT, Decimal.String(n))])
  {
    hide Tokenize, Decimal.String;
    var tail := " " + (op + (" " + Decimal.String(n)));
    LexDecimal(n, "");
    LexOperatorTail(op, Decimal.String(n), [Token(INT, Decimal.String(n))], "");
    AppendNothing(tail);
    LexDecimal(m, tail);
    TokenizeNothing();
    AppendNothing([OpToken(op)] + [Token(INT, Decimal.String(n))]);
  }

  /** Two numbers and an operator, as text: the operator gets the numbers in this order. */
  lemma BinaryTextGives(m: nat, op: string, n: nat, env: Environment)
    requires IsOperator(op)
    ensures TextGives(BinaryText(m, op, n), env, EvalInfix(Integer(m), op, Integer(n)))
  {
    hide Tokenize, Parse, Eval, Decimal.String, EvalInfix, BinaryText, Derivation, TokensOf, TreeOf, Number;
    var x := Binary(Number(m), OpToken(op), Number(n));
    LexBinary(m, op, n);
    NumbersDerive(m, op, n);
    AppendNothing(TokensOf(x));
    DerivationIsAccepted(BinaryText(m, op, n), x, []);
    InfixOfNumbers(m, op, n, env);
  }

  lemma NumbersDerive(m: nat, op: string, n: nat)
    requires IsOperator(op)
    ensures var x := Binary(Number(m), OpToken(op), Number(n));
            && Derivation(x)
            && TokensOf(x) == [Token(INT, Decimal.String(m))] + ([OpToken(op)] + [Token(INT, Decimal.String(n))])
  {
    NumberIsAtom(m);
    NumberIsAtom(n);
    StrengthIsPrecedence(op);
    hide Decimal.String, Strength, OperatorType;
  }

  lemma InfixOfNumbers(m: nat, op: string, n: nat, env: Environment)
    ensures Eval(TreeOf(Binary(Number(m), OpToken(op), Number(n))), env) == EvalInfix(Integer(m), op, Integer(n))
  {
    hide EvalInfix, Number, TreeOf, Eval, TokensOf;
    NumberIsAtom(m);
    NumberIsAtom(n);
    BinaryTokens(Binary(Number(m), OpToken(op), Number(n)));
    LeftComesFirst(OpToken(op), TreeOf(Number(m)), op, TreeOf(Number(n)), env);
  }

  /** For instance. */
  lemma ArithmeticTexts(m: nat, n: nat, env: Environment)
    ensures TextGives(BinaryText(m, "+", n), env, Value(Integer(m + n)))
    ensures TextGives(BinaryText(m, "-", n), env, Value(Integer(m - n)))
    ensures TextGives(BinaryText(m, "*", n), env, Value(Integer(m * n)))
    ensures TextGives(BinaryText(m, "<", n), env, Value(Boolean(m < n)))
    ensures TextGives(BinaryText(m, ">=", n), env, Value(Boolean(m >= n)))
  {
    hide *;
    TheseAreOperators();
    BinaryTextGives(m, "+", n, env);
    BinaryTextGives(m, "-", n, env);
    BinaryTextGives(m, "*", n, env);
    BinaryTextGives(m, "<", n, env);
    BinaryTextGives(m, ">=", n, env);
    IntegersCompute(m, n);
    IntegersCompare(m, n);
  }

  lemma TheseAreOperators()
    ensures IsOperator("+") && IsOperator("-") && IsOperator("*") && IsOperator("<") && IsOperator(">=")
  {}

  /** The operators from the loosest to the tightest, equal ones together. */
  lemma TiersInOrder()
    ensures Strength("||") < Strength("&&") < Strength("==") == Strength("!=") < Strength(">")
    ensures Strength(">") == Strength("<") == Strength(">=") == Strength("<=") < Strength("+")
    ensures Strength("+") == Strength("-") < Strength("*") == Strength("/")
  {}

  // ----- Names -----

  /** The names in a program: those in front of an opening parenthesis, or the other ones. */
  function NamesIn(ts: seq<Token>, called: bool): seq<string> {
    if ts == [] then []
    else (if ts[0].kind == IDENT && (Ahead(ts).kind == LPAREN) == called then [ts[0].literal] else [])
         + NamesIn(ts[1..], called)
  }

  lemma {:induction false} NamesConcat(a: seq<Token>, b: seq<Token>, called: bool)
    requires a == [] || b == [] || a[|a| - 1].kind != IDENT || b[0].kind != LPAREN
    ensures NamesIn(a + b, called) == NamesIn(a, called) + NamesIn(b, called)
    decreases |a|
  {
    if a == [] {
      AppendNothing(b);
      AppendNothing(NamesIn(b, called));
    } else {
      NamesConcat(a[1..], b, called);
      FirstName(a, called);
      FirstName(a + b, called);
      hide NamesIn;
      assert (a + b)[1..] == a[1..] + b;
      assert |a| > 1 ==> Ahead(a + b) == Ahead(a);
      assert |a| == 1 && b != [] ==> Ahead(a + b) == b[0];
    }
  }

  lemma FirstName(ts: seq<Token>, called: bool)
    requires ts != []
    ensures NamesIn(ts, called)
         == (if ts[0].kind == IDENT && (Ahead(ts).kind == LPAREN) == called then [ts[0].literal] else [])
            + NamesIn(ts[1..], called)
  {}

  lemma NamesOfOne(t: Token, called: bool)
    ensures NamesIn([t], called) == if t.kind == IDENT && !called then [t.literal] else []
  {
    assert [t][1..] == [];
  }

  lemma NamesBetween(open: Token, body: seq<Token>, close: Token, called: bool)
    requires open.kind != IDENT && close.kind != LPAREN && close.kind != IDENT
    ensures NamesIn([open] + body + [close], called) == NamesIn(body, called)
  {
    NamesConcat([open], body, called);
    NamesConcat([open] + body, [close], called);
    NamesOfOne(open, called);
    NamesOfOne(close, called);
  }

  /** The metadata of a tree are the names of its text, each as often as it stands there and in
      that order: the called ones are the functions. */
  lemma {:induction false} NamesOfDerivation(x: Syntax)
    requires Derivation(x) && ParserPanics.PlainCalls(x)
    ensures NamesIn(TokensOf(x), false) == Identifiers(TreeOf(x))
    ensures NamesIn(TokensOf(x), true) == FunctionIdentifiers(TreeOf(x))
    decreases x, 1
  {
    hide NamesIn, WellLexed, Strength;
    match x
    case Atom(token) =>
      NamesOfAtom(token);
    case Group(inner) =>
      NamesOfDerivation(inner);
      NamesBetween(OPEN, TokensOf(inner), CLOSE, false);
      NamesBetween(OPEN, TokensOf(inner), CLOSE, true);
    case List(elements) =>
      NamesOfItems(elements);
      NamesBetween(OPEN_LIST, ItemTokens(elements), CLOSE_LIST, false);
      NamesBetween(OPEN_LIST, ItemTokens(elements), CLOSE_LIST, true);
    case Call(callee, arguments) =>
      NamesOfItems(arguments);
      NamesOfCall(callee.token, ItemTokens(arguments));
    case Minus(token, operand) =>
      NamesOfDerivation(operand);
      NamesBehind(token, TokensOf(operand));
    case Binary(left, op, right) =>
      NamesOfDerivation(left);
      NamesOfDerivation(right);
      NamesBehind(op, TokensOf(right));
      NamesConcat(TokensOf(left), [op] + TokensOf(right), false);
      NamesConcat(TokensOf(left), [op] + TokensOf(right), true);
  }

  lemma NamesOfAtom(token: Token)
    requires Derivation(Atom(token))
    ensures NamesIn([token], false) == Identifiers(AtomTree(token))
    ensures NamesIn([token], true) == FunctionIdentifiers(AtomTree(token))
  {
    NamesOfOne(token, false);
    NamesOfOne(token, true);
    hide Decimal.SetString, Decimal.String;
  }

  lemma NamesBehind(t: Token, ts: seq<Token>)
    requires t.kind != IDENT
    ensures forall called :: NamesIn([t] + ts, called) == NamesIn(ts, called)
  {
    forall called
      ensures NamesIn([t] + ts, called) == NamesIn(ts, called)
    {
      NamesConcat([t], ts, called);
      NamesOfOne(t, called);
    }
  }

  lemma NamesOfCall(name: Token, items: seq<Token>)
    requires name.kind == IDENT
    ensures NamesIn([name] + ([OPEN] + items + [CLOSE]), false) == NamesIn(items, false)
    ensures NamesIn([name] + ([OPEN] + items + [CLOSE]), true) == [name.literal] + NamesIn(items, true)
  {
    var behind := [OPEN] + items + [CLOSE];
    NamesBetween(OPEN, items, CLOSE, false);
    NamesBetween(OPEN, items, CLOSE, true);
    assert ([name] + behind)[1..] == behind && Ahead([name] + behind) == OPEN;
  }

  lemma {:induction false} NamesOfItems(xs: seq<Syntax>)
    requires Derivations(xs) && ParserPanics.AllPlainCalls(xs)
    ensures NamesIn(ItemTokens(xs), false) == AllIdentifiers(TreesOf(xs))
    ensures NamesIn(ItemTokens(xs), true) == AllFunctionIdentifiers(TreesOf(xs))
    ensures NamesIn(TailTokensOf(xs), false) == AllIdentifiers(TreesOf(xs))
    ensures NamesIn(TailTokensOf(xs), true) == AllFunctionIdentifiers(TreesOf(xs))
    decreases xs, 0
  {
    hide TokensOf, TreeOf, Derivation, Identifiers, FunctionIdentifiers;
    if xs != [] {
      NamesOfDerivation(xs[0]);
      NamesOfItems(xs[1..]);
      NamesConcat(TokensOf(xs[0]), TailTokensOf(xs[1..]), false);
      NamesConcat(TokensOf(xs[0]), TailTokensOf(xs[1..]), true);
      NamesBehind(SEPARATOR, ItemTokens(xs));
      hide NamesIn;
      assert TreesOf(xs)[0] == TreeOf(xs[0]) && TreesOf(xs)[1..] == TreesOf(xs[1..]);
    }
  }

  /** So the metadata of an accepted program can be read off its tokens, unless it calls names in
      parentheses. */
  lemma MetadataOfText(s: string, x: Syntax)
    requires Derivation(x) && ParserPanics.PlainCalls(x) && Tokenize(s) == TokensOf(x)
    ensures Clean(Parse(s))
    ensures Identifiers(Parse(s).value) == NamesIn(Tokenize(s), false)
    ensures FunctionIdentifiers(Parse(s).value) == NamesIn(Tokenize(s), true)
  {
    hide Tokenize, Parse, Derivation, TokensOf, TreeOf, Identifiers, FunctionIdentifiers;
    AppendNothing(TokensOf(x));
    DerivationIsAccepted(s, x, []);
    NamesOfDerivation(x);
  }
}
