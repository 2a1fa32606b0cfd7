/** Printing and parsing undo each other: the text of a printed tree is a derivation. */
module RoundTrip {
  import opened Wrappers
  import opened Sequences
  import opened Tokens
  import opened Ast
  import opened Parsing
  import opened Printing
  import opened Grammar
  import Decimal

  /** The token the parser stands on after it has read the printed tree. */
  function Last(e: Expression): Token
    requires Printable(e)
  {
    PrintTokens(e)[|PrintTokens(e)| - 1]
  }

  /** The derivation that the printer writes: parentheses around every operator. */
  function Written(e: Expression): Syntax
    requires Printable(e)
    decreases e, 1
  {
    match e
    case Ident(ident) => Atom(Token(IDENT, ident.value))
    case IntegerLiteral(_, value) => Atom(Token(INT, value))
    case BooleanLiteral(_, truth) => Atom(BoolToken(truth))
    case StringLiteral(_, value) => Atom(Token(STRING, value))
    case ArrayLiteral(_, elements) => List(AllWritten(elements))
    case CallExpression(_, callee, arguments) =>
      Call(Atom(Token(IDENT, callee.value.value)), AllWritten(arguments))
    case PrefixExpression(_, operator, right) => Group(Minus(Token(SUB, operator), Written(right)))
    case InfixExpression(_, left, operator, right) => Group(Binary(Written(left), OpToken(operator), Written(right)))
  }

  function AllWritten(es: seq<Expression>): (xs: seq<Syntax>)
    requires AllPrintable(es)
    ensures |xs| == |es|
    decreases es, 0
  {
    if es == [] then [] else [Written(es[0])] + AllWritten(es[1..])
  }

  lemma {:induction false} PrintedIsWritten(e: Expression)
    requires Printable(e)
    ensures Derivation(Written(e)) && !Written(e).Binary? && !Written(e).Minus?
    ensures TokensOf(Written(e)) == PrintTokens(e) && TreeOf(Written(e)) == Retoken(e)
    decreases e, 1
  {
    match e
    case IntegerLiteral(_, value) =>
      Decimal.StringOfSetString(value);
    case ArrayLiteral(_, elements) =>
      ItemsAreWritten(elements);
    case CallExpression(_, callee, arguments) =>
      ItemsAreWritten(arguments);
      var name, items := Token(IDENT, callee.value.value), ListTokens(arguments);
      CallTokens(Written(e), Identifier(name, name.literal));
      assert PrintTokens(e) == [name] + [OPEN] + items + [CLOSE];
      Associate4([name], [OPEN], items, [CLOSE]);
      Associate([OPEN], items, [CLOSE]);
    case PrefixExpression(_, _, right) =>
      PrefixIsWritten(e);
    case InfixExpression(_, _, _, _) =>
      InfixIsWritten(e);
    case _ =>
  }

  lemma {:induction false} PrefixIsWritten(e: Expression)
    requires Printable(e) && e.PrefixExpression?
    ensures Derivation(Written(e)) && TokensOf(Written(e)) == PrintTokens(e) && TreeOf(Written(e)) == Retoken(e)
    decreases e, 0
  {
    PrintedIsWritten(e.right);
    var x := Minus(Token(SUB, "-"), Written(e.right));
    MinusTokens(x);
    GroupTokens(Group(x));
    assert Derivation(x) && Written(e) == Group(x);
    assert PrintTokens(e) == [OPEN] + [x.token] + PrintTokens(e.right) + [CLOSE];
    hide PrintTokens, TokensOf, Retoken, TreeOf;
    Associate([OPEN], [x.token], PrintTokens(e.right));
  }

  lemma {:induction false} InfixIsWritten(e: Expression)
    requires Printable(e) && e.InfixExpression?
    ensures Derivation(Written(e)) && TokensOf(Written(e)) == PrintTokens(e) && TreeOf(Written(e)) == Retoken(e)
    decreases e, 0
  {
    hide *;
    InfixParts(e);
    PrintedIsWritten(e.left);
    PrintedIsWritten(e.right);
    var op := OpToken(e.operator);
    var x := Binary(Written(e.left), op, Written(e.right));
    BinaryWritten(x, e.operator);
    BinaryTokens(x);
    GroupTokens(Group(x));
    Associate4([OPEN], PrintTokens(e.left), [op], PrintTokens(e.right));
  }

  lemma InfixParts(e: Expression)
    requires Printable(e) && e.InfixExpression?
    ensures Printable(e.left) && Printable(e.right) && IsOperator(e.operator) && OpToken(e.operator).literal == e.operator
    ensures PrintTokens(e) == [OPEN] + PrintTokens(e.left) + [OpToken(e.operator)] + PrintTokens(e.right) + [CLOSE]
    ensures Retoken(e) == InfixExpression(OpToken(e.operator), Retoken(e.left), e.operator, Retoken(e.right))
    ensures Written(e) == Group(Binary(Written(e.left), OpToken(e.operator), Written(e.right)))
  {}

  /** Operands that are no bare operator applications may stand around any operator. */
  lemma BinaryWritten(x: Syntax, op: string)
    requires x.Binary? && Derivation(x.left) && Derivation(x.right) && IsOperator(op) && x.op == OpToken(op)
    requires !x.left.Binary? && !x.left.Minus? && !x.right.Binary?
    ensures Derivation(Group(x))
  {
    OperatorTokens(op);
    hide Strength, OpToken, BinaryOperator, WellLexed;
  }

  lemma OperatorTokens(op: string)
    requires IsOperator(op)
    ensures WellLexed(OpToken(op)) && BinaryOperator(OpToken(op).kind) && LOWEST < Strength(op) < PREFIX
  {
    StrengthIsPrecedence(op);
    hide Strength, OperatorType;
  }

  lemma {:induction false} ItemsAreWritten(es: seq<Expression>)
    requires AllPrintable(es)
    ensures Derivations(AllWritten(es))
    ensures ItemTokens(AllWritten(es)) == ListTokens(es) && TreesOf(AllWritten(es)) == RetokenAll(es)
    ensures TailTokensOf(AllWritten(es)) == TailTokens(es)
    decreases es, 0
  {
    hide PrintTokens, TokensOf, Retoken, TreeOf, Derivation, Written;
    if es != [] {
      PrintedIsWritten(es[0]);
      ItemsAreWritten(es[1..]);
      ItemsFrom(Written(es[0]), AllWritten(es[1..]));
    }
  }

  /** The key to the round trip: on the tokens of a printed tree, whatever follows them, the
      parser ends up where its loop starts with that tree as the left operand. */
  lemma ParsePrinted(e: Expression, rest: seq<Token>, errs: seq<ParseError>, p: int)
    requires Printable(e) && p < CALL
    ensures ParseExpression(PrintTokens(e) + rest, errs, p) == ParseInfixes([Last(e)] + rest, errs, p, Retoken(e))
  {
    hide ParseExpression, ParseInfixes, Written, TokensOf, PrintTokens, TreeOf, Retoken, Derivation;
    PrintedIsWritten(e);
    DerivationParses(Written(e), rest, errs, p);
  }
}
