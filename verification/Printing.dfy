/** Printed trees as text and as tokens: the text of every printable tree lexes to the tree's
    tokens. */
module Printing {
  import opened Wrappers
  import opened Sequences
  import opened Tokens
  import opened Lexing
  import opened Ast
  import opened Parsing
  import Decimal

  /** The binary operators by their text. */
  function OperatorType(op: string): TokenType {
    if op == "+" then ADD
    else if op == "-" then SUB
    else if op == "*" then MUL
    else if op == "/" then DIV
    else if op == ">" then GT
    else if op == "<" then LT
    else if |op| == 2 then TwoByteType(op[0], op[1])
    else ILLEGAL
  }

  predicate IsOperator(op: string) { OperatorType(op) != ILLEGAL }

  predicate IsName(s: string) {
    && s != "" && IsLetter(s[0])
    && (forall i | 0 <= i < |s| :: IsIdentChar(s[i]))
    && LookupIdent(s) == IDENT
  }

  predicate IsText(s: string) { forall i | 0 <= i < |s| :: IsStringChar(s[i]) }

  /** Trees whose printed form is source text: names that lex as names, canonical numbers,
      strings without quote and NUL, the parser's operators, no nil child. */
  predicate Printable(e: Expression) {
    match e
    case NilExpr => false
    case Unset => false
    case Ident(ident) => IsName(ident.value)
    case IntegerLiteral(_, value) => Decimal.Canonical(value)
    case BooleanLiteral(_, _) => true
    case StringLiteral(_, value) => IsText(value)
    case ArrayLiteral(_, elements) => AllPrintable(elements)
    case CallExpression(_, callee, arguments) =>
      callee.Some? && IsName(callee.value.value) && AllPrintable(arguments)
    case PrefixExpression(_, operator, right) => operator == "-" && Printable(right)
    case InfixExpression(_, left, operator, right) => IsOperator(operator) && Printable(left) && Printable(right)
  }

  predicate AllPrintable(es: seq<Expression>) {
    forall i | 0 <= i < |es| :: Printable(es[i])
  }

  lemma PrintableHasCallees(e: Expression)
    requires Printable(e)
    ensures HasCallees(e)
  {
  }

  /** The tree with the parser's own tokens in its nodes; nothing else changes. */
  function Retoken(e: Expression): Expression {
    match e
    case Ident(ident) => Ident(NameNode(ident))
    case IntegerLiteral(_, value) => IntegerLiteral(Token(INT, value), value)
    case BooleanLiteral(_, truth) => BooleanLiteral(BoolToken(truth), truth)
    case StringLiteral(_, value) => StringLiteral(Token(STRING, value), value)
    case ArrayLiteral(_, elements) => ArrayLiteral(Token(LBRACKET, "["), RetokenAll(elements))
    case CallExpression(_, callee, arguments) =>
      CallExpression(Token(LPAREN, "("),
                     if callee.Some? then Some(NameNode(callee.value)) else None,
                     RetokenAll(arguments))
    case PrefixExpression(_, operator, right) => PrefixExpression(Token(SUB, operator), operator, Retoken(right))
    case InfixExpression(_, left, operator, right) =>
      InfixExpression(OpToken(operator), Retoken(left), operator, Retoken(right))
    case _ => e
  }

  function RetokenAll(es: seq<Expression>): (r: seq<Expression>)
    ensures |r| == |es| && forall i | 0 <= i < |es| :: r[i] == Retoken(es[i])
  {
    if es == [] then [] else [Retoken(es[0])] + RetokenAll(es[1..])
  }

  function NameNode(ident: Identifier): Identifier { Identifier(Token(IDENT, ident.value), ident.value) }

  function BoolToken(truth: bool): Token { if truth then Token(TRUE, "true") else Token(FALSE, "false") }

  function OpToken(op: string): Token { Token(OperatorType(op), op) }

  /** The tokens of the printed tree. */
  function PrintTokens(e: Expression): (ts: seq<Token>)
    requires Printable(e)
    ensures ts != [] && HasPrefix(ts[0].kind)
    decreases e, 0
  {
    match e
    case Ident(ident) => [Token(IDENT, ident.value)]
    case IntegerLiteral(_, value) => [Token(INT, value)]
    case BooleanLiteral(_, truth) => [BoolToken(truth)]
    case StringLiteral(_, value) => [Token(STRING, value)]
    case ArrayLiteral(_, elements) => [Token(LBRACKET, "[")] + ListTokens(elements) + [Token(RBRACKET, "]")]
    case CallExpression(_, callee, arguments) =>
      [Token(IDENT, callee.value.value)] + [Token(LPAREN, "(")] + ListTokens(arguments) + [Token(RPAREN, ")")]
    case PrefixExpression(_, _, right) =>
      [Token(LPAREN, "(")] + [Token(SUB, "-")] + PrintTokens(right) + [Token(RPAREN, ")")]
    case InfixExpression(_, left, operator, right) =>
      [Token(LPAREN, "(")] + PrintTokens(left) + [OpToken(operator)] + PrintTokens(right) + [Token(RPAREN, ")")]
  }

  function ListTokens(es: seq<Expression>): seq<Token>
    requires AllPrintable(es)
    decreases es, 0
  {
    if es == [] then [] else PrintTokens(es[0]) + TailTokens(es[1..])
  }

  function TailTokens(es: seq<Expression>): seq<Token>
    requires AllPrintable(es)
    decreases es, 1
  {
    if es == [] then [] else [Token(COMMA, ",")] + ListTokens(es)
  }

  // ----- Lexing the printed text -----

  /** `text`, followed by `rest`, lexes to `ts` and whatever `rest` lexes to. */
  ghost predicate Lexes(text: string, ts: seq<Token>, rest: string) {
    Tokenize(text + rest) == ts + Tokenize(rest)
  }

  lemma LexesConcat(a: string, ta: seq<Token>, b: string, tb: seq<Token>, rest: string)
    requires Lexes(a, ta, b + rest) && Lexes(b, tb, rest)
    ensures Lexes(a + b, ta + tb, rest)
  {
    hide Tokenize;
    assert (a + b) + rest == a + (b + rest);
  }

  lemma SpanOfConcat(s: string, rest: string, f: char -> bool)
    requires forall i | 0 <= i < |s| :: f(s[i])
    requires rest == "" || !f(rest[0])
    ensures Span(s + rest, f) == |s|
  {
    assert forall i | 0 <= i < |s| :: (s + rest)[i] == s[i];
    assert rest != "" ==> (s + rest)[|s|] == rest[0];
  }

  /** The first token of a text that starts without whitespace. */
  lemma TokenizeFirst(w: string)
    requires w != "" && !IsSpace(w[0])
    ensures |TokenAt(w).rest| < |w|
    ensures Tokenize(w) == [TokenAt(w).token] + Tokenize(TokenAt(w).rest)
  {
    assert SkipSpace(w) == w;
  }

  lemma LexSpace(rest: string)
    ensures Lexes(" ", [], rest)
  {
    var s := " " + rest;
    assert s[1..] == rest;
    assert SkipSpace(s) == SkipSpace(rest);
  }

  lemma LexByte(c: char, rest: string)
    requires c == '(' || c == ')' || c == ',' || c == '[' || c == ']' || c == '-'
    ensures Lexes([c], [Token(OneByteType(c), [c])], rest)
  {
    hide Tokenize;
    var w := [c] + rest;
    assert w[1..] == rest;
    TokenizeFirst(w);
  }

  lemma PunctuationBytes()
    ensures OneByteType('(') == LPAREN && OneByteType(')') == RPAREN && OneByteType('-') == SUB
    ensures OneByteType('[') == LBRACKET && OneByteType(']') == RBRACKET && OneByteType(',') == COMMA
  {}

  lemma LexOperator(op: string, rest: string)
    requires IsOperator(op)
    ensures Lexes(op, [OpToken(op)], " " + rest)
  {
    hide Tokenize;
    var w := op + (" " + rest);
    assert w[|op|..] == " " + rest && w[..|op|] == op;
    TokenizeFirst(w);
  }

  lemma LexWord(s: string, rest: string)
    requires s != "" && IsLetter(s[0]) && (forall i | 0 <= i < |s| :: IsIdentChar(s[i]))
    requires rest == "" || !IsIdentChar(rest[0])
    ensures Lexes(s, [Token(LookupIdent(s), s)], rest)
  {
    hide Tokenize;
    SpanOfConcat(s, rest, IsIdentChar);
    assert (s + rest)[..|s|] == s && (s + rest)[|s|..] == rest;
    TokenizeFirst(s + rest);
  }

  lemma LexNumber(s: string, rest: string)
    requires s != "" && Decimal.AllDigits(s)
    requires rest == "" || !IsDigit(rest[0])
    ensures Lexes(s, [Token(INT, s)], rest)
  {
    hide Tokenize;
    SpanOfConcat(s, rest, IsDigit);
    assert (s + rest)[..|s|] == s && (s + rest)[|s|..] == rest;
    TokenizeFirst(s + rest);
  }

  lemma LexText(s: string, rest: string)
    requires IsText(s)
    ensures Lexes("\"" + s + "\"", [Token(STRING, s)], rest)
  {
    hide Tokenize;
    var inner := s + ("\"" + rest);
    var w := "\"" + s + "\"" + rest;
    assert w[1..] == inner;
    SpanOfConcat(s, "\"" + rest, IsStringChar);
    assert inner[..|s|] == s && inner[|s|..] == "\"" + rest && inner[|s| + 1..] == rest;
    TokenizeFirst(w);
  }

  lemma {:induction false} LexPrinted(e: Expression, rest: string)
    requires Printable(e) && HasCallees(e)
    requires rest == "" || !IsIdentChar(rest[0])
    ensures Lexes(Stringify(e), PrintTokens(e), rest)
    decreases e, 1
  {
    hide Tokenize;
    match e
    case Ident(ident) => LexWord(ident.value, rest);
    case IntegerLiteral(_, value) => LexNumber(value, rest);
    case BooleanLiteral(_, truth) => LexWord(if truth then "true" else "false", rest);
    case StringLiteral(_, value) => LexText(value, rest);
    case ArrayLiteral(_, elements) => LexDelimited('[', elements, ']', rest);
    case CallExpression(_, _, _) => LexPrintedCall(e, rest);
    case PrefixExpression(_, _, _) => LexPrintedPrefix(e, rest);
    case InfixExpression(_, _, _, _) => LexPrintedInfix(e, rest);
  }

  lemma {:induction false} LexDelimited(open: char, es: seq<Expression>, close: char, rest: string)
    requires AllPrintable(es) && HaveCallees(es)
    requires open == '(' || open == '['
    requires close == ')' || close == ']'
    ensures Lexes([open] + StringifyList(es) + [close],
                  [Token(OneByteType(open), [open])] + ListTokens(es) + [Token(OneByteType(close), [close])], rest)
    decreases es, 1
  {
    hide Tokenize;
    LexPrintedList(es, [close] + rest);
    LexBetween(open, StringifyList(es), ListTokens(es), close, rest);
    assert [open] + (StringifyList(es) + [close]) == [open] + StringifyList(es) + [close];
    assert [Token(OneByteType(open), [open])] + (ListTokens(es) + [Token(OneByteType(close), [close])])
        == [Token(OneByteType(open), [open])] + ListTokens(es) + [Token(OneByteType(close), [close])];
  }

  lemma LexBetween(open: char, list: string, listTokens: seq<Token>, close: char, rest: string)
    requires open == '(' || open == '['
    requires close == ')' || close == ']'
    requires Lexes(list, listTokens, [close] + rest)
    ensures Lexes([open] + (list + [close]),
                  [Token(OneByteType(open), [open])] + (listTokens + [Token(OneByteType(close), [close])]), rest)
  {
    hide *;
    var end := [Token(OneByteType(close), [close])];
    LexByte(close, rest);
    LexesConcat(list, listTokens, [close], end, rest);
    LexByte(open, (list + [close]) + rest);
    LexBehind([open], Token(OneByteType(open), [open]), list + [close], listTokens + end, rest);
  }

  lemma {:induction false} LexPrintedCall(e: Expression, rest: string)
    requires Printable(e) && HasCallees(e) && e.CallExpression?
    ensures Lexes(Stringify(e), PrintTokens(e), rest)
    decreases e, 0
  {
    hide Tokenize, Lexes;
    var name, list, listTokens := e.callee.value.value, StringifyList(e.arguments), ListTokens(e.arguments);
    var body, bodyTokens := "(" + list + ")", [Token(LPAREN, "(")] + listTokens + [Token(RPAREN, ")")];
    LexDelimited('(', e.arguments, ')', rest);
    LexCall(name, body, bodyTokens, rest);
    Associate4(name, "(", list, ")");
    Associate("(", list, ")");
    Associate4([Token(IDENT, name)], [Token(LPAREN, "(")], listTokens, [Token(RPAREN, ")")]);
    Associate([Token(LPAREN, "(")], listTokens, [Token(RPAREN, ")")]);
  }

  lemma LexCall(name: string, body: string, bodyTokens: seq<Token>, rest: string)
    requires IsName(name) && body != "" && body[0] == '(' && Lexes(body, bodyTokens, rest)
    ensures Lexes(name + body, [Token(IDENT, name)] + bodyTokens, rest)
  {
    hide Tokenize, Lexes;
    assert (body + rest)[0] == '(';
    LexWord(name, body + rest);
    LexBehind(name, Token(IDENT, name), body, bodyTokens, rest);
  }

  lemma {:induction false} LexPrintedPrefix(e: Expression, rest: string)
    requires Printable(e) && HasCallees(e) && e.PrefixExpression?
    ensures Lexes(Stringify(e), PrintTokens(e), rest)
    decreases e, 0
  {
    hide Tokenize;
    LexPrinted(e.right, ")" + rest);
    LexPrefix(Stringify(e.right), PrintTokens(e.right), rest);
    assert "(" + ("-" + (Stringify(e.right) + ")")) == Stringify(e);
    assert [Token(LPAREN, "(")] + ([Token(SUB, "-")] + (PrintTokens(e.right) + [Token(RPAREN, ")")])) == PrintTokens(e);
  }

  lemma LexPrefix(right: string, rightTokens: seq<Token>, rest: string)
    requires Lexes(right, rightTokens, ")" + rest)
    ensures Lexes("(" + ("-" + (right + ")")),
                  [Token(LPAREN, "(")] + ([Token(SUB, "-")] + (rightTokens + [Token(RPAREN, ")")])), rest)
  {
    hide *;
    var body, bodyTokens := right + ")", rightTokens + [Token(RPAREN, ")")];
    PunctuationBytes();
    LexByte(')', rest);
    LexesConcat(right, rightTokens, ")", [Token(RPAREN, ")")], rest);
    LexByte('-', body + rest);
    LexBehind("-", Token(SUB, "-"), body, bodyTokens, rest);
    LexByte('(', ("-" + body) + rest);
    LexBehind("(", Token(LPAREN, "("), "-" + body, [Token(SUB, "-")] + bodyTokens, rest);
  }

  /** One token in front of text that lexes. */
  lemma LexBehind(a: string, t: Token, b: string, tb: seq<Token>, rest: string)
    requires Lexes(a, [t], b + rest) && Lexes(b, tb, rest)
    ensures Lexes(a + b, [t] + tb, rest)
  {
    hide Tokenize;
    LexesConcat(a, [t], b, tb, rest);
  }

  lemma {:induction false} LexPrintedInfix(e: Expression, rest: string)
    requires Printable(e) && HasCallees(e) && e.InfixExpression?
    ensures Lexes(Stringify(e), PrintTokens(e), rest)
    decreases e, 0
  {
    hide Tokenize;
    var tail := " " + e.operator + " " + Stringify(e.right) + ")" + rest;
    LexPrinted(e.right, ")" + rest);
    assert tail[0] == ' ';
    LexPrinted(e.left, tail);
    LexInfix(Stringify(e.left), PrintTokens(e.left), e.operator, Stringify(e.right), PrintTokens(e.right), rest);
  }

  lemma LexInfix(left: string, leftTokens: seq<Token>, op: string, right: string, rightTokens: seq<Token>, rest: string)
    requires IsOperator(op) && Lexes(right, rightTokens, ")" + rest)
    requires Lexes(left, leftTokens, " " + op + " " + right + ")" + rest)
    ensures Lexes("(" + left + " " + op + " " + right + ")",
                  [Token(LPAREN, "(")] + leftTokens + [OpToken(op)] + rightTokens + [Token(RPAREN, ")")], rest)
  {
    hide Tokenize;
    var tail := " " + op + " " + right + ")";
    var tailTokens := [OpToken(op)] + rightTokens + [Token(RPAREN, ")")];
    LexInfixTail(op, right, rightTokens, rest);
    LexesConcat(left, leftTokens, tail, tailTokens, rest);
    LexByte('(', left + tail + rest);
    LexBehind("(", Token(LPAREN, "("), left + tail, leftTokens + tailTokens, rest);
    assert "(" + (left + tail) == "(" + left + " " + op + " " + right + ")";
    assert [Token(LPAREN, "(")] + (leftTokens + tailTokens)
        == [Token(LPAREN, "(")] + leftTokens + [OpToken(op)] + rightTokens + [Token(RPAREN, ")")];
  }

  lemma LexInfixTail(op: string, right: string, rightTokens: seq<Token>, rest: string)
    requires IsOperator(op) && Lexes(right, rightTokens, ")" + rest)
    ensures Lexes(" " + op + " " + right + ")", [OpToken(op)] + rightTokens + [Token(RPAREN, ")")], rest)
  {
    hide Tokenize;
    var close := [Token(RPAREN, ")")];
    LexByte(')', rest);
    LexesConcat(right, rightTokens, ")", close, rest);
    LexSpaced(right + ")", rightTokens + close, rest);
    LexOperator(op, right + ")" + rest);
    assert " " + (right + ")" + rest) == " " + (right + ")") + rest;
    LexBehind(op, OpToken(op), " " + (right + ")"), rightTokens + close, rest);
    LexSpaced(op + (" " + (right + ")")), [OpToken(op)] + (rightTokens + close), rest);
    assert " " + (op + (" " + (right + ")"))) == " " + op + " " + right + ")";
    assert [OpToken(op)] + (rightTokens + close) == [OpToken(op)] + rightTokens + close;
  }

  lemma LexSpaced(body: string, ts: seq<Token>, rest: string)
    requires Lexes(body, ts, rest)
    ensures Lexes(" " + body, ts, rest)
  {
    hide Tokenize;
    LexSpace(body + rest);
    assert [] + ts == ts;
    LexesConcat(" ", [], body, ts, rest);
  }

  lemma {:induction false} LexPrintedList(es: seq<Expression>, rest: string)
    requires AllPrintable(es) && HaveCallees(es)
    requires rest != "" && !IsIdentChar(rest[0])
    ensures Lexes(StringifyList(es), ListTokens(es), rest)
    decreases es, 0
  {
    hide Tokenize;
    if es != [] {
      LexPrintedTail(es[1..], rest);
      LexPrinted(es[0], StringifyTail(es[1..]) + rest);
      LexesConcat(Stringify(es[0]), PrintTokens(es[0]), StringifyTail(es[1..]), TailTokens(es[1..]), rest);
    } else {
      assert "" + rest == rest;
    }
  }

  lemma {:induction false} LexPrintedTail(es: seq<Expression>, rest: string)
    requires AllPrintable(es) && HaveCallees(es)
    requires rest != "" && !IsIdentChar(rest[0])
    ensures Lexes(StringifyTail(es), TailTokens(es), rest)
    decreases es, 1
  {
    hide Tokenize;
    if es != [] {
      LexPrintedList(es, rest);
      LexComma(StringifyList(es), ListTokens(es), rest);
    } else {
      assert "" + rest == rest;
    }
  }

  lemma LexComma(body: string, bodyTokens: seq<Token>, rest: string)
    requires Lexes(body, bodyTokens, rest)
    ensures Lexes(", " + body, [Token(COMMA, ",")] + bodyTokens, rest)
  {
    hide *;
    PunctuationBytes();
    LexSpaced(body, bodyTokens, rest);
    LexByte(',', (" " + body) + rest);
    LexBehind(",", Token(COMMA, ","), " " + body, bodyTokens, rest);
    assert "," + (" " + body) == ", " + body;
  }

  // ----- What the lexer makes of any input -----

  lemma TokenizeNothing()
    ensures Tokenize("") == []
  {
  }

  /** The lexer's side of printability. */
  predicate WellLexed(t: Token) {
    && (t.kind == IDENT ==> IsName(t.literal))
    && (t.kind == INT ==> t.literal != "" && Decimal.AllDigits(t.literal))
    && (t.kind == STRING ==> IsText(t.literal))
    && (BinaryOperator(t.kind) ==> OperatorType(t.literal) == t.kind)
    && (t.kind in {COMMA, LPAREN, RPAREN, LBRACKET, RBRACKET} ==>
          |t.literal| == 1 && OneByteType(t.literal[0]) == t.kind)
  }

  predicate AllWellLexed(ts: seq<Token>) { forall i | 0 <= i < |ts| :: WellLexed(ts[i]) }

  lemma TokenAtWellLexed(w: string)
    ensures WellLexed(TokenAt(w).token)
  {
    if w != "" {
      var c, n := w[0], Span(w, IsIdentChar);
      if IsLetter(c) {
        assert w[..n][0] == c;
      } else if !IsDigit(c) && TwoByteType(c, Peek(w[1..])) == ILLEGAL && c != '"' {
        assert RuneString(c) == [c] || OneByteType(c) == ILLEGAL;
      }
    }
  }

  lemma {:induction false} TokenizeWellLexed(s: string)
    ensures AllWellLexed(Tokenize(s))
    decreases |s|
  {
    if SkipSpace(s) != "" {
      TokenAtWellLexed(SkipSpace(s));
      TokenizeWellLexed(NextLexeme(s).rest);
    }
  }
}
