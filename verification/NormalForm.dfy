/** What parsing accepts: the round trip on whole programs, and the normal form and error
    discipline of the parser on arbitrary input. */
module NormalForm {
  import opened Wrappers
  import opened Sequences
  import opened Tokens
  import opened Lexing
  import opened Ast
  import opened Parsing
  import opened Printing
  import opened Grammar
  import opened RoundTrip
  import Decimal

  /** Equal trees but for the tokens kept in the nodes. */
  ghost predicate SameTree(a: Expression, b: Expression) {
    match (a, b)
    case (NilExpr, NilExpr) => true
    case (Unset, Unset) => true
    case (Ident(m), Ident(n)) => m.value == n.value
    case (IntegerLiteral(_, m), IntegerLiteral(_, n)) => m == n
    case (BooleanLiteral(_, m), BooleanLiteral(_, n)) => m == n
    case (StringLiteral(_, m), StringLiteral(_, n)) => m == n
    case (ArrayLiteral(_, m), ArrayLiteral(_, n)) => SameTrees(m, n)
    case (CallExpression(_, f, m), CallExpression(_, g, n)) =>
      && (f.Some? <==> g.Some?) && (f.Some? ==> f.value.value == g.value.value)
      && SameTrees(m, n)
    case (PrefixExpression(_, o, m), PrefixExpression(_, q, n)) => o == q && SameTree(m, n)
    case (InfixExpression(_, l, o, r), InfixExpression(_, m, q, n)) => o == q && SameTree(l, m) && SameTree(r, n)
    case _ => false
  }

  ghost predicate SameTrees(a: seq<Expression>, b: seq<Expression>) {
    |a| == |b| && forall i | 0 <= i < |a| :: SameTree(a[i], b[i])
  }

  lemma RetokenSame(e: Expression)
    ensures SameTree(Retoken(e), e)
  {
  }

  /** The text, the printed tokens and the printability of a tree do not depend on its tokens. */
  lemma {:induction false} SameTreePrintsAlike(a: Expression, b: Expression)
    requires SameTree(a, b) && HasCallees(a) && HasCallees(b)
    ensures Stringify(a) == Stringify(b)
    decreases a, 0
  {
    match a
    case ArrayLiteral(_, elements) => SameTreesPrintAlike(elements, b.elements);
    case CallExpression(_, _, arguments) => SameTreesPrintAlike(arguments, b.arguments);
    case PrefixExpression(_, _, right) => SameTreePrintsAlike(right, b.right);
    case InfixExpression(_, left, _, right) =>
      SameTreePrintsAlike(left, b.left);
      SameTreePrintsAlike(right, b.right);
    case _ =>
  }

  lemma {:induction false} SameTreesPrintAlike(a: seq<Expression>, b: seq<Expression>)
    requires SameTrees(a, b) && HaveCallees(a) && HaveCallees(b)
    ensures StringifyList(a) == StringifyList(b)
    decreases a, 0
  {
    if a != [] {
      SameTreePrintsAlike(a[0], b[0]);
      SameTreesPrintAlike(a[1..], b[1..]);
    }
  }

  /** Parsing the text of a printable tree records no error and gives the tree back. */
  lemma ParseStringify(e: Expression)
    requires Printable(e) && HasCallees(e)
    ensures Parse(Stringify(e)) == Parsed(Retoken(e), [Last(e)], [])
    ensures SameTree(Retoken(e), e)
  {
    hide ParseExpression, ParseInfixes, Tokenize, Stringify, PrintTokens, Retoken, SameTree, Printable, HasCallees;
    LexPrinted(e, "");
    AppendNothing(Stringify(e));
    TokenizeNothing();
    AppendNothing(PrintTokens(e));
    AppendNothing([Last(e)]);
    ParsePrinted(e, [], [], LOWEST);
    LoopLeft([Last(e)], [], LOWEST, Retoken(e));
    RetokenSame(e);
  }

  /** Every nil dereference comes after a recorded error, and without a recorded error the
      result is a complete, printable tree. */
  ghost predicate Disciplined<T>(r: Outcome<T>, good: T -> bool) {
    match r
    case Panicked(errors) => errors != []
    case Parsed(value, ts, errors) => AllWellLexed(ts) && (errors == [] ==> good(value))
  }

  lemma {:induction false} ParseExpressionDisciplined(ts: seq<Token>, errs: seq<ParseError>, p: int)
    requires AllWellLexed(ts)
    ensures Disciplined(ParseExpression(ts, errs, p), Printable)
    decreases |ts|, 5
  {
    if HasPrefix(Cur(ts).kind) {
      ParsePrefixDisciplined(ts, errs);
      match ParsePrefix(ts, errs) {
        case Panicked(_) =>
        case Parsed(left, ts', errs') => ParseInfixesDisciplined(ts', errs', p, left);
      }
    }
  }

  lemma {:induction false} ParsePrefixDisciplined(ts: seq<Token>, errs: seq<ParseError>)
    requires AllWellLexed(ts) && HasPrefix(Cur(ts).kind)
    ensures Disciplined(ParsePrefix(ts, errs), Printable)
    decreases |ts|, 4
  {
    hide ParseExpression, ParseInfixes, ParseList;
    var tok := ts[0];
    if tok.kind == INT {
      Decimal.StringOfSetString(tok.literal);
    } else if tok.kind == LBRACKET {
      ParseListDisciplined(ts, errs, RBRACKET);
    } else if tok.kind == LPAREN || tok.kind == SUB {
      ParseExpressionDisciplined(Advance(ts), errs, if tok.kind == SUB then PREFIX else LOWEST);
    }
  }

  lemma {:induction false} ParseInfixesDisciplined(ts: seq<Token>, errs: seq<ParseError>, p: int, left: Expression)
    requires AllWellLexed(ts) && (errs == [] ==> Printable(left))
    ensures Disciplined(ParseInfixes(ts, errs, p, left), Printable)
    decreases |ts|, 1
  {
    hide ParseExpression, ParseList;
    var next := Ahead(ts).kind;
    if next != SEMICOLON && p < Precedence(next) && HasInfix(next) {
      ParseInfixDisciplined(Advance(ts), errs, left);
      match ParseInfix(Advance(ts), errs, left) {
        case Panicked(_) =>
        case Parsed(exp, ts', errs') => ParseInfixesDisciplined(ts', errs', p, exp);
      }
    }
  }

  lemma {:induction false} ParseInfixDisciplined(ts: seq<Token>, errs: seq<ParseError>, left: Expression)
    requires AllWellLexed(ts) && HasInfix(Cur(ts).kind) && (errs == [] ==> Printable(left))
    ensures Disciplined(ParseInfix(ts, errs, left), Printable)
    decreases |ts|, 4
  {
    hide ParseExpression, ParseInfixes, ParseList;
    if Cur(ts).kind == LPAREN {
      ParseListDisciplined(ts, errs, RPAREN);
    } else {
      ParseExpressionDisciplined(Advance(ts), errs, Precedence(Cur(ts).kind));
    }
  }

  lemma {:induction false} ParseListDisciplined(ts: seq<Token>, errs: seq<ParseError>, end: TokenType)
    requires AllWellLexed(ts) && ts != []
    ensures Disciplined(ParseList(ts, errs, end), AllPrintable)
    decreases |ts|, 2
  {
    hide ParseExpression, ParseInfixes;
    if Ahead(ts).kind != end {
      ParseExpressionDisciplined(Advance(ts), errs, LOWEST);
      match ParseExpression(Advance(ts), errs, LOWEST) {
        case Panicked(_) =>
        case Parsed(first, ts', errs') => ParseListTailDisciplined(ts', errs', end, [first]);
      }
    }
  }

  lemma {:induction false} ParseListTailDisciplined(ts: seq<Token>, errs: seq<ParseError>, end: TokenType,
      args: seq<Expression>)
    requires AllWellLexed(ts) && (errs == [] ==> AllPrintable(args))
    ensures Disciplined(ParseListTail(ts, errs, end, args), AllPrintable)
    decreases |ts|, 1
  {
    hide ParseExpression, ParseInfixes;
    if Ahead(ts).kind == COMMA {
      ParseExpressionDisciplined(Advance(Advance(ts)), errs, LOWEST);
      match ParseExpression(Advance(Advance(ts)), errs, LOWEST) {
        case Panicked(_) =>
        case Parsed(next, ts', errs') => ParseListTailDisciplined(ts', errs', end, args + [next]);
      }
    }
  }

  /** On every input: a nil dereference only after an error, and an error-free run gives a tree
      without nil that is its own normal form, that is, its text parses to the same tree. */
  lemma AcceptedProgramsAreNormal(s: string)
    ensures Parse(s).Panicked? ==> Parse(s).errors != []
    ensures Parse(s).Parsed? && Parse(s).errors == [] ==>
              var e := Parse(s).value;
              && Printable(e) && HasCallees(e)
              && var again := Parse(Stringify(e));
              && again.Parsed? && again.errors == []
              && SameTree(again.value, e)
              && HasCallees(again.value) && Stringify(again.value) == Stringify(e)
  {
    hide ParseExpression, Tokenize;
    TokenizeWellLexed(s);
    ParseExpressionDisciplined(Tokenize(s), [], LOWEST);
    var r := Parse(s);
    if r.Parsed? && r.errors == [] {
      PrintableHasCallees(r.value);
      ParseStringify(r.value);
      RetokenPrintable(r.value);
      SameTreePrintsAlike(Retoken(r.value), r.value);
    }
  }

  lemma RetokenPrintable(e: Expression)
    requires Printable(e)
    ensures Printable(Retoken(e)) && HasCallees(Retoken(e))
  {
  }

  /** The parser does not always live to report its errors: a call on something that is not a
      name leaves a nil operand, and one more opening parenthesis dereferences it. */
  lemma CallOnFailedCallPanics(ts: seq<Token>, errs: seq<ParseError>, p: int, left: Expression)
    requires |ts| >= 3 && ts[1].kind == ts[2].kind == LPAREN && !left.Ident? && p < CALL
    ensures ParseInfixes(ts, errs, p, left).Panicked?
  {
    hide ParseExpression, ParseList;
    var calls := ts[1..];
    if left.NilExpr? {
      assert ParseInfix(calls, errs, left) == Panicked(errs);
    } else {
      assert ParseInfix(calls, errs, left) == Parsed(NilExpr, calls, errs + [NotAnIdentifier]);
      CallOnNilPanics(calls, errs + [NotAnIdentifier], p);
    }
  }

  lemma CallOnNilPanics(ts: seq<Token>, errs: seq<ParseError>, p: int)
    requires |ts| >= 2 && ts[1].kind == LPAREN && p < CALL
    ensures ParseInfixes(ts, errs, p, NilExpr) == Panicked(errs)
  {
    hide ParseExpression, ParseList;
    assert ParseInfix(ts[1..], errs, NilExpr) == Panicked(errs);
  }

  lemma SyntaxErrorsCanPanic()
    ensures Parse("1((").Panicked?
  {
    hide ParseInfixes, ParseList, ParseGrouped;
    var ts := [Token(INT, "1"), OPEN, OPEN];
    var one := IntegerLiteral(ts[0], Decimal.String(Decimal.ValueOf("1")));
    LexOneCallCall();
    Decimal.StringOfSetString("1");
    LoopEntered(ts, [], LOWEST);
    CallOnFailedCallPanics(ts, [], LOWEST, one);
  }

  lemma LexOneCallCall()
    ensures Tokenize("1((") == [Token(INT, "1"), OPEN, OPEN]
  {
    hide Tokenize;
    LexNumber("1", "((");
    LexByte('(', "(");
    LexByte('(', "");
    TokenizeNothing();
    assert "1" + "((" == "1((" && "(" + "(" == "((" && "(" + "" == "(";
  }
}
