/** The parser as the source has it: a two-token window that moves over the lexer. */
module ParserState {
  import opened Wrappers
  import opened Tokens
  import opened Lexing
  import opened Ast
  import opened Parsing
  import Decimal

  class Parser {
    const l: Lexer
    var curToken: Token
    var peekToken: Token
    var errors: seq<ParseError>
    /** The tokens from the current one on. */
    ghost var ts: seq<Token>

    ghost predicate Valid()
      reads this, l
    {
      && l.Valid()
      && curToken == Cur(ts)
      && peekToken == Ahead(ts)
      && Tokenize(l.Rest()) == Advance(Advance(ts))
    }

    /** The method did what the specification function says. */
    ghost predicate Did<T>(r: Outcome<T>, panicked: bool, value: T)
      reads this
    {
      match r
      case Panicked(errs) => panicked && errors == errs
      case Parsed(v, ts', errs) => !panicked && value == v && ts == ts' && errors == errs
    }

    constructor (l: Lexer)
      requires l.Valid()
      modifies l
      ensures Valid() && this.l == l && errors == []
      ensures ts == Tokenize(old(l.Rest()))
    {
      this.l := l;
      errors := [];
      curToken, peekToken, ts := END, END, [END, END] + Tokenize(l.Rest());
      new;
      assert Advance(Advance(ts)) == Tokenize(l.Rest());
      NextToken();
      NextToken();
    }

    method NextToken()
      requires Valid()
      modifies this, l
      ensures Valid() && ts == Advance(old(ts)) && errors == old(errors)
    {
      curToken := peekToken;
      peekToken := l.NextToken();
      ts := Advance(ts);
    }

    method ExpectPeek(t: TokenType) returns (ok: bool)
      requires Valid()
      modifies this, l
      ensures Valid() && ok == (Ahead(old(ts)).kind == t)
      ensures if ok then ts == Advance(old(ts)) && errors == old(errors)
              else ts == old(ts) && errors == old(errors) + [WrongToken(t, Ahead(ts).kind)]
    {
      if peekToken.kind == t {
        NextToken();
        return true;
      }
      errors := errors + [WrongToken(t, peekToken.kind)];
      return false;
    }

    method Parse() returns (panicked: bool, exp: Expression)
      requires Valid()
      modifies this, l
      ensures Valid()
      ensures Did(Parsing.ParseExpression(old(ts), old(errors), LOWEST), panicked, exp)
    {
      panicked, exp := ParseExpression(LOWEST);
    }

    method ParseExpression(precedence: int) returns (panicked: bool, exp: Expression)
      requires Valid()
      modifies this, l
      ensures Valid()
      ensures Did(Parsing.ParseExpression(old(ts), old(errors), precedence), panicked, exp)
      decreases |ts|, 5
    {
      hide Parsing.ParseExpression, Parsing.ParsePrefix, Parsing.ParseInfix, ParseInfixes;
      ghost var ts0, errs0 := ts, errors;
      if !HasPrefix(curToken.kind) {
        NothingStarts(ts0, errs0, precedence);
        errors := errors + [NoPrefix(curToken.kind)];
        return false, NilExpr;
      }
      LoopEntered(ts0, errs0, precedence);
      panicked, exp := ParsePrefix();
      if panicked {
        return;
      }
      ghost var whole := ParseInfixes(ts, errors, precedence, exp);
      while peekToken.kind != SEMICOLON && precedence < Precedence(peekToken.kind)
        invariant Valid() && |ts| <= |ts0|
        invariant ParseInfixes(ts, errors, precedence, exp) == whole
        decreases |ts|
      {
        if !HasInfix(peekToken.kind) {
          LoopLeft(ts, errors, precedence, exp);
          return false, exp;
        }
        LoopTurns(ts, errors, precedence, exp);
        NextToken();
        panicked, exp := ParseInfix(exp);
        if panicked {
          return;
        }
      }
      LoopLeft(ts, errors, precedence, exp);
      return false, exp;
    }

    /** The prefix parse function registered for the current token. */
    method ParsePrefix() returns (panicked: bool, exp: Expression)
      requires Valid() && HasPrefix(curToken.kind)
      modifies this, l
      ensures Valid()
      ensures Did(Parsing.ParsePrefix(old(ts), old(errors)), panicked, exp)
      decreases |ts|, 4
    {
      var tok := curToken;
      panicked := false;
      if tok.kind == IDENT {
        exp := Ident(Identifier(tok, tok.literal));
      } else if tok.kind == INT {
        exp := ParseIntegerLiteral();
      } else if tok.kind == STRING {
        exp := StringLiteral(tok, tok.literal);
      } else if tok.kind == TRUE || tok.kind == FALSE {
        exp := BooleanLiteral(tok, tok.kind == TRUE);
      } else if tok.kind == LBRACKET {
        var elements;
        panicked, elements := ParseList(RBRACKET);
        exp := ArrayLiteral(tok, elements);
      } else if tok.kind == LPAREN {
        panicked, exp := ParseGrouped();
      } else {
        NextToken();
        var right;
        panicked, right := ParseExpression(PREFIX);
        exp := PrefixExpression(tok, tok.literal, right);
      }
    }

    method ParseIntegerLiteral() returns (exp: Expression)
      requires Valid()
      modifies this
      ensures Valid()
      ensures Did(Parsing.ParseIntegerLiteral(old(ts), old(errors)), false, exp)
    {
      match Decimal.SetString(curToken.literal) {
        case None =>
          errors := errors + [NotANumber(curToken.literal)];
          return NilExpr;
        case Some(n) =>
          return IntegerLiteral(curToken, Decimal.String(n));
      }
    }

    method ParseGrouped() returns (panicked: bool, exp: Expression)
      requires Valid() && curToken.kind == LPAREN
      modifies this, l
      ensures Valid()
      ensures Did(Parsing.ParseGrouped(old(ts), old(errors)), panicked, exp)
      decreases |ts|, 3
    {
      NextToken();
      panicked, exp := ParseExpression(LOWEST);
      if panicked {
        return;
      }
      var ok := ExpectPeek(RPAREN);
      if !ok {
        return false, NilExpr;
      }
    }

    /** The infix parse function registered for the current token. */
    method ParseInfix(left: Expression) returns (panicked: bool, exp: Expression)
      requires Valid() && HasInfix(curToken.kind)
      modifies this, l
      ensures Valid()
      ensures Did(Parsing.ParseInfix(old(ts), old(errors), left), panicked, exp)
      decreases |ts|, 4
    {
      if curToken.kind == LPAREN {
        panicked, exp := ParseCall(left);
        return;
      }
      var tok, precedence := curToken, Precedence(curToken.kind);
      NextToken();
      var right;
      panicked, right := ParseExpression(precedence);
      exp := InfixExpression(tok, left, tok.literal, right);
    }

    method ParseCall(left: Expression) returns (panicked: bool, exp: Expression)
      requires Valid() && curToken.kind == LPAREN
      modifies this, l
      ensures Valid()
      ensures Did(Parsing.ParseCall(old(ts), old(errors), left), panicked, exp)
      decreases |ts|, 3
    {
      if left.NilExpr? {
        return true, NilExpr;
      }
      if !left.Ident? {
        errors := errors + [NotAnIdentifier];
        return false, NilExpr;
      }
      var tok := curToken;
      var arguments;
      panicked, arguments := ParseList(RPAREN);
      exp := CallExpression(tok, Some(left.ident), arguments);
    }

    method ParseList(end: TokenType) returns (panicked: bool, args: seq<Expression>)
      requires Valid() && ts != []
      modifies this, l
      ensures Valid()
      ensures Did(Parsing.ParseList(old(ts), old(errors), end), panicked, args)
      decreases |ts|, 2
    {
      args := [];
      if peekToken.kind == end {
        NextToken();
        return false, args;
      }
      ghost var ts0, errs0 := ts, errors;
      NextToken();
      var arg;
      panicked, arg := ParseExpression(LOWEST);
      if panicked {
        return;
      }
      args := args + [arg];
      assert args == [arg];
      ghost var whole := ParseListTail(ts, errors, end, args);
      assert Parsing.ParseList(ts0, errs0, end) == whole;
      while peekToken.kind == COMMA
        invariant Valid() && |ts| < |ts0|
        invariant ParseListTail(ts, errors, end, args) == whole
        decreases |ts|
      {
        NextToken();
        NextToken();
        panicked, arg := ParseExpression(LOWEST);
        if panicked {
          return;
        }
        args := args + [arg];
      }
      var ok := ExpectPeek(end);
      if !ok {
        return false, [];
      }
      return false, args;
    }
  }

  /** `shield.Parse`: a tree, or nothing when there were errors; the panic of a call on nil is
      not caught. */
  method ParseSource(input: string) returns (panicked: bool, root: Option<Expression>)
    ensures match Parsing.Parse(input)
            case Panicked(_) => panicked
            case Parsed(exp, _, errs) => !panicked && root == if errs == [] then Some(exp) else None
  {
    var l := new Lexer(input);
    var p := new Parser(l);
    var exp: Expression;
    panicked, exp := p.Parse();
    root := if p.errors == [] then Some(exp) else None;
  }
}
