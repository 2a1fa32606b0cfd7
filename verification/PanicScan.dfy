/** On which programs the parser dereferences nil, exactly: one pass from left to right over the
    kinds of the tokens tells, with the open brackets and the operators that wait for their right
    operand on a stack. No tree, no name and no number plays a part in it. */
module PanicScan {
  import opened Tokens
  import opened Lexing
  import opened Ast
  import opened Parsing
  import opened Printing
  import Decimal

  // ----- The scan -----

  /** What is known of an operand: that it is nil, a name that can be called, or neither. */
  datatype Operand = Nothing | Name | Other

  /** Parentheses around an expression, or a list up to its closing token. */
  datatype Bracket = Group | Items(close: TokenType)

  /** An open bracket, and the precedences of the operators that wait around it. */
  datatype Frame = Frame(bracket: Bracket, pending: seq<int>)

  /** An operand comes next, or there is one. `Lost` is an operand that does not start where
      no operator waits for it: nothing binds to it. */
  datatype Stand = Wants | Lost | Has(operand: Operand)

  function Next(ks: seq<TokenType>): TokenType { if ks == [] then EOF else ks[0] }

  function Behind(ks: seq<TokenType>): seq<TokenType> { if ks == [] then [] else ks[1..] }

  function Init<T>(s: seq<T>): seq<T>
    requires s != []
  {
    s[..|s| - 1]
  }

  function Top(pending: seq<int>): int { if pending == [] then LOWEST else pending[|pending| - 1] }

  /** The operators that bind less tightly than an operator of this precedence. */
  function Looser(pending: seq<int>, precedence: int): seq<int> {
    if pending == [] || Top(pending) < precedence then pending else Looser(Init(pending), precedence)
  }

  predicate Snaps(ks: seq<TokenType>, frames: seq<Frame>, pending: seq<int>, at: Stand)
    decreases |ks|, |frames|, if at.Wants? then 2 else 1
  {
    match at
    case Wants =>
      if Next(ks) == LPAREN then Snaps(Behind(ks), frames + [Frame(Group, pending)], [], Wants)
      else if Next(ks) == LBRACKET then Opens(ks, frames, pending, RBRACKET)
      else if Next(ks) == SUB then Snaps(Behind(ks), frames, pending + [PREFIX], Wants)
      else if HasPrefix(Next(ks)) then Snaps(Behind(ks), frames, pending, Has(if Next(ks) == IDENT then Name else Other))
      else if pending != [] then Snaps(Behind(ks), frames, Init(pending), Has(Other))
      else Snaps(Behind(ks), frames, [], Lost)
    case Lost =>
      Leaves(ks, frames, Nothing)
    case Has(operand) =>
      if BinaryOperator(Next(ks)) then
        var precedence := Precedence(Next(ks));
        Snaps(Behind(ks), frames, Looser(pending, precedence) + [precedence], Wants)
      else if Next(ks) != LPAREN then Leaves(ks, frames, if pending == [] then operand else Other)
      else match operand
        case Nothing => true
        case Name => Opens(ks, frames, pending, RPAREN)
        case Other => Snaps(Behind(ks), frames, pending, Has(Nothing))
  }

  /** Behind the opening token of a list. */
  predicate Opens(ks: seq<TokenType>, frames: seq<Frame>, pending: seq<int>, close: TokenType)
    requires ks != []
    decreases |ks|, |frames|, 0
  {
    if Next(Behind(ks)) == close then Snaps(Behind(Behind(ks)), frames, pending, Has(Other))
    else Snaps(Behind(ks), frames + [Frame(Items(close), pending)], [], Wants)
  }

  /** At the end of an expression: what encloses it goes on, with or without its closing token. */
  predicate Leaves(ks: seq<TokenType>, frames: seq<Frame>, operand: Operand)
    decreases |ks|, |frames|, 0
  {
    if frames == [] then false
    else
      var frame := frames[|frames| - 1];
      match frame.bracket
      case Group =>
        if Next(ks) == RPAREN then Snaps(Behind(ks), Init(frames), frame.pending, Has(operand))
        else Snaps(ks, Init(frames), frame.pending, Has(Nothing))
      case Items(close) =>
        if Next(ks) == COMMA then Snaps(Behind(ks), frames, [], Wants)
        else Snaps(if Next(ks) == close then Behind(ks) else ks, Init(frames), frame.pending, Has(Other))
  }

  // ----- The parser does what the scan says -----

  function Kinds(ts: seq<Token>): (ks: seq<TokenType>)
    ensures |ks| == |ts|
  {
    seq(|ts|, i requires 0 <= i < |ts| => ts[i].kind)
  }

  function OperandOf(e: Expression): Operand {
    if e.NilExpr? then Nothing else if e.Ident? then Name else Other
  }

  lemma KindsAhead(ts: seq<Token>)
    ensures Next(Kinds(ts)) == Cur(ts).kind && Behind(Kinds(ts)) == Kinds(Advance(ts))
    ensures Cur(Advance(ts)) == Ahead(ts)
    ensures AllWellLexed(ts) ==> AllWellLexed(Advance(ts))
    ensures Cur(ts).kind != EOF ==> ts != [] && |Advance(ts)| < |ts|
  {}

  /** The parser and the scan, which was at `snaps`, go on together. */
  ghost predicate Agree(snaps: bool, r: Outcome<Expression>, frames: seq<Frame>, pending: seq<int>) {
    match r
    case Panicked(_) => snaps
    case Parsed(value, ts, _) =>
      AllWellLexed(ts) && (snaps <==> Snaps(Kinds(Advance(ts)), frames, pending, Has(OperandOf(value))))
  }

  /** The same for lists. */
  ghost predicate AgreeOnList(snaps: bool, r: Outcome<seq<Expression>>, frames: seq<Frame>, pending: seq<int>) {
    match r
    case Panicked(_) => snaps
    case Parsed(_, ts, _) =>
      AllWellLexed(ts) && (snaps <==> Snaps(Kinds(Advance(ts)), frames, pending, Has(Other)))
  }

  /** The same for what stands in brackets, or is the whole program. */
  ghost predicate AgreeAtEnd(snaps: bool, r: Outcome<Expression>, frames: seq<Frame>) {
    match r
    case Panicked(_) => snaps
    case Parsed(value, ts, _) =>
      AllWellLexed(ts) && (snaps <==> Leaves(Kinds(Advance(ts)), frames, OperandOf(value)))
  }

  predicate Stops(ts: seq<Token>, p: int) { Precedence(Ahead(ts).kind) <= p }

  lemma {:induction false} ExpressionScans(ts: seq<Token>, errs: seq<ParseError>, frames: seq<Frame>, pending: seq<int>)
    requires AllWellLexed(ts) && HasPrefix(Cur(ts).kind) && LOWEST <= Top(pending) < CALL
    ensures var r := ParseExpression(ts, errs, Top(pending));
            && Agree(Snaps(Kinds(ts), frames, pending, Wants), r, frames, pending)
            && (r.Parsed? ==> Stops(r.ts, Top(pending)))
    decreases |ts|, 4
  {
    hide ParseExpression, ParsePrefix, ParseInfixes, Snaps, Kinds, AllWellLexed;
    LoopEntered(ts, errs, Top(pending));
    PrefixScans(ts, errs, frames, pending);
    match ParsePrefix(ts, errs)
    case Panicked(_) =>
    case Parsed(left, ts', errs') => LoopScans(ts', errs', frames, pending, left);
  }

  /** The right operand of an operator: whatever it is, operator and operands are no name and not nil. */
  lemma {:induction false} OperandScans(
      ts: seq<Token>, errs: seq<ParseError>, frames: seq<Frame>, pending: seq<int>, p: int)
    requires AllWellLexed(ts) && LOWEST <= p < CALL
    ensures var r := ParseExpression(ts, errs, p);
            && (r.Panicked? ==> Snaps(Kinds(ts), frames, pending + [p], Wants))
            && (r.Parsed? ==>
                  && AllWellLexed(r.ts)
                  && (Snaps(Kinds(ts), frames, pending + [p], Wants)
                      <==> Snaps(Kinds(Advance(r.ts)), frames, pending, Has(Other))))
    decreases |ts|, 5
  {
    hide ParseExpression, Snaps, Kinds, AllWellLexed;
    PushPending(pending, p);
    if HasPrefix(Cur(ts).kind) {
      ExpressionScans(ts, errs, frames, pending + [p]);
      var r := ParseExpression(ts, errs, p);
      if r.Parsed? {
        KindsAhead(Advance(r.ts));
        KindsAhead(r.ts);
        Absorbed(Kinds(Advance(r.ts)), frames, pending, p, OperandOf(r.value));
      }
    } else {
      NothingStarts(ts, errs, p);
      KindsAhead(ts);
      NoOperand(Kinds(ts), frames, pending + [p]);
    }
  }

  lemma PushPending(pending: seq<int>, p: int)
    ensures Top(pending + [p]) == p && Init(pending + [p]) == pending
  {}

  /** An operator takes its right operand as soon as nothing tighter follows. */
  lemma Absorbed(ks: seq<TokenType>, frames: seq<Frame>, pending: seq<int>, p: int, operand: Operand)
    requires Precedence(Next(ks)) <= p < CALL
    ensures Snaps(ks, frames, pending + [p], Has(operand)) <==> Snaps(ks, frames, pending, Has(Other))
  {
    PushPending(pending, p);
    hide Leaves, Opens;
  }

  lemma NoOperand(ks: seq<TokenType>, frames: seq<Frame>, pending: seq<int>)
    requires !HasPrefix(Next(ks))
    ensures Snaps(ks, frames, pending, Wants)
       <==> if pending == [] then Leaves(Behind(ks), frames, Nothing)
            else Snaps(Behind(ks), frames, Init(pending), Has(Other))
  {
    hide Leaves, Opens;
  }

  /** What stands alone between brackets and commas. */
  lemma {:induction false} ItemScans(ts: seq<Token>, errs: seq<ParseError>, frames: seq<Frame>)
    requires AllWellLexed(ts)
    ensures AgreeAtEnd(Snaps(Kinds(ts), frames, [], Wants), ParseExpression(ts, errs, LOWEST), frames)
    decreases |ts|, 5
  {
    hide ParseExpression, Snaps, Leaves, Kinds, AllWellLexed;
    if HasPrefix(Cur(ts).kind) {
      ExpressionScans(ts, errs, frames, []);
      var r := ParseExpression(ts, errs, LOWEST);
      if r.Parsed? {
        KindsAhead(Advance(r.ts));
        KindsAhead(r.ts);
        ExpressionEnds(Kinds(Advance(r.ts)), frames, OperandOf(r.value));
      }
    } else {
      NothingStarts(ts, errs, LOWEST);
      KindsAhead(ts);
      NoOperand(Kinds(ts), frames, []);
    }
  }

  lemma ExpressionEnds(ks: seq<TokenType>, frames: seq<Frame>, operand: Operand)
    requires Precedence(Next(ks)) <= LOWEST
    ensures Snaps(ks, frames, [], Has(operand)) <==> Leaves(ks, frames, operand)
  {
    hide Leaves, Opens;
  }

  lemma {:induction false} PrefixScans(ts: seq<Token>, errs: seq<ParseError>, frames: seq<Frame>, pending: seq<int>)
    requires AllWellLexed(ts) && HasPrefix(Cur(ts).kind)
    ensures Agree(Snaps(Kinds(ts), frames, pending, Wants), ParsePrefix(ts, errs), frames, pending)
    decreases |ts|, 3
  {
    hide ParseExpression, ParseList, ParseGrouped, Leaves, Opens, Kinds, AllWellLexed, WellLexed;
    KindsAhead(ts);
    var kind := Cur(ts).kind;
    if kind == LPAREN {
      GroupScans(ts, errs, frames, pending);
    } else if kind == LBRACKET {
      ListScans(ts, errs, RBRACKET, frames, pending);
    } else if kind == SUB {
      OperandScans(Advance(ts), errs, frames, pending, PREFIX);
    } else if kind == INT {
      NumbersParse(ts, errs);
    }
  }

  lemma NumbersParse(ts: seq<Token>, errs: seq<ParseError>)
    requires AllWellLexed(ts) && Cur(ts).kind == INT
    ensures var r := ParsePrefix(ts, errs);
            r.Parsed? && r.value.IntegerLiteral? && r.ts == ts
  {
    hide ParseExpression, ParseList, ParseGrouped;
    assert WellLexed(ts[0]);
    Decimal.StringOfSetString(ts[0].literal);
  }

  lemma {:induction false} GroupScans(ts: seq<Token>, errs: seq<ParseError>, frames: seq<Frame>, pending: seq<int>)
    requires AllWellLexed(ts) && Cur(ts).kind == LPAREN
    ensures Agree(Snaps(Kinds(ts), frames, pending, Wants), ParseGrouped(ts, errs), frames, pending)
    decreases |ts|, 2
  {
    hide ParseExpression, Opens, Kinds, AllWellLexed;
    KindsAhead(ts);
    var inner := frames + [Frame(Group, pending)];
    ItemScans(Advance(ts), errs, inner);
    var r := ParseExpression(Advance(ts), errs, LOWEST);
    if r.Parsed? {
      KindsAhead(r.ts);
      KindsAhead(Advance(r.ts));
      assert Init(inner) == frames;
    }
  }

  lemma {:induction false} LoopScans(
      ts: seq<Token>, errs: seq<ParseError>, frames: seq<Frame>, pending: seq<int>, left: Expression)
    requires AllWellLexed(ts) && LOWEST <= Top(pending) < CALL
    ensures var r := ParseInfixes(ts, errs, Top(pending), left);
            && Agree(Snaps(Kinds(Advance(ts)), frames, pending, Has(OperandOf(left))), r, frames, pending)
            && (r.Parsed? ==> Stops(r.ts, Top(pending)))
    decreases |ts|, 1
  {
    hide ParseInfixes, ParseInfix, Snaps, Kinds, AllWellLexed;
    var p, next := Top(pending), Ahead(ts).kind;
    if next == SEMICOLON || p >= Precedence(next) || !HasInfix(next) {
      LoopLeft(ts, errs, p, left);
    } else {
      LoopTurns(ts, errs, p, left);
      KindsAhead(ts);
      InfixScans(Advance(ts), errs, frames, pending, left);
      match ParseInfix(Advance(ts), errs, left)
      case Panicked(_) =>
      case Parsed(exp, ts', errs') => LoopScans(ts', errs', frames, pending, exp);
    }
  }

  lemma {:induction false} InfixScans(
      ts: seq<Token>, errs: seq<ParseError>, frames: seq<Frame>, pending: seq<int>, left: Expression)
    requires AllWellLexed(ts) && HasInfix(Cur(ts).kind) && Top(pending) < Precedence(Cur(ts).kind)
    ensures Agree(Snaps(Kinds(ts), frames, pending, Has(OperandOf(left))), ParseInfix(ts, errs, left), frames, pending)
    decreases |ts|, 3
  {
    hide ParseExpression, ParseList, Leaves, Opens, Kinds, AllWellLexed;
    KindsAhead(ts);
    if Cur(ts).kind != LPAREN {
      OperandScans(Advance(ts), errs, frames, pending, Precedence(Cur(ts).kind));
    } else if left.Ident? {
      ListScans(ts, errs, RPAREN, frames, pending);
    }
  }

  lemma {:induction false} ListScans(
      ts: seq<Token>, errs: seq<ParseError>, close: TokenType, frames: seq<Frame>, pending: seq<int>)
    requires AllWellLexed(ts) && ts != [] && close in {RPAREN, RBRACKET}
    ensures AgreeOnList(Opens(Kinds(ts), frames, pending, close), ParseList(ts, errs, close), frames, pending)
    decreases |ts|, 2
  {
    hide ParseExpression, ParseListTail, Snaps, Leaves, Kinds, AllWellLexed;
    KindsAhead(ts);
    KindsAhead(Advance(ts));
    if Ahead(ts).kind != close {
      ItemScans(Advance(ts), errs, frames + [Frame(Items(close), pending)]);
      match ParseExpression(Advance(ts), errs, LOWEST)
      case Panicked(_) =>
      case Parsed(first, ts', errs') => TailScans(ts', errs', close, frames, pending, [first], OperandOf(first));
    }
  }

  lemma {:induction false} TailScans(ts: seq<Token>, errs: seq<ParseError>, close: TokenType, frames: seq<Frame>,
                                     pending: seq<int>, args: seq<Expression>, operand: Operand)
    requires AllWellLexed(ts) && close in {RPAREN, RBRACKET}
    ensures AgreeOnList(Leaves(Kinds(Advance(ts)), frames + [Frame(Items(close), pending)], operand),
                        ParseListTail(ts, errs, close, args), frames, pending)
    decreases |ts|, 1
  {
    hide ParseExpression, Snaps, Kinds, AllWellLexed;
    var inner := frames + [Frame(Items(close), pending)];
    assert Init(inner) == frames;
    KindsAhead(ts);
    KindsAhead(Advance(ts));
    if Ahead(ts).kind == COMMA {
      var behind := Advance(Advance(ts));
      ItemScans(behind, errs, inner);
      match ParseExpression(behind, errs, LOWEST)
      case Panicked(_) =>
      case Parsed(next, ts', errs') =>
        TailScans(ts', errs', close, frames, pending, args + [next], OperandOf(next));
    }
  }

  /** For every program: the parser dereferences nil exactly if the scan of its tokens says so. */
  lemma PanicsExactly(s: string)
    ensures Parse(s).Panicked? <==> Snaps(Kinds(Tokenize(s)), [], [], Wants)
  {
    TokenizeWellLexed(s);
    hide Tokenize, ParseExpression, Snaps;
    ItemScans(Tokenize(s), [], []);
  }

  /** Names, numbers and texts make no difference, nor does anything between the tokens. */
  lemma OnlyKindsMatter(s: string, t: string)
    requires Kinds(Tokenize(s)) == Kinds(Tokenize(t))
    ensures Parse(s).Panicked? <==> Parse(t).Panicked?
  {
    PanicsExactly(s);
    PanicsExactly(t);
  }
}
