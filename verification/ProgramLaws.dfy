/** What programs mean: laws that relate the outcome of a program to the outcomes of its parts,
    without the evaluator's switches. */
module ProgramLaws {
  import opened Wrappers
  import opened Sequences
  import opened Tokens
  import opened Ast
  import opened Evaluation
  import opened Quorum
  import Decimal

  predicate IsTrue(e: Expression, env: Environment) { Eval(e, env) == Value(Boolean(true)) }

  predicate IsFalse(e: Expression, env: Environment) { Eval(e, env) == Value(Boolean(false)) }

  predicate Decides(e: Expression, env: Environment) { IsTrue(e, env) || IsFalse(e, env) }

  /** The outcome goes through operators: a panic or an Error. */
  predicate Stops(o: Outcome<Object>) { o.Abort? || o.value.Error? }

  // ----- Operators -----

  /** The left operand comes first, and what stops it stops the program: the right one is then
      not evaluated. */
  lemma LeftComesFirst(t: Token, l: Expression, op: string, r: Expression, env: Environment)
    ensures Stops(Eval(l, env)) ==> Eval(InfixExpression(t, l, op, r), env) == Eval(l, env)
    ensures !Stops(Eval(l, env)) && Stops(Eval(r, env)) ==> Eval(InfixExpression(t, l, op, r), env) == Eval(r, env)
    ensures !Stops(Eval(l, env)) && !Stops(Eval(r, env)) ==>
              Eval(InfixExpression(t, l, op, r), env) == EvalInfix(Eval(l, env).value, op, Eval(r, env).value)
  {
    hide EvalInfix;
  }

  /** An operator says TRUE or FALSE only of two objects. */
  lemma Decided(t: Token, l: Expression, op: string, r: Expression, env: Environment)
    ensures Decides(InfixExpression(t, l, op, r), env) ==> !Stops(Eval(l, env)) && !Stops(Eval(r, env))
  {
    LeftComesFirst(t, l, op, r, env);
    hide Eval, EvalInfix;
  }

  /** The connectives, on all programs. Both operands are always evaluated. */
  lemma Conjunction(t: Token, l: Expression, r: Expression, env: Environment)
    ensures IsTrue(InfixExpression(t, l, "&&", r), env) <==> IsTrue(l, env) && IsTrue(r, env)
    ensures IsFalse(InfixExpression(t, l, "&&", r), env)
       <==> Decides(l, env) && Decides(r, env) && (IsFalse(l, env) || IsFalse(r, env))
  {
    LeftComesFirst(t, l, "&&", r, env);
    Decided(t, l, "&&", r, env);
    hide Eval, Decimal.SetString;
  }

  lemma Disjunction(t: Token, l: Expression, r: Expression, env: Environment)
    ensures IsTrue(InfixExpression(t, l, "||", r), env)
       <==> Decides(l, env) && Decides(r, env) && (IsTrue(l, env) || IsTrue(r, env))
    ensures IsFalse(InfixExpression(t, l, "||", r), env) <==> IsFalse(l, env) && IsFalse(r, env)
  {
    LeftComesFirst(t, l, "||", r, env);
    Decided(t, l, "||", r, env);
    hide Eval, Decimal.SetString;
  }

  predicate IsScalar(o: Object) { o.Integer? || o.Boolean? || o.String? }

  /** Equality holds of one number, one truth value or one text, and of nothing else. */
  lemma Equality(t: Token, l: Expression, r: Expression, env: Environment)
    ensures IsTrue(InfixExpression(t, l, "==", r), env)
       <==> Eval(l, env).Value? && IsScalar(Eval(l, env).value) && Eval(r, env) == Eval(l, env)
  {
    LeftComesFirst(t, l, "==", r, env);
    Decided(t, l, "==", r, env);
    hide Eval, Decimal.SetString;
  }

  /** Inequality is the negation of equality; where the one is no truth value, the other one has
      the same outcome. */
  lemma Inequality(t: Token, l: Expression, r: Expression, env: Environment)
    ensures IsTrue(InfixExpression(t, l, "!=", r), env) <==> IsFalse(InfixExpression(t, l, "==", r), env)
    ensures IsFalse(InfixExpression(t, l, "!=", r), env) <==> IsTrue(InfixExpression(t, l, "==", r), env)
    ensures !Decides(InfixExpression(t, l, "==", r), env) ==>
              Eval(InfixExpression(t, l, "!=", r), env) == Eval(InfixExpression(t, l, "==", r), env)
  {
    LeftComesFirst(t, l, "==", r, env);
    LeftComesFirst(t, l, "!=", r, env);
    hide Eval, Decimal.SetString;
  }

  /** De Morgan, with equality to FALSE for negation. */
  lemma DeMorgan(t: Token, l: Expression, r: Expression, env: Environment)
    requires Decides(l, env) && Decides(r, env)
    ensures var no := BooleanLiteral(t, false);
            && Eval(InfixExpression(t, InfixExpression(t, l, "&&", r), "==", no), env)
               == Eval(InfixExpression(t, InfixExpression(t, l, "==", no), "||", InfixExpression(t, r, "==", no)), env)
            && Eval(InfixExpression(t, InfixExpression(t, l, "||", r), "==", no), env)
               == Eval(InfixExpression(t, InfixExpression(t, l, "==", no), "&&", InfixExpression(t, r, "==", no)), env)
  {
    var no := BooleanLiteral(t, false);
    var notL, notR := InfixExpression(t, l, "==", no), InfixExpression(t, r, "==", no);
    Negates(t, l, env);
    Negates(t, r, env);
    Conjunction(t, l, r, env);
    Disjunction(t, l, r, env);
    Negates(t, InfixExpression(t, l, "&&", r), env);
    Negates(t, InfixExpression(t, l, "||", r), env);
    Conjunction(t, notL, notR, env);
    Disjunction(t, notL, notR, env);
    hide Eval;
  }

  lemma Negates(t: Token, e: Expression, env: Environment)
    requires Decides(e, env)
    ensures IsTrue(InfixExpression(t, e, "==", BooleanLiteral(t, false)), env) <==> IsFalse(e, env)
    ensures IsFalse(InfixExpression(t, e, "==", BooleanLiteral(t, false)), env) <==> IsTrue(e, env)
  {
    LeftComesFirst(t, e, "==", BooleanLiteral(t, false), env);
    assert IsFalse(BooleanLiteral(t, false), env);
    hide Eval, Decimal.SetString;
  }

  // ----- Arithmetic -----

  predicate Counts(e: Expression, env: Environment) { Eval(e, env).Value? && Eval(e, env).value.Integer? }

  function NumberOf(e: Expression, env: Environment): int
    requires Counts(e, env)
  {
    Eval(e, env).value.n
  }

  /** The program evaluates to this number. */
  predicate Gives(e: Expression, env: Environment, n: int) { Eval(e, env) == Value(Integer(n)) }

  lemma Computed(t: Token, l: Expression, m: int, r: Expression, n: int, env: Environment)
    requires Gives(l, env, m) && Gives(r, env, n)
    ensures Gives(InfixExpression(t, l, "+", r), env, m + n)
    ensures Gives(InfixExpression(t, l, "-", r), env, m - n)
    ensures Gives(InfixExpression(t, l, "*", r), env, m * n)
    ensures Gives(PrefixExpression(t, "-", r), env, -n)
  {
    LeftComesFirst(t, l, "+", r, env);
    LeftComesFirst(t, l, "-", r, env);
    LeftComesFirst(t, l, "*", r, env);
    IntegersCompute(m, n);
    hide EvalInfix, EvalPrefix;
  }

  lemma GivesNumber(e: Expression, env: Environment) returns (n: int)
    requires Counts(e, env)
    ensures Gives(e, env, n)
  {
    n := NumberOf(e, env);
  }

  lemma SameNumber(d: Expression, e: Expression, env: Environment, n: int)
    requires Gives(d, env, n) && Gives(e, env, n)
    ensures Eval(d, env) == Eval(e, env)
  {}

  /** Sums commute and associate. */
  lemma SumLaws(t: Token, a: Expression, b: Expression, c: Expression, env: Environment)
    requires Counts(a, env) && Counts(b, env) && Counts(c, env)
    ensures Eval(InfixExpression(t, a, "+", b), env) == Eval(InfixExpression(t, b, "+", a), env)
    ensures Eval(InfixExpression(t, a, "+", InfixExpression(t, b, "+", c)), env)
         == Eval(InfixExpression(t, InfixExpression(t, a, "+", b), "+", c), env)
  {
    hide *;
    var m := GivesNumber(a, env);
    var n := GivesNumber(b, env);
    var k := GivesNumber(c, env);
    var ab, bc := InfixExpression(t, a, "+", b), InfixExpression(t, b, "+", c);
    Computed(t, a, m, b, n, env);
    Computed(t, b, n, a, m, env);
    SameNumber(ab, InfixExpression(t, b, "+", a), env, m + n);
    Computed(t, b, n, c, k, env);
    Computed(t, a, m, bc, n + k, env);
    Computed(t, ab, m + n, c, k, env);
    SameNumber(InfixExpression(t, a, "+", bc), InfixExpression(t, ab, "+", c), env, m + n + k);
  }

  /** Subtraction undoes addition, and is the addition of the negative. */
  lemma SubtractionLaws(t: Token, a: Expression, b: Expression, env: Environment)
    requires Counts(a, env) && Counts(b, env)
    ensures Eval(InfixExpression(t, InfixExpression(t, a, "-", b), "+", b), env) == Eval(a, env)
    ensures Eval(InfixExpression(t, a, "-", b), env) == Eval(InfixExpression(t, a, "+", PrefixExpression(t, "-", b)), env)
  {
    hide Eval;
    var m, n := NumberOf(a, env), NumberOf(b, env);
    Computed(t, a, m, b, n, env);
    Computed(t, InfixExpression(t, a, "-", b), m - n, b, n, env);
    Computed(t, a, m, PrefixExpression(t, "-", b), -n, env);
  }

  /** Products commute, associate and distribute over sums. */
  lemma ProductLaws(t: Token, a: Expression, b: Expression, c: Expression, env: Environment)
    requires Counts(a, env) && Counts(b, env) && Counts(c, env)
    ensures Eval(InfixExpression(t, a, "*", b), env) == Eval(InfixExpression(t, b, "*", a), env)
    ensures Eval(InfixExpression(t, a, "*", InfixExpression(t, b, "*", c)), env)
         == Eval(InfixExpression(t, InfixExpression(t, a, "*", b), "*", c), env)
    ensures Eval(InfixExpression(t, a, "*", InfixExpression(t, b, "+", c)), env)
         == Eval(InfixExpression(t, InfixExpression(t, a, "*", b), "+", InfixExpression(t, a, "*", c)), env)
  {
    hide *;
    var m := GivesNumber(a, env);
    var n := GivesNumber(b, env);
    var k := GivesNumber(c, env);
    Products(m, n, k);
    var ab, bc, ac := InfixExpression(t, a, "*", b), InfixExpression(t, b, "*", c), InfixExpression(t, a, "*", c);
    var sum := InfixExpression(t, b, "+", c);
    Computed(t, a, m, b, n, env);
    Computed(t, b, n, a, m, env);
    SameNumber(ab, InfixExpression(t, b, "*", a), env, m * n);
    Computed(t, b, n, c, k, env);
    Computed(t, a, m, bc, n * k, env);
    Computed(t, ab, m * n, c, k, env);
    SameNumber(InfixExpression(t, a, "*", bc), InfixExpression(t, ab, "*", c), env, m * n * k);
    Computed(t, a, m, c, k, env);
    Computed(t, a, m, sum, n + k, env);
    Computed(t, ab, m * n, ac, m * k, env);
    SameNumber(InfixExpression(t, a, "*", sum), InfixExpression(t, ab, "+", ac), env, m * (n + k));
  }

  lemma Products(m: int, n: int, k: int)
    ensures m * n == n * m && m * (n * k) == m * n * k && m * (n + k) == m * n + m * k
  {}

  /** Minus takes the negative of a number; it passes on what stops, and is an Error of the rest. */
  lemma Minus(t: Token, e: Expression, env: Environment)
    ensures Counts(e, env) ==> Eval(PrefixExpression(t, "-", e), env) == Value(Integer(-NumberOf(e, env)))
    ensures Stops(Eval(e, env)) ==> Eval(PrefixExpression(t, "-", e), env) == Eval(e, env)
    ensures !Counts(e, env) && !Stops(Eval(e, env)) ==>
              Eval(PrefixExpression(t, "-", e), env) == Value(Error(UnknownOperator))
  {}

  // ----- Names -----

  /** The three builtins have their names in every environment; any other name is looked up. */
  lemma Names(ident: Identifier, store: map<string, Object>)
    ensures ident.value == "any" ==> forall env :: Eval(Ident(ident), env) == Value(Builtin(Any))
    ensures ident.value == "all" ==> forall env :: Eval(Ident(ident), env) == Value(Builtin(All))
    ensures ident.value == "contains" ==> forall env :: Eval(Ident(ident), env) == Value(Builtin(Contains))
    ensures ident.value !in {"any", "all", "contains"} ==>
              && Eval(Ident(ident), NilEnvironment) == Value(Error(NoEnvironment))
              && Eval(Ident(ident), FromStore(store))
                 == Value(if ident.value in store then store[ident.value] else Error(NotFound))
  {}

  // ----- Lists -----

  /** A list evaluates if every element does, to the objects in their order; otherwise the first
      element that panics decides. */
  lemma {:induction false} ElementsEvaluate(es: seq<Expression>, env: Environment)
    ensures EvalAll(es, env).Value? <==> forall i | 0 <= i < |es| :: Eval(es[i], env).Value?
    ensures EvalAll(es, env).Value? ==>
              forall i | 0 <= i < |es| :: Eval(es[i], env) == Value(EvalAll(es, env).value[i])
    ensures EvalAll(es, env).Abort? ==>
              exists i | 0 <= i < |es| ::
                Eval(es[i], env) == Abort(EvalAll(es, env).why) && forall j | 0 <= j < i :: Eval(es[j], env).Value?
  {
    hide Eval;
    if es != [] {
      ElementsEvaluate(es[1..], env);
      assert forall i | 0 < i < |es| :: es[i] == es[1..][i - 1];
      if EvalAll(es, env).Abort? {
        if Eval(es[0], env).Value? {
          var i :| 0 <= i < |es[1..]| && Eval(es[1..][i], env) == Abort(EvalAll(es[1..], env).why)
            && forall j | 0 <= j < i :: Eval(es[1..][j], env).Value?;
          assert Eval(es[i + 1], env) == Abort(EvalAll(es, env).why);
          assert forall j | 0 <= j < i + 1 :: Eval(es[j], env).Value? by {
            assert forall j | 0 < j < i + 1 :: es[j] == es[1..][j - 1];
          }
        } else {
          assert Eval(es[0], env) == Abort(EvalAll(es, env).why);
        }
      }
    }
  }

  // ----- The builtins, by their names -----

  function Call(t: Token, name: string, arguments: seq<Expression>): Expression {
    CallExpression(t, Some(Identifier(t, name)), arguments)
  }

  lemma OneArgument(t: Token, name: string, e: Expression, env: Environment)
    requires Lookup(name).Some?
    ensures Eval(e, env).Abort? ==> Eval(Call(t, name, [e]), env) == Eval(e, env)
    ensures Eval(e, env).Value? ==>
              Eval(Call(t, name, [e]), env) == ApplyFunction(Builtin(Lookup(name).value), [Eval(e, env).value])
  {
    hide ApplyFunction, Lookup;
    assert [e][1..] == [];
    assert EvalAll([], env) == Value([]);
    assert Eval(e, env).Value? ==> [Eval(e, env).value] + [] == [Eval(e, env).value];
  }

  lemma TwoArguments(t: Token, name: string, d: Expression, e: Expression, env: Environment)
    requires Lookup(name).Some?
    ensures Eval(d, env).Abort? ==> Eval(Call(t, name, [d, e]), env) == Eval(d, env)
    ensures Eval(d, env).Value? && Eval(e, env).Abort? ==> Eval(Call(t, name, [d, e]), env) == Eval(e, env)
    ensures Eval(d, env).Value? && Eval(e, env).Value? ==>
              Eval(Call(t, name, [d, e]), env)
              == ApplyFunction(Builtin(Lookup(name).value), [Eval(d, env).value, Eval(e, env).value])
  {
    hide ApplyFunction, Lookup;
    PairEvaluates(d, e, env);
    hide Eval, EvalAll;
    OneCall(t, name, [d, e], env);
  }

  lemma PairEvaluates(d: Expression, e: Expression, env: Environment)
    ensures EvalAll([d, e], env)
         == if Eval(d, env).Abort? then Abort(Eval(d, env).why)
            else if Eval(e, env).Abort? then Abort(Eval(e, env).why)
            else Value([Eval(d, env).value, Eval(e, env).value])
  {
    hide Eval;
    assert [d, e][1..] == [e] && [e][1..] == [];
    assert EvalAll([], env) == Value([]);
    if Eval(d, env).Value? && Eval(e, env).Value? {
      assert [Eval(e, env).value] + [] == [Eval(e, env).value];
      assert EvalAll([e], env) == Value([Eval(e, env).value]);
      assert [Eval(d, env).value] + [Eval(e, env).value] == [Eval(d, env).value, Eval(e, env).value];
    }
  }

  /** A builtin is applied to its arguments, unless one of them panics. */
  lemma OneCall(t: Token, name: string, arguments: seq<Expression>, env: Environment)
    requires Lookup(name).Some?
    ensures EvalAll(arguments, env).Abort? ==> Eval(Call(t, name, arguments), env) == Abort(EvalAll(arguments, env).why)
    ensures EvalAll(arguments, env).Value? ==>
              Eval(Call(t, name, arguments), env)
              == ApplyFunction(Builtin(Lookup(name).value), EvalAll(arguments, env).value)
  {
    hide ApplyFunction, Lookup;
  }

  lemma Listed(t: Token, es: seq<Expression>, env: Environment)
    ensures EvalAll(es, env).Value? ==> Eval(ArrayLiteral(t, es), env) == Value(Array(EvalAll(es, env).value))
    ensures EvalAll(es, env).Abort? ==> Eval(ArrayLiteral(t, es), env) == Abort(EvalAll(es, env).why)
  {}

  /** `all([..])` is TRUE exactly if every element is. */
  lemma AllByName(t: Token, votes: seq<Expression>, env: Environment)
    ensures IsTrue(Call(t, "all", [ArrayLiteral(t, votes)]), env) <==> forall i | 0 <= i < |votes| :: IsTrue(votes[i], env)
    ensures EvalAll(votes, env).Value? ==>
              Eval(Call(t, "all", [ArrayLiteral(t, votes)]), env) == Value(AllOf(EvalAll(votes, env).value))
  {
    OneArgument(t, "all", ArrayLiteral(t, votes), env);
    Listed(t, votes, env);
    ElementsEvaluate(votes, env);
    hide Eval, AllOf, Call;
    if EvalAll(votes, env).Value? {
      var xs := EvalAll(votes, env).value;
      AllErrorsExactly(xs);
      assert forall i | 0 <= i < |votes| :: IsTrue(votes[i], env) <==> xs[i] == Boolean(true);
    }
  }

  /** The votes that are TRUE. */
  function TrueVotes(votes: seq<Expression>, env: Environment): nat {
    if votes == [] then 0 else (if IsTrue(votes[0], env) then 1 else 0) + TrueVotes(votes[1..], env)
  }

  lemma {:induction false} TrueVotesAreTrues(votes: seq<Expression>, env: Environment)
    requires EvalAll(votes, env).Value?
    ensures Trues(EvalAll(votes, env).value) == TrueVotes(votes, env)
  {
    hide Eval;
    if votes != [] {
      TrueVotesAreTrues(votes[1..], env);
      var xs := EvalAll(votes, env).value;
      assert xs[1..] == EvalAll(votes[1..], env).value;
    }
  }

  /** `any(k, [..])` of votes, with a positive threshold: TRUE if at least that many are TRUE, and
      FALSE otherwise. */
  lemma AnyByName(t: Token, k: Expression, votes: seq<Expression>, env: Environment)
    requires Counts(k, env) && NumberOf(k, env) >= 1
    requires forall i | 0 <= i < |votes| :: Decides(votes[i], env)
    ensures Eval(Call(t, "any", [k, ArrayLiteral(t, votes)]), env)
         == Value(Boolean(TrueVotes(votes, env) >= NumberOf(k, env)))
  {
    TwoArguments(t, "any", k, ArrayLiteral(t, votes), env);
    Listed(t, votes, env);
    ElementsEvaluate(votes, env);
    TrueVotesAreTrues(votes, env);
    hide Eval, AnyOf, Call, TrueVotes;
    AnyIsQuorum(NumberOf(k, env), EvalAll(votes, env).value);
  }

  /** On truth values the connectives are the two builtins. */
  lemma ConnectivesAreQuorums(t: Token, l: Expression, r: Expression, env: Environment)
    requires Decides(l, env) && Decides(r, env)
    ensures Eval(InfixExpression(t, l, "&&", r), env) == Eval(Call(t, "all", [ArrayLiteral(t, [l, r])]), env)
    ensures Eval(InfixExpression(t, l, "||", r), env)
         == Eval(Call(t, "any", [IntegerLiteral(t, "1"), ArrayLiteral(t, [l, r])]), env)
  {
    OneIsOne(t, env);
    Conjunction(t, l, r, env);
    Disjunction(t, l, r, env);
    AllByName(t, [l, r], env);
    AnyByName(t, IntegerLiteral(t, "1"), [l, r], env);
    TwoVotes(l, r, env);
    ElementsEvaluate([l, r], env);
    hide Eval, Call, TrueVotes;
    var xs := EvalAll([l, r], env).value;
    AllErrorsExactly(xs);
    assert xs[0] == Eval([l, r][0], env).value && xs[1] == Eval([l, r][1], env).value;
  }

  lemma OneIsOne(t: Token, env: Environment)
    ensures Eval(IntegerLiteral(t, "1"), env) == Value(Integer(1))
  {
    Decimal.SetStringOfString(1);
  }

  lemma TwoVotes(l: Expression, r: Expression, env: Environment)
    ensures TrueVotes([l, r], env) == (if IsTrue(l, env) then 1 else 0) + (if IsTrue(r, env) then 1 else 0)
  {
    assert [l, r][1..] == [r] && [r][1..] == [];
    assert TrueVotes([r], env) == if IsTrue(r, env) then 1 else 0;
  }

  /** `contains` is membership, for numbers, truth values and texts. */
  lemma ContainsIsMembership(x: Object, xs: seq<Object>)
    ensures IsScalar(x) ==> ApplyContains([x, Array(xs)]) == Boolean(x in xs)
    ensures !IsScalar(x) ==> ApplyContains([x, Array(xs)]) == Error(BadItem)
  {}

  lemma ContainsByName(t: Token, item: Expression, es: seq<Expression>, env: Environment)
    requires Eval(item, env).Value? && IsScalar(Eval(item, env).value)
    requires forall i | 0 <= i < |es| :: Eval(es[i], env).Value?
    ensures Eval(Call(t, "contains", [item, ArrayLiteral(t, es)]), env)
         == Value(Boolean(exists i | 0 <= i < |es| :: Eval(es[i], env) == Eval(item, env)))
  {
    TwoArguments(t, "contains", item, ArrayLiteral(t, es), env);
    Listed(t, es, env);
    ElementsEvaluate(es, env);
    hide Eval, ApplyContains, Call;
    var x, xs := Eval(item, env).value, EvalAll(es, env).value;
    ContainsIsMembership(x, xs);
    if i :| 0 <= i < |es| && Eval(es[i], env) == Eval(item, env) {
      assert xs[i] == x;
    }
  }

  /** Nothing but a builtin can be called. */
  lemma OnlyBuiltinsAreCalled(t: Token, name: string, arguments: seq<Expression>, env: Environment)
    requires name !in {"any", "all", "contains"}
    requires Eval(Ident(Identifier(t, name)), env).Value? && !Eval(Ident(Identifier(t, name)), env).value.Builtin?
    ensures EvalAll(arguments, env).Value? ==> Eval(Call(t, name, arguments), env) == Value(Error(NotAFunction))
    ensures EvalAll(arguments, env).Abort? ==> Eval(Call(t, name, arguments), env) == Abort(EvalAll(arguments, env).why)
  {}

  /** What builtins check: the number of their arguments first, with an Error. `any` and `all` then
      panic on arguments of other types, and `contains` never does. */
  lemma ArgumentChecks(args: seq<Object>)
    ensures ApplyAny(args) == Value(Error(WrongArgumentCount)) <==> |args| != 2
    ensures ApplyAll(args) == Value(Error(WrongArgumentCount)) <==> |args| != 1
    ensures ApplyContains(args) == Error(WrongArgumentCount) <==> |args| != 2
    ensures ApplyAny(args).Abort? <==> |args| == 2 && !(args[0].Integer? && args[1].Array?)
    ensures ApplyAll(args).Abort? <==> |args| == 1 && !args[0].Array?
    ensures ApplyContains(args) == Error(NotAnArray) <==> |args| == 2 && IsScalar(args[0]) && !args[1].Array?
  {
    if |args| == 2 && args[0].Integer? && args[1].Array? {
      BooleansOrErrors(args[0].n, args[1].elements);
    }
    if |args| == 1 && args[0].Array? {
      AllErrorsExactly(args[0].elements);
    }
    hide AnyOf, AllOf;
  }

  lemma {:induction false} BooleansOrErrors(k: int, xs: seq<Object>)
    ensures AnyOf(k, xs).Boolean? || AnyOf(k, xs) == Error(NotABoolean)
    decreases |xs|
  {
    if xs != [] && xs[0].Boolean? && Below(k, xs[0].b) != 0 {
      BooleansOrErrors(Below(k, xs[0].b), xs[1..]);
    }
  }

  /** Trees with holes, as a decoder may make them: a nil panics, an empty oneof is an Error, and so
      is a number that is none. */
  lemma IncompleteTrees(t: Token, text: string, arguments: seq<Expression>, env: Environment)
    ensures Eval(NilExpr, env) == Abort(NilDereference) && Eval(Unset, env) == Value(Error(UnknownExpression))
    ensures Eval(CallExpression(t, None, arguments), env) == Abort(NilDereference)
    ensures Eval(IntegerLiteral(t, text), env) == Value(Error(BadInteger)) <==> Decimal.SetString(text).None?
  {
    hide Decimal.SetString;
  }
}
