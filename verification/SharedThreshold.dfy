/** Why thresholds should not be bare identifiers: the integer of the environment is counted down,
    and the next `any` that uses it starts from what is left. */
module SharedThresholds {
  import opened Wrappers
  import opened Tokens
  import opened Ast
  import opened Evaluation
  import opened HeapObjects
  import opened StoreEvaluation
  import opened HeapEvaluation
  import opened Quorum

  /** What `any` leaves of its threshold, whatever the threshold and the elements: nothing if it
      answers TRUE, and otherwise all but the approvals that it has seen. */
  lemma {:induction false} RemainingCounts(k: int, xs: seq<Object>)
    ensures AnyOf(k, xs) == Boolean(true) ==> Remaining(k, xs) == 0
    ensures AnyOf(k, xs) == Boolean(false) ==> Remaining(k, xs) == k - Trues(xs)
    ensures forall i: nat | FirstBad(xs, i) && AnyOf(k, xs).Error? :: Remaining(k, xs) == k - Trues(xs[..i])
    decreases |xs|
  {
    if xs != [] && xs[0].Boolean? && Below(k, xs[0].b) != 0 {
      RemainingCounts(Below(k, xs[0].b), xs[1..]);
      forall i: nat | FirstBad(xs, i)
        ensures i > 0 && FirstBad(xs[1..], i - 1) && xs[..i][0] == xs[0] && xs[..i][1..] == xs[1..][..i - 1]
      {
        assert xs[1..][..i - 1] == xs[..i][1..];
      }
    } else if xs != [] && !xs[0].Boolean? {
      forall i: nat | FirstBad(xs, i)
        ensures i == 0
      {
        assert FirstBad(xs, 0);
        OneFirstBad(xs, i, 0);
      }
    }
  }

  /** What a quorum of `k` out of booleans leaves of its threshold: the approvals still missing. */
  lemma RemainingOfQuorum(k: int, xs: seq<Object>)
    requires k >= 1 && AllBoolean(xs)
    ensures Remaining(k, xs) == if Trues(xs) >= k then 0 else k - Trues(xs)
  {
    AnyIsQuorum(k, xs);
    RemainingCounts(k, xs);
  }

  /** The answer about `ys` with a threshold that was used for `xs` before. */
  ghost function SecondAnswer(k: int, xs: seq<Object>, ys: seq<Object>): Object { AnyOf(Remaining(k, xs), ys) }

  /** The second answer, exactly: once the first quorum was reached it only looks at the first
      element of the second list, and before that the approvals of both lists add up. */
  lemma SecondAnswerIs(k: int, xs: seq<Object>, ys: seq<Object>)
    requires k >= 1 && AllBoolean(xs) && AllBoolean(ys)
    ensures SecondAnswer(k, xs, ys)
         == Boolean(if Trues(xs) >= k then ys != [] && !ys[0].b else Trues(xs) + Trues(ys) >= k)
  {
    RemainingOfQuorum(k, xs);
    if Trues(xs) >= k {
      AnyBelowOne(0, ys);
    } else {
      AnyIsQuorum(k - Trues(xs), ys);
    }
  }

  /** The second answer is the quorum of the second list exactly if the first quorum was reached,
      and the second list reaches it starting with a refusal or misses it starting with an approval
      or empty; or if it was not, and the second list reaches it alone or not even both together. */
  lemma SecondAnswerAgrees(k: int, xs: seq<Object>, ys: seq<Object>)
    requires k >= 1 && AllBoolean(xs) && AllBoolean(ys)
    ensures SecondAnswer(k, xs, ys) == AnyOf(k, ys) <==>
              if Trues(xs) >= k then (Trues(ys) >= k <==> ys != [] && !ys[0].b)
              else Trues(ys) >= k || Trues(xs) + Trues(ys) < k
  {
    SecondAnswerIs(k, xs, ys);
    AnyIsQuorum(k, ys);
  }

  /** The same threshold object, used for two lists. */
  method AskTwice(threshold: BigInt, first: seq<HeapObject>, second: seq<HeapObject>)
    returns (a: HeapObject, b: HeapObject)
    requires threshold.value >= 1 && AllBoolean(ViewAll(first)) && AllBoolean(ViewAll(second))
    modifies threshold
    ensures View(a) == old(Boolean(Trues(ViewAll(first)) >= threshold.value))
    ensures View(b) == old(SecondAnswer(threshold.value, ViewAll(first), ViewAll(second)))
  {
    ghost var k, xs, ys := threshold.value, ViewAll(first), ViewAll(second);
    AllBooleansSeen(second);
    AnyIsQuorum(k, xs);
    a := CountDown(threshold, first);
    BooleansStay(second, ys);
    b := CountDown(threshold, second);
  }

  /** Integers may change, booleans do not. */
  lemma {:induction false} BooleansStay(elements: seq<HeapObject>, xs: seq<Object>)
    requires |xs| == |elements| && AllBoolean(xs)
    requires forall i | 0 <= i < |xs| ::
               elements[i].BooleanObject? && xs[i] == Boolean(elements[i].b)
    ensures ViewAll(elements) == xs
  {
    if elements != [] {
      BooleansStay(elements[1..], xs[1..]);
    }
  }

  // ----- A program with a shared threshold -----

  /** `any(name, [votes])` */
  function AnyCall(t: Token, callee: Identifier, name: Identifier, list: Token, votes: seq<Expression>): Expression {
    CallExpression(t, Some(callee), [Ident(name), ArrayLiteral(list, votes)])
  }

  /** Boolean literals and names of booleans. */
  predicate IsVote(e: Expression, env: HeapEnvironment) {
    e.BooleanLiteral?
    || (e.Ident? && Lookup(e.ident.value).None? && env.Store?
        && e.ident.value in env.store && env.store[e.ident.value].BooleanObject?)
  }

  predicate AreVotes(es: seq<Expression>, env: HeapEnvironment) { forall i | 0 <= i < |es| :: IsVote(es[i], env) }

  function Vote(e: Expression, env: HeapEnvironment): bool
    requires IsVote(e, env)
  {
    if e.BooleanLiteral? then e.truth else env.store[e.ident.value].b
  }

  function Votes(es: seq<Expression>, env: HeapEnvironment): (xs: seq<Object>)
    requires AreVotes(es, env)
    ensures AllBoolean(xs)
  {
    if es == [] then [] else [Boolean(Vote(es[0], env))] + Votes(es[1..], env)
  }

  lemma {:induction false} VotesEvaluate(es: seq<Expression>, env: HeapEnvironment, memory: Memory)
    requires AreVotes(es, env)
    ensures AllEvaluated(es, env, memory) == Run(Value(NewAll(Votes(es, env))), memory)
  {
    if es != [] {
      VotesEvaluate(es[1..], env, memory);
    }
  }

  lemma {:induction false} VotesEvaluatePurely(es: seq<Expression>, env: HeapEnvironment, memory: Memory)
    requires AreVotes(es, env)
    ensures EvalAll(es, ValuesOf(env, memory)) == Value(Votes(es, env))
  {
    if es != [] {
      VotesEvaluatePurely(es[1..], env, memory);
    }
  }

  /** The name stands for an integer of the environment. */
  ghost predicate IsThreshold(name: Identifier, env: HeapEnvironment, cell: BigInt, memory: Memory) {
    Lookup(name.value).None? && env.Store? && name.value in env.store
    && env.store[name.value] == IntegerObject(cell) && cell in memory
  }

  lemma AnyCallEvaluates(call: Expression, t: Token, callee: Identifier, name: Identifier, list: Token,
      votes: seq<Expression>, env: HeapEnvironment, cell: BigInt, memory: Memory)
    requires call == AnyCall(t, callee, name, list, votes) && callee.value == "any"
    requires AreVotes(votes, env) && IsThreshold(name, env, cell, memory)
    ensures Evaluated(call, env, memory)
         == Run(Value(New(AnyOf(memory[cell], Votes(votes, env)))),
                memory[cell := Remaining(memory[cell], Votes(votes, env))])
    ensures Eval(call, ValuesOf(env, memory)) == Value(AnyOf(memory[cell], Votes(votes, env)))
  {
    var xs := Votes(votes, env);
    ArgumentsEvaluate(name, list, votes, env, cell, memory);
    hide Votes, AllEvaluated, EvalAll, AnyOf, New, NewAll;
    ReadAllNew(xs, memory);
    ThresholdApplies(cell, xs, memory);
  }

  lemma ArgumentsEvaluate(name: Identifier, list: Token, votes: seq<Expression>, env: HeapEnvironment, cell: BigInt,
      memory: Memory)
    requires AreVotes(votes, env) && IsThreshold(name, env, cell, memory)
    ensures AllEvaluated([Ident(name), ArrayLiteral(list, votes)], env, memory)
         == Run(Value([IntegerIn(cell), ArrayOf(NewAll(Votes(votes, env)))]), memory)
    ensures EvalAll([Ident(name), ArrayLiteral(list, votes)], ValuesOf(env, memory))
         == Value([Integer(memory[cell]), Array(Votes(votes, env))])
  {
    var ballots := ArrayLiteral(list, votes);
    VotesEvaluate(votes, env, memory);
    VotesEvaluatePurely(votes, env, memory);
    hide Votes, NewAll, AllEvaluated, EvalAll;
    PairEvaluates(Ident(name), ballots, env, memory, IntegerIn(cell), ArrayOf(NewAll(Votes(votes, env))),
                  Integer(memory[cell]), Array(Votes(votes, env)));
  }

  lemma PairEvaluates(d: Expression, e: Expression, env: HeapEnvironment, memory: Memory,
      x: Stored, y: Stored, a: Object, b: Object)
    requires Evaluated(d, env, memory) == Run(Value(x), memory) && Evaluated(e, env, memory) == Run(Value(y), memory)
    requires Eval(d, ValuesOf(env, memory)) == Value(a) && Eval(e, ValuesOf(env, memory)) == Value(b)
    ensures AllEvaluated([d, e], env, memory) == Run(Value([x, y]), memory)
    ensures EvalAll([d, e], ValuesOf(env, memory)) == Value([a, b])
  {
    hide Evaluated, Eval, ValuesOf;
    assert [d, e][1..] == [e] && [e][1..] == [];
    assert [x] + [y] == [x, y] && [y] + [] == [y] && [a] + [b] == [a, b] && [b] + [] == [b];
    assert AllEvaluated([e], env, memory) == Run(Value([y]), memory);
    assert EvalAll([e], ValuesOf(env, memory)) == Value([b]);
  }

  lemma ReadPair(x: Stored, y: Stored, memory: Memory)
    ensures ReadAll([x, y], memory) == [Read(x, memory), Read(y, memory)]
  {
    hide Read;
    assert [x, y][1..] == [y] && [y][1..] == [];
    assert ReadAll([y], memory) == [Read(y, memory)];
  }

  lemma ThresholdApplies(cell: BigInt, xs: seq<Object>, memory: Memory)
    requires cell in memory
    ensures Applied(BuiltinOf(Any), [IntegerIn(cell), ArrayOf(NewAll(xs))], memory)
         == Run(Value(New(AnyOf(memory[cell], xs))), memory[cell := Remaining(memory[cell], xs)])
  {
    ReadAllNew(xs, memory);
    hide AnyOf, NewAll, ReadAll;
    ReadPair(IntegerIn(cell), ArrayOf(NewAll(xs)), memory);
  }

  /** `any(k, [xs]) op any(k, [ys])`: the second call gets the second answer. */
  lemma TwoCalls(first: Expression, second: Expression, op: string, t: Token, env: HeapEnvironment, memory: Memory,
      a: Object, b: Object, c: Object, m: Memory, n: Memory)
    requires Evaluated(first, env, memory) == Run(Value(New(a)), m) && a.Boolean?
    requires Evaluated(second, env, m) == Run(Value(New(b)), n) && b.Boolean?
    requires Eval(first, ValuesOf(env, memory)) == Value(a) && Eval(second, ValuesOf(env, memory)) == Value(c) && c.Boolean?
    ensures Evaluated(InfixExpression(t, first, op, second), env, memory) == Run(NewOutcome(EvalInfix(a, op, b)), n)
    ensures Eval(InfixExpression(t, first, op, second), ValuesOf(env, memory)) == EvalInfix(a, op, c)
  {
    hide *;
    BooleansAreRead(a, n);
    BooleansAreRead(b, n);
    InfixRun(first, second, op, t, env, memory, New(a), New(b), m, n);
    InfixValue(first, second, op, t, ValuesOf(env, memory), a, c);
  }

  lemma InfixRun(left: Expression, right: Expression, op: string, t: Token, env: HeapEnvironment, memory: Memory,
      l: Stored, r: Stored, m: Memory, n: Memory)
    requires Evaluated(left, env, memory) == Run(Value(l), m) && !l.ErrorOf?
    requires Evaluated(right, env, m) == Run(Value(r), n) && !r.ErrorOf?
    ensures Evaluated(InfixExpression(t, left, op, right), env, memory)
         == Run(NewOutcome(EvalInfix(Read(l, n), op, Read(r, n))), n)
  {
    hide EvalInfix, Read, NewOutcome;
  }

  lemma InfixValue(left: Expression, right: Expression, op: string, t: Token, env: Environment, l: Object, r: Object)
    requires Eval(left, env) == Value(l) && !l.Error?
    requires Eval(right, env) == Value(r) && !r.Error?
    ensures Eval(InfixExpression(t, left, op, right), env) == EvalInfix(l, op, r)
  {
    hide EvalInfix;
  }

  lemma BooleansAreRead(o: Object, memory: Memory)
    requires o.Boolean?
    ensures Read(New(o), memory) == o && !New(o).ErrorOf?
  {}

  /** A program on which evaluation and the pure evaluator part: two quorums over boolean votes
      with one shared threshold. Evaluation gives the second answer where the pure evaluator gives
      the quorum of the second list, and the memory is left without the approvals of both. */
  lemma SharedThresholdProgram(t: Token, callee: Identifier, name: Identifier, op: string,
      first: seq<Expression>, second: seq<Expression>, env: HeapEnvironment, cell: BigInt, memory: Memory)
    requires callee.value == "any" && AreVotes(first, env) && AreVotes(second, env)
    requires IsThreshold(name, env, cell, memory) && memory[cell] >= 1
    ensures var k, xs, ys := memory[cell], Votes(first, env), Votes(second, env);
            var program := InfixExpression(t, AnyCall(t, callee, name, t, first), op, AnyCall(t, callee, name, t, second));
            && Evaluated(program, env, memory)
               == Run(NewOutcome(EvalInfix(Boolean(Trues(xs) >= k), op, SecondAnswer(k, xs, ys))),
                      memory[cell := Remaining(Remaining(k, xs), ys)])
            && Eval(program, ValuesOf(env, memory))
               == EvalInfix(Boolean(Trues(xs) >= k), op, Boolean(Trues(ys) >= k))
  {
    var k, xs, ys := memory[cell], Votes(first, env), Votes(second, env);
    var m := memory[cell := Remaining(k, xs)];
    var call1, call2 := AnyCall(t, callee, name, t, first), AnyCall(t, callee, name, t, second);
    AnyIsQuorum(k, xs);
    AnyIsQuorum(k, ys);
    SecondAnswerIs(k, xs, ys);
    UpdateTwice(memory, cell, Remaining(k, xs), Remaining(Remaining(k, xs), ys));
    ThresholdStays(name, env, cell, memory, Remaining(k, xs));
    hide *;
    AnyCallEvaluates(call1, t, callee, name, t, first, env, cell, memory);
    AnyCallEvaluates(call2, t, callee, name, t, second, env, cell, m);
    AnyCallEvaluates(call2, t, callee, name, t, second, env, cell, memory);
    TwoCalls(call1, call2, op, t, env, memory, AnyOf(k, xs), AnyOf(Remaining(k, xs), ys), AnyOf(k, ys), m,
             m[cell := Remaining(Remaining(k, xs), ys)]);
  }

  lemma UpdateTwice(memory: Memory, cell: BigInt, a: int, b: int)
    ensures memory[cell := a][cell := b] == memory[cell := b]
  {}

  lemma ThresholdStays(name: Identifier, env: HeapEnvironment, cell: BigInt, memory: Memory, a: int)
    requires IsThreshold(name, env, cell, memory)
    ensures IsThreshold(name, env, cell, memory[cell := a])
  {}

  /** For `&&`: evaluation differs from the pure evaluator exactly if both agree on the first
      quorum being reached and not on the second. */
  lemma ConjunctionDiffers(k: int, xs: seq<Object>, ys: seq<Object>)
    requires k >= 1 && AllBoolean(xs) && AllBoolean(ys)
    ensures EvalInfix(Boolean(Trues(xs) >= k), "&&", SecondAnswer(k, xs, ys))
            != EvalInfix(Boolean(Trues(xs) >= k), "&&", Boolean(Trues(ys) >= k))
       <==> Trues(xs) >= k && (Trues(ys) >= k <==> ys == [] || ys[0].b)
  {
    SecondAnswerIs(k, xs, ys);
  }

  /** For `||`: it differs exactly if neither list reaches the quorum and both together do. */
  lemma DisjunctionDiffers(k: int, xs: seq<Object>, ys: seq<Object>)
    requires k >= 1 && AllBoolean(xs) && AllBoolean(ys)
    ensures EvalInfix(Boolean(Trues(xs) >= k), "||", SecondAnswer(k, xs, ys))
            != EvalInfix(Boolean(Trues(xs) >= k), "||", Boolean(Trues(ys) >= k))
       <==> Trues(xs) < k && Trues(ys) < k && Trues(xs) + Trues(ys) >= k
  {
    SecondAnswerIs(k, xs, ys);
  }
}
