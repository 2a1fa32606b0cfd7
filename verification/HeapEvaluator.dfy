/** The evaluator as it runs: integers are objects on the heap, and `any` counts its threshold
    down in place. */
module HeapEvaluation {
  import opened Wrappers
  import opened Sequences
  import opened Ast
  import opened Evaluation
  import opened HeapObjects
  import opened StoreEvaluation
  import Decimal

  method ApplyAnyInPlace(args: seq<HeapObject>) returns (r: Outcome<HeapObject>)
    modifies if |args| == 2 && args[0].IntegerObject? && args[1].ArrayObject? then {args[0].n} else {}
    ensures r.Value? ==> r.value.BooleanObject? || r.value.ErrorObject?
    ensures ViewOutcome(r) == old(ApplyAny(ViewAll(args)))
    ensures |args| == 2 && args[0].IntegerObject? && args[1].ArrayObject? ==>
              args[0].n.value == old(Remaining(args[0].n.value, ViewAll(args[1].elements)))
  {
    if |args| != 2 {
      return Value(ErrorObject(WrongArgumentCount));
    }
    ViewAllAt(args, 0);
    ViewAllAt(args, 1);
    if !args[0].IntegerObject? || !args[1].ArrayObject? {
      return Abort(TypeAssertion);
    }
    var o := CountDown(args[0].n, args[1].elements);
    return Value(o);
  }

  method CountDown(threshold: BigInt, elements: seq<HeapObject>) returns (r: HeapObject)
    modifies threshold
    ensures r.BooleanObject? || r.ErrorObject?
    ensures View(r) == old(AnyOf(threshold.value, ViewAll(elements)))
    ensures threshold.value == old(Remaining(threshold.value, ViewAll(elements)))
  {
    ghost var xs, k := ViewAll(elements), threshold.value;
    AllBooleansSeen(elements);
    for i := 0 to |elements|
      invariant AnyOf(k, xs) == AnyOf(threshold.value, xs[i..])
      invariant Remaining(k, xs) == Remaining(threshold.value, xs[i..])
    {
      assert xs[i..][0] == xs[i] && xs[i..][1..] == xs[i + 1..];
      var el := elements[i];
      if !el.BooleanObject? {
        return ErrorObject(NotABoolean);
      }
      if el.b {
        threshold.value := threshold.value - 1;
      }
      if threshold.value == 0 {
        return BooleanObject(true);
      }
    }
    return BooleanObject(false);
  }

  lemma AllBooleansSeen(elements: seq<HeapObject>)
    ensures forall i | 0 <= i < |elements| ::
              && (elements[i].BooleanObject? <==> ViewAll(elements)[i].Boolean?)
              && (elements[i].BooleanObject? ==> elements[i].b == ViewAll(elements)[i].b)
  {
    hide ViewAll;
    forall i | 0 <= i < |elements|
      ensures elements[i].BooleanObject? <==> ViewAll(elements)[i].Boolean?
      ensures elements[i].BooleanObject? ==> elements[i].b == ViewAll(elements)[i].b
    {
      ViewAllAt(elements, i);
    }
  }

  method ApplyAllOn(args: seq<HeapObject>) returns (r: Outcome<HeapObject>)
    ensures r.Value? ==> r.value.BooleanObject? || r.value.ErrorObject?
    ensures ViewOutcome(r) == ApplyAll(ViewAll(args))
  {
    if |args| != 1 {
      return Value(ErrorObject(WrongArgumentCount));
    }
    ViewAllAt(args, 0);
    if !args[0].ArrayObject? {
      return Abort(TypeAssertion);
    }
    var elements := args[0].elements;
    ghost var xs := ViewAll(elements);
    AllBooleansSeen(elements);
    for i := 0 to |elements|
      invariant AllOf(xs) == AllOf(xs[i..])
    {
      assert xs[i..][0] == xs[i] && xs[i..][1..] == xs[i + 1..];
      if !elements[i].BooleanObject? {
        return Value(ErrorObject(NotABoolean));
      }
      if !elements[i].b {
        return Value(BooleanObject(false));
      }
    }
    return Value(BooleanObject(true));
  }

  /** `compare` on the objects themselves. */
  predicate SameObject(a: HeapObject, b: HeapObject): (same: bool)
    reads Cells(a), Cells(b)
    ensures same == SameScalar(View(a), View(b))
  {
    match (a, b)
    case (IntegerObject(m), IntegerObject(n)) => m.value == n.value
    case (BooleanObject(m), BooleanObject(n)) => m == n
    case (StringObject(m), StringObject(n)) => m == n
    case _ => false
  }

  method ApplyContainsOn(args: seq<HeapObject>) returns (r: HeapObject)
    ensures r.BooleanObject? || r.ErrorObject?
    ensures View(r) == ApplyContains(ViewAll(args))
  {
    if |args| != 2 {
      return ErrorObject(WrongArgumentCount);
    }
    ViewAllAt(args, 0);
    ViewAllAt(args, 1);
    var item := args[0];
    if !item.IntegerObject? && !item.BooleanObject? && !item.StringObject? {
      return ErrorObject(BadItem);
    }
    if !args[1].ArrayObject? {
      return ErrorObject(NotAnArray);
    }
    var elements := args[1].elements;
    ghost var xs := ViewAll(elements);
    ViewAllEach(elements);
    for i := 0 to |elements|
      invariant forall j | 0 <= j < i :: !SameScalar(View(item), xs[j])
    {
      if SameObject(item, elements[i]) {
        return BooleanObject(true);
      }
    }
    return BooleanObject(false);
  }

  /** The integers of `o` are new or come from the environment. */
  twostate predicate Owned(new o: HeapObject, env: HeapEnvironment) {
    forall c | c in Cells(o) :: c in EnvironmentCells(env) || fresh(c)
  }

  twostate predicate AllOwned(new os: seq<HeapObject>, env: HeapEnvironment) {
    forall c | c in AllCells(os) :: c in EnvironmentCells(env) || fresh(c)
  }

  twostate predicate NewInteger(new o: HeapObject) {
    o.IntegerObject? ==> fresh(o.n)
  }

  method ResolveIn(name: string, env: HeapEnvironment) returns (r: HeapObject)
    ensures Borrowed(r) == ResolveStored(name, env)
    ensures Cells(r) <= EnvironmentCells(env)
  {
    match Lookup(name)
    case Some(f) => return BuiltinObject(f);
    case None =>
      if env.NoStore? {
        return ErrorObject(NoEnvironment);
      }
      if name in env.store {
        return env.store[name];
      }
      return ErrorObject(NotFound);
  }

  method Negate(operator: string, right: HeapObject) returns (r: HeapObject)
    ensures View(r) == EvalPrefix(operator, View(right))
    ensures NewInteger(r) && !r.ArrayObject?
  {
    if right.ErrorObject? {
      return right;
    }
    if operator != "-" || !right.IntegerObject? {
      return ErrorObject(UnknownOperator);
    }
    var n := new BigInt(-right.n.value);
    return IntegerObject(n);
  }

  method Combine(l: HeapObject, operator: string, r: HeapObject) returns (o: Outcome<HeapObject>)
    ensures ViewOutcome(o) == EvalInfix(View(l), operator, View(r))
    ensures o.Value? ==> NewInteger(o.value) && !o.value.ArrayObject?
  {
    if l.BooleanObject? && r.BooleanObject? {
      if operator == "||" { return Value(BooleanObject(l.b || r.b)); }
      if operator == "&&" { return Value(BooleanObject(l.b && r.b)); }
      if operator == "==" { return Value(BooleanObject(l.b == r.b)); }
      if operator == "!=" { return Value(BooleanObject(l.b != r.b)); }
      return Value(ErrorObject(UnknownOperator));
    } else if l.IntegerObject? && r.IntegerObject? {
      o := CombineIntegers(l.n.value, operator, r.n.value);
    } else if l.StringObject? && r.StringObject? {
      var result := CombineStrings(l.s, operator, r.s);
      return Value(result);
    } else {
      return Value(ErrorObject(UnknownOperator));
    }
  }

  method CombineIntegers(m: int, operator: string, n: int) returns (o: Outcome<HeapObject>)
    ensures ViewOutcome(o) == EvalInfix(Integer(m), operator, Integer(n))
    ensures o.Value? ==> NewInteger(o.value) && !o.value.ArrayObject?
  {
    match Compare(operator, m - n)
    case Some(b) => return Value(BooleanObject(b));
    case None =>
      match Arithmetic(m, operator, n)
      case Abort(why) => return Abort(why);
      case Value(v) =>
        if v.Integer? {
          var result := new BigInt(v.n);
          return Value(IntegerObject(result));
        }
        return Value(ErrorObject(UnknownOperator));
  }

  method CombineStrings(s: string, operator: string, t: string) returns (o: HeapObject)
    ensures Value(View(o)) == EvalInfix(String(s), operator, String(t))
    ensures o.BooleanObject? || o.ErrorObject?
  {
    if operator == "==" { return BooleanObject(s == t); }
    if operator == "!=" { return BooleanObject(s != t); }
    if Compare(operator, 0).None? { return ErrorObject(UnknownOperator); }
    match (Decimal.SetString(s), Decimal.SetString(t))
    case (Some(m), Some(n)) => return BooleanObject(Compare(operator, m - n).value);
    case _ => return ErrorObject(BadNumber);
  }

  predicate CountsDownOn(f: HeapObject, args: seq<HeapObject>) {
    f == BuiltinObject(Any) && |args| == 2 && args[0].IntegerObject? && args[1].ArrayObject?
  }

  method Apply(f: HeapObject, args: seq<HeapObject>) returns (r: Outcome<HeapObject>)
    modifies if CountsDownOn(f, args) then {args[0].n} else {}
    ensures r.Value? ==> r.value.BooleanObject? || r.value.ErrorObject?
    ensures ViewOutcome(r) == old(ApplyFunction(View(f), ViewAll(args)))
    ensures CountsDownOn(f, args) ==>
              args[0].n.value == old(Remaining(args[0].n.value, ViewAll(args[1].elements)))
  {
    hide ApplyAny, ApplyAll, ApplyContains, ViewAll, AllCells;
    AllCellsExist(args);
    if !f.BuiltinObject? {
      return Value(ErrorObject(NotAFunction));
    }
    match f.f
    case Any =>
      r := ApplyAnyInPlace(args);
    case All =>
      r := ApplyAllOn(args);
    case Contains =>
      var o := ApplyContainsOn(args);
      r := Value(o);
  }


  // ----- The heap as memory -----

  ghost function Snapshot(env: HeapEnvironment): Memory
    reads EnvironmentCells(env)
  {
    map c | c in EnvironmentCells(env) :: c.value
  }

  /** The object with its own integers as numbers and those of the environment as cells. */
  ghost function StoredAs(o: HeapObject, shared: set<BigInt>): Stored
    reads Cells(o) - shared
    decreases o, 1
  {
    match o
    case IntegerObject(n) => if n in shared then IntegerIn(n) else IntegerOf(n.value)
    case BooleanObject(b) => BooleanOf(b)
    case StringObject(s) => StringOf(s)
    case ArrayObject(elements) => ArrayOf(AllStoredAs(elements, shared))
    case ErrorObject(kind) => ErrorOf(kind)
    case BuiltinObject(f) => BuiltinOf(f)
  }

  ghost function AllStoredAs(os: seq<HeapObject>, shared: set<BigInt>): (r: seq<Stored>)
    reads AllCells(os) - shared
    ensures |r| == |os|
    decreases os, 0
  {
    if os == [] then [] else [StoredAs(os[0], shared)] + AllStoredAs(os[1..], shared)
  }

  ghost function StoredOutcome(r: Outcome<HeapObject>, shared: set<BigInt>): Outcome<Stored>
    reads if r.Value? then Cells(r.value) - shared else {}
  {
    match r
    case Value(o) => Value(StoredAs(o, shared))
    case Abort(why) => Abort(why)
  }

  lemma {:induction false} StoredIsRead(o: HeapObject, env: HeapEnvironment)
    ensures Read(StoredAs(o, EnvironmentCells(env)), Snapshot(env)) == View(o)
    decreases o, 1
  {
    if o.ArrayObject? {
      AllStoredIsRead(o.elements, env);
    }
  }

  lemma {:induction false} AllStoredIsRead(os: seq<HeapObject>, env: HeapEnvironment)
    ensures ReadAll(AllStoredAs(os, EnvironmentCells(env)), Snapshot(env)) == ViewAll(os)
    decreases os, 0
  {
    hide Read, StoredAs, View, Snapshot, EnvironmentCells;
    if os != [] {
      StoredIsRead(os[0], env);
      AllStoredIsRead(os[1..], env);
    }
  }

  lemma {:induction false} BorrowedIsStored(o: HeapObject, shared: set<BigInt>)
    requires Cells(o) <= shared
    ensures StoredAs(o, shared) == Borrowed(o)
    decreases o, 1
  {
    if o.ArrayObject? {
      AllBorrowedIsStored(o.elements, shared);
    }
  }

  lemma {:induction false} AllBorrowedIsStored(os: seq<HeapObject>, shared: set<BigInt>)
    requires AllCells(os) <= shared
    ensures AllStoredAs(os, shared) == AllBorrowed(os)
    decreases os, 0
  {
    hide StoredAs, Borrowed, Cells;
    if os != [] {
      BorrowedIsStored(os[0], shared);
      AllBorrowedIsStored(os[1..], shared);
    }
  }

  lemma NewIsStored(o: HeapObject, shared: set<BigInt>)
    requires !o.ArrayObject? && (o.IntegerObject? ==> o.n !in shared)
    ensures StoredAs(o, shared) == New(View(o))
  {}

  lemma {:induction false} AllStoredPush(os: seq<HeapObject>, o: HeapObject, shared: set<BigInt>)
    ensures AllStoredAs(os + [o], shared) == AllStoredAs(os, shared) + [StoredAs(o, shared)]
  {
    hide StoredAs, Cells;
    if os == [] {
      assert os + [o] == [o] && [o][1..] == [];
    } else {
      assert (os + [o])[1..] == os[1..] + [o];
      AllStoredPush(os[1..], o, shared);
    }
  }

  lemma {:induction false} AllStoredAt(os: seq<HeapObject>, shared: set<BigInt>, i: nat)
    requires i < |os|
    ensures AllStoredAs(os, shared)[i] == StoredAs(os[i], shared)
  {
    hide StoredAs, Cells;
    if i > 0 {
      AllStoredAt(os[1..], shared, i - 1);
    }
  }

  // ----- Evaluation -----

  /** Evaluation gives what the store-passing evaluator says, for every program in every
      environment, and leaves in the environment's integers what it says; no other object that
      was there before is modified. */
  method Evaluate(e: Expression, env: HeapEnvironment) returns (r: Outcome<HeapObject>)
    modifies EnvironmentCells(env)
    ensures StoredOutcome(r, EnvironmentCells(env)) == Evaluated(e, env, old(Snapshot(env))).outcome
    ensures Snapshot(env) == Evaluated(e, env, old(Snapshot(env))).memory
    ensures r.Value? ==> Owned(r.value, env)
    decreases e, 1
  {
    hide EvalPrefix, AllEvaluated, AllStoredAs, AllCells, EnvironmentCells, Snapshot, ResolveStored, Read, View;
    EnvironmentCellsExist(env);
    match e
    case NilExpr =>
      return Abort(NilDereference);
    case Unset =>
      return Value(ErrorObject(UnknownExpression));
    case IntegerLiteral(_, value) =>
      match Decimal.SetString(value) {
        case Some(n) =>
          var cell := new BigInt(n);
          return Value(IntegerObject(cell));
        case None =>
          return Value(ErrorObject(BadInteger));
      }
    case BooleanLiteral(_, truth) =>
      return Value(BooleanObject(truth));
    case StringLiteral(_, value) =>
      return Value(StringObject(value));
    case ArrayLiteral(_, elements) =>
      var objects := EvaluateAll(elements, env);
      match objects {
        case Value(os) => return Value(ArrayObject(os));
        case Abort(why) => return Abort(why);
      }
    case Ident(ident) =>
      var o := ResolveIn(ident.value, env);
      BorrowedIsStored(o, EnvironmentCells(env));
      return Value(o);
    case PrefixExpression(_, _, _) =>
      r := EvaluatePrefix(e, env);
    case InfixExpression(_, _, _, _) =>
      r := EvaluateInfix(e, env);
    case CallExpression(_, _, _) =>
      r := EvaluateCall(e, env);
  }

  method EvaluatePrefix(e: Expression, env: HeapEnvironment) returns (r: Outcome<HeapObject>)
    requires e.PrefixExpression?
    modifies EnvironmentCells(env)
    ensures StoredOutcome(r, EnvironmentCells(env)) == Evaluated(e, env, old(Snapshot(env))).outcome
    ensures Snapshot(env) == Evaluated(e, env, old(Snapshot(env))).memory
    ensures r.Value? ==> Owned(r.value, env)
    decreases e, 0
  {
    hide EvalPrefix, EnvironmentCells, Snapshot, Read, View, New, StoredAs;
    EnvironmentCellsExist(env);
    var operand := Evaluate(e.right, env);
    match operand
    case Abort(why) => return Abort(why);
    case Value(o) =>
      CellsExist(o);
      StoredIsRead(o, env);
      var negated := Negate(e.operator, o);
      NewIsStored(negated, EnvironmentCells(env));
      return Value(negated);
  }

  method EvaluateInfix(e: Expression, env: HeapEnvironment) returns (r: Outcome<HeapObject>)
    requires e.InfixExpression?
    modifies EnvironmentCells(env)
    ensures StoredOutcome(r, EnvironmentCells(env)) == Evaluated(e, env, old(Snapshot(env))).outcome
    ensures Snapshot(env) == Evaluated(e, env, old(Snapshot(env))).memory
    ensures r.Value? ==> Owned(r.value, env)
    decreases e, 0
  {
    hide EvalInfix, EnvironmentCells, Snapshot, Read, View, New;
    EnvironmentCellsExist(env);
    var left := Evaluate(e.left, env);
    match left
    case Abort(why) => return Abort(why);
    case Value(l) =>
      if l.ErrorObject? {
        return Value(l);
      }
      CellsExist(l);
      var right := Evaluate(e.right, env);
      match right
      case Abort(why) => return Abort(why);
      case Value(o) =>
        if o.ErrorObject? {
          return Value(o);
        }
        CellsExist(o);
        StoredIsRead(l, env);
        StoredIsRead(o, env);
        r := Combine(l, e.operator, o);
        if r.Value? {
          NewIsStored(r.value, EnvironmentCells(env));
        }
  }

  method EvaluateCall(e: Expression, env: HeapEnvironment) returns (r: Outcome<HeapObject>)
    requires e.CallExpression?
    modifies EnvironmentCells(env)
    ensures StoredOutcome(r, EnvironmentCells(env)) == Evaluated(e, env, old(Snapshot(env))).outcome
    ensures Snapshot(env) == Evaluated(e, env, old(Snapshot(env))).memory
    ensures r.Value? ==> r.value.BooleanObject? || r.value.ErrorObject?
    decreases e, 0
  {
    hide ApplyFunction, EnvironmentCells, Snapshot, Read, ReadAll, View, ViewAll, AllCells, ResolveStored, AllEvaluated,
      Applied, AllStoredAs;
    EnvironmentCellsExist(env);
    if e.callee.None? {
      return Abort(NilDereference);
    }
    var f := ResolveIn(e.callee.value.value, env);
    BorrowedIsStored(f, EnvironmentCells(env));
    var args := EvaluateAll(e.arguments, env);
    match args
    case Abort(why) => return Abort(why);
    case Value(os) =>
      if |os| > 0 {
        ViewAllAt(os, 0);
      }
      r := ApplyIn(f, os, env);
  }

  /** Applying a function to objects of the environment and new ones. */
  method ApplyIn(f: HeapObject, os: seq<HeapObject>, env: HeapEnvironment) returns (r: Outcome<HeapObject>)
    modifies EnvironmentCells(env), if CountsDownOn(f, os) then {os[0].n} else {}
    ensures var shared := EnvironmentCells(env);
            var applied := old(Applied(StoredAs(f, shared), AllStoredAs(os, shared), Snapshot(env)));
            StoredOutcome(r, EnvironmentCells(env)) == applied.outcome && Snapshot(env) == applied.memory
    ensures r.Value? ==> r.value.BooleanObject? || r.value.ErrorObject?
  {
    StoredIsRead(f, env);
    AllStoredIsRead(os, env);
    if |os| == 2 {
      AllStoredAt(os, EnvironmentCells(env), 0);
      AllStoredAt(os, EnvironmentCells(env), 1);
    }
    if CountsDownOn(f, os) {
      AllStoredIsRead(os[1].elements, env);
    }
    hide ApplyFunction, EnvironmentCells, Read, ReadAll, View, ViewAll, AllCells, AllStoredAs, New;
    ghost var before := Snapshot(env);
    ghost var left := if CountsDownOn(f, os) then Remaining(os[0].n.value, ViewAll(os[1].elements)) else 0;
    EnvironmentCellsExist(env);
    r := Apply(f, os);
    assert Snapshot(env) == if CountsDownOn(f, os) && os[0].n in before then before[os[0].n := left] else before;
    if r.Value? {
      NewIsStored(r.value, EnvironmentCells(env));
    }
  }

  method EvaluateAll(es: seq<Expression>, env: HeapEnvironment) returns (r: Outcome<seq<HeapObject>>)
    modifies EnvironmentCells(env)
    ensures Snapshot(env) == AllEvaluated(es, env, old(Snapshot(env))).memory
    ensures match r
            case Value(os) =>
              Value(AllStoredAs(os, EnvironmentCells(env))) == AllEvaluated(es, env, old(Snapshot(env))).outcome
            case Abort(why) => AllEvaluated(es, env, old(Snapshot(env))).outcome == Abort(why)
    ensures r.Value? ==> |r.value| == |es| && AllOwned(r.value, env)
    decreases es, 0
  {
    hide Evaluated, AllEvaluated, StoredAs, AllStoredAs, Cells, AllCells, EnvironmentCells, Snapshot;
    EnvironmentCellsExist(env);
    ghost var before, shared := Snapshot(env), EnvironmentCells(env);
    var os: seq<HeapObject> := [];
    NothingYet(es, env, before);
    for i := 0 to |es|
      invariant |os| == i && AllOwned(os, env)
      invariant forall c | c in AllCells(os) :: allocated(c)
      invariant AllEvaluated(es, env, before) == Prepend(AllStoredAs(os, shared), AllEvaluated(es[i..], env, Snapshot(env)))
    {
      OneMore(es, i, AllStoredAs(os, shared), env, Snapshot(env));
      var element := Evaluate(es[i], env);
      match element
      case Abort(why) => return Abort(why);
      case Value(o) =>
        ViewAllPush(os, o);
        AllStoredPush(os, o, shared);
        CellsExist(o);
        os := os + [o];
    }
    NothingLeft(es, AllStoredAs(os, shared), env, Snapshot(env));
    return Value(os);
  }

  /** The run of a list whose first elements have been evaluated. */
  ghost function Prepend(done: seq<Stored>, rest: Run<seq<Stored>>): Run<seq<Stored>> {
    Run(match rest.outcome case Value(os) => Value(done + os) case Abort(why) => Abort(why), rest.memory)
  }

  lemma NothingYet(es: seq<Expression>, env: HeapEnvironment, memory: Memory)
    ensures AllEvaluated(es, env, memory)
         == Prepend(AllStoredAs([], EnvironmentCells(env)), AllEvaluated(es[0..], env, memory))
    ensures AllCells([]) == {}
  {
    hide AllEvaluated;
    assert es[0..] == es;
    var r := AllEvaluated(es, env, memory);
    assert r.outcome.Value? ==> [] + r.outcome.value == r.outcome.value;
  }

  lemma OneMore(es: seq<Expression>, i: nat, done: seq<Stored>, env: HeapEnvironment, memory: Memory)
    requires i < |es|
    ensures var first := Evaluated(es[i], env, memory);
            Prepend(done, AllEvaluated(es[i..], env, memory)) ==
              match first.outcome
              case Value(o) => Prepend(done + [o], AllEvaluated(es[i + 1..], env, first.memory))
              case Abort(why) => Run(Abort(why), first.memory)
  {
    hide Evaluated;
    assert es[i..][0] == es[i] && es[i..][1..] == es[i + 1..];
    var first := Evaluated(es[i], env, memory);
    var rest := AllEvaluated(es[i + 1..], env, first.memory);
    if first.outcome.Value? && rest.outcome.Value? {
      Associate(done, [first.outcome.value], rest.outcome.value);
    }
  }

  lemma NothingLeft(es: seq<Expression>, done: seq<Stored>, env: HeapEnvironment, memory: Memory)
    ensures Prepend(done, AllEvaluated(es[|es|..], env, memory)) == Run(Value(done), memory)
  {
    assert es[|es|..] == [];
    AppendNothing(done);
  }

  /** In-place evaluation refines evaluation on values: if no call of `any` has a bare identifier
      as its threshold, and the environment has no functions, then the result has the value the
      pure evaluator gives, and every integer of the environment is what it was. */
  method EvaluateSafely(e: Expression, env: HeapEnvironment) returns (r: Outcome<HeapObject>)
    requires SafeThresholds(e) && NoFunctions(env)
    modifies EnvironmentCells(env)
    ensures ViewOutcome(r) == Eval(e, old(ViewEnvironment(env)))
    ensures Snapshot(env) == old(Snapshot(env))
  {
    SafeEvaluation(e, env, Snapshot(env));
    EnvironmentIsRead(env);
    hide Eval, Evaluated, EnvironmentCells, ViewEnvironment, ValuesOf;
    r := Evaluate(e, env);
    if r.Value? {
      StoredIsRead(r.value, env);
    }
  }

  lemma EnvironmentIsRead(env: HeapEnvironment)
    ensures ValuesOf(env, Snapshot(env)) == ViewEnvironment(env)
  {
    if env.Store? {
      forall name | name in env.store
        ensures Read(Borrowed(env.store[name]), Snapshot(env)) == View(env.store[name])
      {
        BorrowedIsStored(env.store[name], EnvironmentCells(env));
        StoredIsRead(env.store[name], env);
      }
      assert (map name | name in env.store :: Read(Borrowed(env.store[name]), Snapshot(env)))
          == (map name | name in env.store :: View(env.store[name]));
    }
  }
}
