/** Evaluation with sharing, on values: the memory of the environment's integers is passed along,
    and `any` counts down in it. It says what every program evaluates to and leaves behind. */
module StoreEvaluation {
  import opened Wrappers
  import opened Ast
  import opened Evaluation
  import opened HeapObjects
  import Decimal

  type Memory = map<BigInt, int>

  /** An object whose integers are numbers of its own, or cells of the environment. */
  datatype Stored =
    | IntegerOf(n: int)
    | IntegerIn(cell: BigInt)
    | BooleanOf(b: bool)
    | StringOf(s: string)
    | ArrayOf(elements: seq<Stored>)
    | ErrorOf(kind: ErrorKind)
    | BuiltinOf(f: Function)

  /** The value of an object, with the cells as they are in `memory`. */
  ghost function Read(o: Stored, memory: Memory): Object
    decreases o, 1
  {
    match o
    case IntegerOf(n) => Integer(n)
    case IntegerIn(cell) => Integer(if cell in memory then memory[cell] else 0)
    case BooleanOf(b) => Boolean(b)
    case StringOf(s) => String(s)
    case ArrayOf(elements) => Array(ReadAll(elements, memory))
    case ErrorOf(kind) => Error(kind)
    case BuiltinOf(f) => Builtin(f)
  }

  ghost function ReadAll(os: seq<Stored>, memory: Memory): (r: seq<Object>)
    ensures |r| == |os|
    decreases os, 0
  {
    if os == [] then [] else [Read(os[0], memory)] + ReadAll(os[1..], memory)
  }

  /** A new object with this value. */
  ghost function New(o: Object): Stored
    decreases o, 1
  {
    match o
    case Integer(n) => IntegerOf(n)
    case Boolean(b) => BooleanOf(b)
    case String(s) => StringOf(s)
    case Array(elements) => ArrayOf(NewAll(elements))
    case Error(kind) => ErrorOf(kind)
    case Builtin(f) => BuiltinOf(f)
  }

  ghost function NewAll(os: seq<Object>): (r: seq<Stored>)
    ensures |r| == |os|
    decreases os, 0
  {
    if os == [] then [] else [New(os[0])] + NewAll(os[1..])
  }

  ghost function NewOutcome(r: Outcome<Object>): Outcome<Stored> {
    match r
    case Value(o) => Value(New(o))
    case Abort(why) => Abort(why)
  }

  /** The object that the environment itself holds. */
  ghost function Borrowed(o: HeapObject): Stored
    decreases o, 1
  {
    match o
    case IntegerObject(cell) => IntegerIn(cell)
    case BooleanObject(b) => BooleanOf(b)
    case StringObject(s) => StringOf(s)
    case ArrayObject(elements) => ArrayOf(AllBorrowed(elements))
    case ErrorObject(kind) => ErrorOf(kind)
    case BuiltinObject(f) => BuiltinOf(f)
  }

  ghost function AllBorrowed(os: seq<HeapObject>): (r: seq<Stored>)
    ensures |r| == |os|
    decreases os, 0
  {
    if os == [] then [] else [Borrowed(os[0])] + AllBorrowed(os[1..])
  }

  ghost function ResolveStored(name: string, env: HeapEnvironment): Stored {
    match Lookup(name)
    case Some(f) => BuiltinOf(f)
    case None =>
      if env.NoStore? then ErrorOf(NoEnvironment)
      else if name in env.store then Borrowed(env.store[name])
      else ErrorOf(NotFound)
  }

  /** What an evaluation gives, and the memory it leaves. */
  datatype Run<T> = Run(outcome: Outcome<T>, memory: Memory)

  ghost function Evaluated(e: Expression, env: HeapEnvironment, memory: Memory): Run<Stored>
    decreases e, 1
  {
    match e
    case NilExpr => Run(Abort(NilDereference), memory)
    case Unset => Run(Value(ErrorOf(UnknownExpression)), memory)
    case IntegerLiteral(_, value) =>
      Run(Value(match Decimal.SetString(value) case Some(n) => IntegerOf(n) case None => ErrorOf(BadInteger)), memory)
    case BooleanLiteral(_, truth) => Run(Value(BooleanOf(truth)), memory)
    case StringLiteral(_, value) => Run(Value(StringOf(value)), memory)
    case Ident(ident) => Run(Value(ResolveStored(ident.value, env)), memory)
    case ArrayLiteral(_, elements) =>
      var r := AllEvaluated(elements, env, memory);
      (match r.outcome
       case Abort(why) => Run(Abort(why), r.memory)
       case Value(os) => Run(Value(ArrayOf(os)), r.memory))
    case PrefixExpression(_, operator, right) =>
      var r := Evaluated(right, env, memory);
      (match r.outcome
       case Abort(why) => r
       case Value(o) => Run(Value(New(EvalPrefix(operator, Read(o, r.memory)))), r.memory))
    case InfixExpression(_, left, operator, right) =>
      var l := Evaluated(left, env, memory);
      if l.outcome.Abort? || l.outcome.value.ErrorOf? then l
      else
        var r := Evaluated(right, env, l.memory);
        if r.outcome.Abort? || r.outcome.value.ErrorOf? then r
        else Run(NewOutcome(EvalInfix(Read(l.outcome.value, r.memory), operator, Read(r.outcome.value, r.memory))),
                 r.memory)
    case CallExpression(_, callee, arguments) =>
      if callee.None? then Run(Abort(NilDereference), memory)
      else
        var args := AllEvaluated(arguments, env, memory);
        match args.outcome
        case Abort(why) => Run(Abort(why), args.memory)
        case Value(os) => Applied(ResolveStored(callee.value.value, env), os, args.memory)
  }

  ghost function AllEvaluated(es: seq<Expression>, env: HeapEnvironment, memory: Memory): (r: Run<seq<Stored>>)
    ensures r.outcome.Value? ==> |r.outcome.value| == |es|
    decreases es, 0
  {
    if es == [] then Run(Value([]), memory)
    else
      var first := Evaluated(es[0], env, memory);
      match first.outcome
      case Abort(why) => Run(Abort(why), first.memory)
      case Value(o) =>
        var rest := AllEvaluated(es[1..], env, first.memory);
        match rest.outcome
        case Abort(why) => Run(Abort(why), rest.memory)
        case Value(os) => Run(Value([o] + os), rest.memory)
  }

  /** `any` on a cell of the environment leaves there what remains of the threshold. */
  ghost function Applied(f: Stored, args: seq<Stored>, memory: Memory): Run<Stored> {
    Run(NewOutcome(ApplyFunction(Read(f, memory), ReadAll(args, memory))),
        if CountsDown(f, args, memory)
        then memory[args[0].cell := Remaining(memory[args[0].cell], ReadAll(args[1].elements, memory))]
        else memory)
  }

  ghost predicate CountsDown(f: Stored, args: seq<Stored>, memory: Memory) {
    f == BuiltinOf(Any) && |args| == 2 && args[0].IntegerIn? && args[0].cell in memory && args[1].ArrayOf?
  }

  /** What `any` leaves of its threshold. */
  function Remaining(threshold: int, xs: seq<Object>): int
    decreases |xs|
  {
    if xs == [] || !xs[0].Boolean? then threshold
    else if Below(threshold, xs[0].b) == 0 then 0
    else Remaining(Below(threshold, xs[0].b), xs[1..])
  }

  /** `any` leaves its threshold alone exactly if it sees no approval. */
  lemma {:induction false} RemainingExactly(threshold: int, xs: seq<Object>)
    ensures Remaining(threshold, xs) <= threshold
    ensures Remaining(threshold, xs) == threshold <==>
              forall i | 0 <= i < |xs| && xs[i] == Boolean(true) ::
                (threshold == 0 && 0 < i && xs[0].Boolean?) || exists j | 0 <= j < i :: !xs[j].Boolean?
    decreases |xs|
  {
    if xs == [] || !xs[0].Boolean? {
    } else if xs[0].b {
      assert xs[0] == Boolean(true);
      if Below(threshold, true) != 0 {
        RemainingExactly(threshold - 1, xs[1..]);
      }
    } else if threshold != 0 {
      RemainingExactly(threshold, xs[1..]);
      assert forall i | 0 <= i < |xs[1..]| :: xs[1..][i] == xs[i + 1];
      assert forall i | 0 < i < |xs| :: xs[i] == xs[1..][i - 1];
    }
  }

  // ----- Programs that share no threshold -----

  /** No call of `any` has a bare identifier as its threshold. */
  predicate SafeThresholds(e: Expression)
    decreases e, 0
  {
    match e
    case ArrayLiteral(_, elements) => AllSafe(elements)
    case CallExpression(_, callee, arguments) =>
      (callee.Some? && callee.value.value == "any" && |arguments| == 2 ==> !arguments[0].Ident?) && AllSafe(arguments)
    case InfixExpression(_, left, _, right) => SafeThresholds(left) && SafeThresholds(right)
    case PrefixExpression(_, _, right) => SafeThresholds(right)
    case _ => true
  }

  predicate AllSafe(es: seq<Expression>) { forall i | 0 <= i < |es| :: SafeThresholds(es[i]) }

  /** The environment as it is in `memory`, with values for objects. */
  ghost function ValuesOf(env: HeapEnvironment, memory: Memory): Environment {
    if env.NoStore? then NilEnvironment
    else FromStore(map name | name in env.store :: Read(Borrowed(env.store[name]), memory))
  }

  ghost function ReadOutcome(r: Outcome<Stored>, memory: Memory): Outcome<Object> {
    match r
    case Value(o) => Value(Read(o, memory))
    case Abort(why) => Abort(why)
  }

  lemma {:induction false} ReadNew(o: Object, memory: Memory)
    ensures Read(New(o), memory) == o
    decreases o, 1
  {
    if o.Array? {
      ReadAllNew(o.elements, memory);
    }
  }

  lemma {:induction false} ReadAllNew(os: seq<Object>, memory: Memory)
    ensures ReadAll(NewAll(os), memory) == os
    decreases os, 0
  {
    hide New, Read;
    if os != [] {
      ReadNew(os[0], memory);
      ReadAllNew(os[1..], memory);
    }
  }

  lemma {:induction false} ReadAllAt(os: seq<Stored>, memory: Memory, i: nat)
    requires i < |os|
    ensures ReadAll(os, memory)[i] == Read(os[i], memory)
  {
    hide Read;
    if i > 0 {
      ReadAllAt(os[1..], memory, i - 1);
    }
  }

  /** Such programs, in environments without functions, evaluate as if integers were numbers, and
      leave the memory as it was; their own integers are new. */
  lemma {:induction false} SafeEvaluation(e: Expression, env: HeapEnvironment, memory: Memory)
    requires SafeThresholds(e) && NoFunctions(env)
    ensures var r := Evaluated(e, env, memory);
            && r.memory == memory && ReadOutcome(r.outcome, memory) == Eval(e, ValuesOf(env, memory))
            && (r.outcome.Value? && !e.Ident? ==> !r.outcome.value.IntegerIn?)
    decreases e, 1
  {
    hide EvalPrefix, EvalInfix, Applied, ApplyFunction;
    match e
    case Ident(ident) => SafeName(ident.value, env, memory);
    case ArrayLiteral(_, elements) => AllSafeEvaluation(elements, env, memory);
    case PrefixExpression(_, operator, right) => SafePrefix(e, env, memory);
    case InfixExpression(_, _, _, _) => SafeInfix(e, env, memory);
    case CallExpression(_, _, _) => SafeCall(e, env, memory);
    case _ =>
  }

  lemma SafeName(name: string, env: HeapEnvironment, memory: Memory)
    ensures Value(Read(ResolveStored(name, env), memory)) == Resolve(name, ValuesOf(env, memory))
    ensures NoFunctions(env) && ResolveStored(name, env).BuiltinOf? ==>
              Lookup(name) == Some(ResolveStored(name, env).f)
  {}

  lemma {:induction false} SafePrefix(e: Expression, env: HeapEnvironment, memory: Memory)
    requires e.PrefixExpression? && SafeThresholds(e) && NoFunctions(env)
    ensures var r := Evaluated(e, env, memory);
            && r.memory == memory && ReadOutcome(r.outcome, memory) == Eval(e, ValuesOf(env, memory))
            && (r.outcome.Value? ==> !r.outcome.value.IntegerIn?)
    decreases e, 0
  {
    hide EvalPrefix, Read, ValuesOf;
    SafeEvaluation(e.right, env, memory);
    var r := Evaluated(e.right, env, memory).outcome;
    if r.Value? {
      ReadNew(EvalPrefix(e.operator, Read(r.value, memory)), memory);
    }
  }

  lemma {:induction false} SafeInfix(e: Expression, env: HeapEnvironment, memory: Memory)
    requires e.InfixExpression? && SafeThresholds(e) && NoFunctions(env)
    ensures var r := Evaluated(e, env, memory);
            && r.memory == memory && ReadOutcome(r.outcome, memory) == Eval(e, ValuesOf(env, memory))
            && (r.outcome.Value? ==> !r.outcome.value.IntegerIn?)
    decreases e, 0
  {
    hide EvalInfix, ValuesOf;
    SafeEvaluation(e.left, env, memory);
    SafeEvaluation(e.right, env, memory);
    var l, r := Evaluated(e.left, env, memory).outcome, Evaluated(e.right, env, memory).outcome;
    if l.Value? && r.Value? {
      match EvalInfix(Read(l.value, memory), e.operator, Read(r.value, memory))
      case Value(o) => ReadNew(o, memory);
      case Abort(_) =>
    }
  }

  lemma {:induction false} SafeCall(e: Expression, env: HeapEnvironment, memory: Memory)
    requires e.CallExpression? && SafeThresholds(e) && NoFunctions(env)
    ensures var r := Evaluated(e, env, memory);
            && r.memory == memory && ReadOutcome(r.outcome, memory) == Eval(e, ValuesOf(env, memory))
            && (r.outcome.Value? ==> !r.outcome.value.IntegerIn?)
    decreases e, 0
  {
    hide ApplyFunction, ValuesOf, Resolve, ResolveStored, Read, ReadAll;
    AllSafeEvaluation(e.arguments, env, memory);
    if e.callee.Some? {
      var name := e.callee.value.value;
      SafeName(name, env, memory);
      ReadBuiltin(ResolveStored(name, env), memory);
      var args := AllEvaluated(e.arguments, env, memory).outcome;
      if args.Value? {
        NotCountedDown(name, ResolveStored(name, env), args.value, memory);
        NewOfOutcome(ApplyFunction(Read(ResolveStored(name, env), memory), ReadAll(args.value, memory)), memory);
      }
    }
  }

  lemma ReadBuiltin(o: Stored, memory: Memory)
    ensures Read(o, memory).Builtin? <==> o.BuiltinOf?
  {}

  lemma NewOfOutcome(r: Outcome<Object>, memory: Memory)
    ensures ReadOutcome(NewOutcome(r), memory) == r
    ensures NewOutcome(r).Value? ==> !NewOutcome(r).value.IntegerIn?
  {
    if r.Value? {
      ReadNew(r.value, memory);
    }
  }

  lemma NotCountedDown(name: string, f: Stored, args: seq<Stored>, memory: Memory)
    requires f.BuiltinOf? ==> Lookup(name) == Some(f.f)
    requires name == "any" && |args| == 2 ==> !args[0].IntegerIn?
    ensures !CountsDown(f, args, memory)
  {}

  ghost predicate AgreesOnAll(es: seq<Expression>, r: Outcome<seq<Stored>>, env: HeapEnvironment, memory: Memory) {
    match r
    case Value(os) =>
      && EvalAll(es, ValuesOf(env, memory)) == Value(ReadAll(os, memory))
      && |os| == |es| && (forall i | 0 <= i < |es| && !es[i].Ident? :: !os[i].IntegerIn?)
    case Abort(why) => EvalAll(es, ValuesOf(env, memory)) == Abort(why)
  }

  lemma {:induction false} AllSafeEvaluation(es: seq<Expression>, env: HeapEnvironment, memory: Memory)
    requires AllSafe(es) && NoFunctions(env)
    ensures AllEvaluated(es, env, memory).memory == memory
    ensures AgreesOnAll(es, AllEvaluated(es, env, memory).outcome, env, memory)
    decreases es, 0
  {
    hide Evaluated, Eval, Read, ValuesOf;
    if es != [] {
      SafeEvaluation(es[0], env, memory);
      AllSafeEvaluation(es[1..], env, memory);
      assert forall i | 0 < i < |es| :: es[i] == es[1..][i - 1];
    }
  }
}
