/** The evaluator on values: integers are numbers, not objects that can change. */
module Evaluation {
  import opened Wrappers
  import opened Ast
  import Decimal

  datatype Function = Any | All | Contains

  /** What went wrong, without the wording. */
  datatype ErrorKind =
    | BadInteger
    | NoEnvironment
    | NotFound
    | UnknownExpression
    | UnknownOperator
    | NotAFunction
    | WrongArgumentCount
    | NotABoolean
    | BadItem
    | NotAnArray
    | BadNumber

  datatype Object =
    | Integer(n: int)
    | Boolean(b: bool)
    | String(s: string)
    | Array(elements: seq<Object>)
    | Error(kind: ErrorKind)
    | Builtin(f: Function)

  datatype AbortKind = NilDereference | DivisionByZero | TypeAssertion | EnvironmentFailure

  /** An object, errors included, or a Go panic. */
  datatype Outcome<+T> = Value(value: T) | Abort(why: AbortKind) {
    predicate IsFailure() { Abort? }

    function PropagateFailure<U>(): Outcome<U>
      requires Abort?
    {
      Abort(why)
    }

    function Extract(): T
      requires Value?
    {
      value
    }
  }

  /** `env.Environment` is an interface: asked for a name it answers with an object, answers that
      it has none, or panics. */
  datatype Environment = NilEnvironment | Environment(get: string -> Outcome<Option<Object>>)

  /** `object.Environment`, the environment kept in a map. */
  function FromStore(store: map<string, Object>): Environment {
    Environment(name => Value(if name in store then Some(store[name]) else None))
  }

  function Lookup(name: string): Option<Function> {
    if name == "any" then Some(Any)
    else if name == "all" then Some(All)
    else if name == "contains" then Some(Contains)
    else None
  }

  /** What an identifier stands for: builtins shadow the environment. */
  function Resolve(name: string, env: Environment): Outcome<Object> {
    match Lookup(name)
    case Some(f) => Value(Builtin(f))
    case None =>
      if env.NilEnvironment? then Value(Error(NoEnvironment))
      else
        var answer :- env.get(name);
        match answer
        case Some(found) => Value(found)
        case None => Value(Error(NotFound))
  }

  function Eval(e: Expression, env: Environment): Outcome<Object>
    decreases e, 1
  {
    match e
    case NilExpr => Abort(NilDereference)
    case Unset => Value(Error(UnknownExpression))
    case IntegerLiteral(_, value) =>
      Value(match Decimal.SetString(value) case Some(n) => Integer(n) case None => Error(BadInteger))
    case BooleanLiteral(_, truth) => Value(Boolean(truth))
    case StringLiteral(_, value) => Value(String(value))
    case ArrayLiteral(_, elements) =>
      var objects :- EvalAll(elements, env);
      Value(Array(objects))
    case Ident(ident) => Resolve(ident.value, env)
    case InfixExpression(_, left, operator, right) =>
      var l :- Eval(left, env);
      if l.Error? then Value(l)
      else
        var r :- Eval(right, env);
        if r.Error? then Value(r) else EvalInfix(l, operator, r)
    case PrefixExpression(_, operator, right) =>
      var r :- Eval(right, env);
      Value(EvalPrefix(operator, r))
    case CallExpression(_, callee, arguments) =>
      if callee.None? then Abort(NilDereference)
      else
        var f :- Resolve(callee.value.value, env);
        var args :- EvalAll(arguments, env);
        ApplyFunction(f, args)
  }

  /** Array elements and call arguments, from the left. An Error is an object like any other. */
  function EvalAll(es: seq<Expression>, env: Environment): (r: Outcome<seq<Object>>)
    ensures r.Value? ==> |r.value| == |es|
    decreases es, 0
  {
    if es == [] then Value([])
    else
      var first :- Eval(es[0], env);
      var rest :- EvalAll(es[1..], env);
      Value([first] + rest)
  }

  function EvalPrefix(operator: string, right: Object): Object {
    if right.Error? then right
    else if operator != "-" || !right.Integer? then Error(UnknownOperator)
    else Integer(-right.n)
  }

  function EvalInfix(l: Object, operator: string, r: Object): Outcome<Object> {
    if l.Boolean? && r.Boolean? then
      if operator == "||" then Value(Boolean(l.b || r.b))
      else if operator == "&&" then Value(Boolean(l.b && r.b))
      else if operator == "==" then Value(Boolean(l.b == r.b))
      else if operator == "!=" then Value(Boolean(l.b != r.b))
      else Value(Error(UnknownOperator))
    else if l.Integer? && r.Integer? then
      match Compare(operator, l.n - r.n)
      case Some(b) => Value(Boolean(b))
      case None => Arithmetic(l.n, operator, r.n)
    else if l.String? && r.String? then
      if operator == "==" then Value(Boolean(l.s == r.s))
      else if operator == "!=" then Value(Boolean(l.s != r.s))
      else if Compare(operator, 0).None? then Value(Error(UnknownOperator))
      else match (Decimal.SetString(l.s), Decimal.SetString(r.s))
        case (Some(m), Some(n)) => Value(Boolean(Compare(operator, m - n).value))
        case _ => Value(Error(BadNumber))
    else Value(Error(UnknownOperator))
  }

  /** The comparison operators, from the sign of the difference. */
  function Compare(operator: string, difference: int): (r: Option<bool>)
    ensures r.Some? <==> operator in ["==", "!=", ">", "<", ">=", "<="]
  {
    if operator == "==" then Some(difference == 0)
    else if operator == "!=" then Some(difference != 0)
    else if operator == ">" then Some(difference > 0)
    else if operator == "<" then Some(difference < 0)
    else if operator == ">=" then Some(difference >= 0)
    else if operator == "<=" then Some(difference <= 0)
    else None
  }

  /** `big.Int.Div` is the Euclidean division that `/` is here; it panics on zero. */
  function Arithmetic(m: int, operator: string, n: int): Outcome<Object> {
    if operator == "+" then Value(Integer(m + n))
    else if operator == "-" then Value(Integer(m - n))
    else if operator == "*" then Value(Integer(m * n))
    else if operator == "/" then if n == 0 then Abort(DivisionByZero) else Value(Integer(m / n))
    else Value(Error(UnknownOperator))
  }

  function ApplyFunction(f: Object, args: seq<Object>): Outcome<Object> {
    if !f.Builtin? then Value(Error(NotAFunction))
    else match f.f
      case Any => ApplyAny(args)
      case All => ApplyAll(args)
      case Contains => Value(ApplyContains(args))
  }

  function ApplyAny(args: seq<Object>): Outcome<Object> {
    if |args| != 2 then Value(Error(WrongArgumentCount))
    else if !args[0].Integer? || !args[1].Array? then Abort(TypeAssertion)
    else Value(AnyOf(args[0].n, args[1].elements))
  }

  /** The loop of `any`: count down at each true element, and stop at zero. */
  function AnyOf(threshold: int, xs: seq<Object>): Object
    decreases |xs|
  {
    if xs == [] then Boolean(false)
    else if !xs[0].Boolean? then Error(NotABoolean)
    else if Below(threshold, xs[0].b) == 0 then Boolean(true)
    else AnyOf(Below(threshold, xs[0].b), xs[1..])
  }

  function Below(threshold: int, b: bool): int { if b then threshold - 1 else threshold }

  function ApplyAll(args: seq<Object>): Outcome<Object> {
    if |args| != 1 then Value(Error(WrongArgumentCount))
    else if !args[0].Array? then Abort(TypeAssertion)
    else Value(AllOf(args[0].elements))
  }

  function AllOf(xs: seq<Object>): Object {
    if xs == [] then Boolean(true)
    else if !xs[0].Boolean? then Error(NotABoolean)
    else if !xs[0].b then Boolean(false)
    else AllOf(xs[1..])
  }

  function ApplyContains(args: seq<Object>): Object {
    if |args| != 2 then Error(WrongArgumentCount)
    else if !args[0].Integer? && !args[0].Boolean? && !args[0].String? then Error(BadItem)
    else if !args[1].Array? then Error(NotAnArray)
    else Boolean(exists i | 0 <= i < |args[1].elements| :: SameScalar(args[0], args[1].elements[i]))
  }

  /** `compare`: equal objects of one scalar type. */
  predicate SameScalar(a: Object, b: Object) {
    match (a, b)
    case (Integer(m), Integer(n)) => m == n
    case (Boolean(m), Boolean(n)) => m == n
    case (String(m), String(n)) => m == n
    case _ => false
  }

  /** Integers compare as numbers. */
  lemma IntegersCompare(m: int, n: int)
    ensures EvalInfix(Integer(m), ">", Integer(n)) == Value(Boolean(m > n))
    ensures EvalInfix(Integer(m), "<", Integer(n)) == Value(Boolean(m < n))
    ensures EvalInfix(Integer(m), ">=", Integer(n)) == Value(Boolean(m >= n))
    ensures EvalInfix(Integer(m), "<=", Integer(n)) == Value(Boolean(m <= n))
    ensures EvalInfix(Integer(m), "==", Integer(n)) == Value(Boolean(m == n))
    ensures EvalInfix(Integer(m), "!=", Integer(n)) == Value(Boolean(m != n))
  {}

  /** And they are computed with as numbers; for division see `DivisionIsEuclidean`. */
  lemma IntegersCompute(m: int, n: int)
    ensures EvalInfix(Integer(m), "+", Integer(n)) == Value(Integer(m + n))
    ensures EvalInfix(Integer(m), "-", Integer(n)) == Value(Integer(m - n))
    ensures EvalInfix(Integer(m), "*", Integer(n)) == Value(Integer(m * n))
    ensures EvalPrefix("-", Integer(n)) == Integer(-n)
  {}

  /** Strings are ordered as the numbers they spell, if both spell one, but equal only as texts.
      So equality agrees with the order exactly on equal texts and on different numbers: `007` is
      at most and at least `7`, and not equal to it. */
  lemma StringsCompare(a: string, b: string)
    ensures EvalInfix(String(a), "==", String(b)) == Value(Boolean(a == b))
    ensures EvalInfix(String(a), "!=", String(b)) == Value(Boolean(a != b))
    ensures forall operator | operator in [">", "<", ">=", "<="] ::
              EvalInfix(String(a), operator, String(b)) ==
                if Decimal.SetString(a).None? || Decimal.SetString(b).None? then Value(Error(BadNumber))
                else EvalInfix(Integer(Decimal.SetString(a).value), operator, Integer(Decimal.SetString(b).value))
    ensures var (m, n) := (Decimal.SetString(a), Decimal.SetString(b));
            m.Some? && n.Some? ==>
              (EvalInfix(String(a), "==", String(b)) == EvalInfix(Integer(m.value), "==", Integer(n.value))
               <==> a == b || m.value != n.value)
  {
    hide Decimal.SetString;
  }

  /** Each number has one canonical text, and on these equality is that of the numbers. */
  lemma CanonicalTextsCompare(m: int, n: int)
    ensures EvalInfix(String(Decimal.String(m)), "==", String(Decimal.String(n))) == Value(Boolean(m == n))
  {
    Decimal.SetStringOfString(m);
    Decimal.SetStringOfString(n);
    hide Decimal.String, Decimal.SetString;
  }

  lemma LeadingZerosDiffer()
    ensures EvalInfix(String("007"), "==", String("7")) == Value(Boolean(false))
    ensures EvalInfix(String("007"), ">=", String("7")) == Value(Boolean(true))
    ensures EvalInfix(String("007"), "<=", String("7")) == Value(Boolean(true))
  {
    assert Decimal.ValueOf("") == 0 && "007"[..2] == "00" && "00"[..1] == "0" && "0"[..0] == "" && "7"[..0] == "";
    assert Decimal.SetString("007") == Some(7) && Decimal.SetString("7") == Some(7) by {
      Decimal.StringOfSetString("007");
      Decimal.StringOfSetString("7");
      assert Decimal.ValueOf("0") == 0 && Decimal.ValueOf("00") == 0;
    }
  }

  /** Division leaves a remainder that is never negative, whatever the signs. */
  lemma DivisionIsEuclidean(m: int, n: int)
    ensures match EvalInfix(Integer(m), "/", Integer(n))
            case Value(Integer(q)) => n != 0 && 0 <= m - q * n < if n < 0 then -n else n
            case Value(_) => false
            case Abort(why) => n == 0 && why == DivisionByZero
  {
    if n != 0 {
      assert m == m / n * n + m % n;
    }
  }
}
