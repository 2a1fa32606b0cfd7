/** A typing discipline read off the evaluator's operator switch and the builtins, and its soundness. */
module Typing {
  import opened Wrappers
  import opened Ast
  import opened Evaluation
  import Decimal

  datatype Type = Int | Bool | Str | Arr

  /** An approval that cannot be determined is an Error object; no other type has Errors. The
      elements of an array are not constrained: no operation hands one out. */
  predicate HasType(v: Object, t: Type) {
    match t
    case Int => v.Integer?
    case Bool => v.Boolean? || v.Error?
    case Str => v.String?
    case Arr => v.Array?
  }

  predicate IsScalar(t: Type) { t != Arr }

  function InfixType(l: Type, operator: string, r: Type): Option<Type> {
    if l == Bool && r == Bool && operator in ["||", "&&", "==", "!="] then Some(Bool)
    else if l == Int && r == Int && operator in ["==", "!=", ">", "<", ">=", "<="] then Some(Bool)
    else if l == Int && r == Int && operator in ["+", "-", "*", "/"] then Some(Int)
    else if l == Str && r == Str && operator in ["==", "!=", ">", "<", ">=", "<="] then Some(Bool)
    else None
  }

  function TypeOf(e: Expression, context: map<string, Type>): Option<Type>
    decreases e, 1
  {
    match e
    case NilExpr => None
    case Unset => None
    case IntegerLiteral(_, value) => if Decimal.SetString(value).Some? then Some(Int) else None
    case BooleanLiteral(_, _) => Some(Bool)
    case StringLiteral(_, _) => Some(Str)
    case ArrayLiteral(_, elements) => if TypesOf(elements, context).Some? then Some(Arr) else None
    case Ident(ident) =>
      if Lookup(ident.value).None? && ident.value in context then Some(context[ident.value]) else None
    case InfixExpression(_, left, operator, right) =>
      (match (TypeOf(left, context), TypeOf(right, context))
       case (Some(l), Some(r)) => InfixType(l, operator, r)
       case _ => None)
    case PrefixExpression(_, operator, right) =>
      if operator == "-" && TypeOf(right, context) == Some(Int) then Some(Int) else None
    case CallExpression(_, callee, arguments) =>
      if callee.None? then None
      else match (Lookup(callee.value.value), TypesOf(arguments, context))
        case (Some(f), Some(types)) => CallType(f, types)
        case _ => None
  }

  function TypesOf(es: seq<Expression>, context: map<string, Type>): (r: Option<seq<Type>>)
    ensures r.Some? ==> |r.value| == |es|
    decreases es, 0
  {
    if es == [] then Some([])
    else match (TypeOf(es[0], context), TypesOf(es[1..], context))
      case (Some(first), Some(rest)) => Some([first] + rest)
      case _ => None
  }

  function CallType(f: Function, types: seq<Type>): Option<Type> {
    match f
    case Any => if types == [Int, Arr] then Some(Bool) else None
    case All => if types == [Arr] then Some(Bool) else None
    case Contains => if |types| == 2 && IsScalar(types[0]) && types[1] == Arr then Some(Bool) else None
  }

  /** The environment has an object of the right type for every name of the context. */
  ghost predicate Provides(env: Environment, context: map<string, Type>) {
    env.Environment? &&
    forall name | name in context ::
      match env.get(name)
      case Value(Some(v)) => HasType(v, context[name])
      case _ => false
  }

  /** Somewhere in the expression there is a division. */
  predicate Divides(e: Expression)
    decreases e, 0
  {
    match e
    case InfixExpression(_, left, operator, right) => operator == "/" || Divides(left) || Divides(right)
    case PrefixExpression(_, _, right) => Divides(right)
    case ArrayLiteral(_, elements) => AnyDivides(elements)
    case CallExpression(_, _, arguments) => AnyDivides(arguments)
    case _ => false
  }

  predicate AnyDivides(es: seq<Expression>) { exists i | 0 <= i < |es| :: Divides(es[i]) }

  /** Type soundness. A well-typed expression evaluates to an object of its type, which is an Error
      only at type Bool, or panics on a division by zero; the type assertions of `any` and `all`
      never fail, and without a division there is no panic at all. */
  lemma {:induction false} TypedEvaluation(e: Expression, context: map<string, Type>, env: Environment)
    requires TypeOf(e, context).Some? && Provides(env, context)
    ensures match Eval(e, env)
            case Value(v) => HasType(v, TypeOf(e, context).value)
            case Abort(why) => why == DivisionByZero && Divides(e)
    decreases e, 1
  {
    match e
    case IntegerLiteral(_, _) =>
    case BooleanLiteral(_, _) =>
    case StringLiteral(_, _) =>
    case Ident(ident) =>
      assert ident.value in context;
    case ArrayLiteral(_, elements) =>
      TypedEvaluationOfAll(elements, context, env);
    case PrefixExpression(_, _, right) =>
      TypedEvaluation(right, context, env);
    case InfixExpression(_, _, _, _) =>
      TypedInfix(e, context, env);
    case CallExpression(_, _, _) =>
      TypedCall(e, context, env);
  }

  lemma {:induction false} TypedEvaluationOfAll(es: seq<Expression>, context: map<string, Type>, env: Environment)
    requires TypesOf(es, context).Some? && Provides(env, context)
    ensures match EvalAll(es, env)
            case Value(vs) => forall i | 0 <= i < |es| :: HasType(vs[i], TypesOf(es, context).value[i])
            case Abort(why) => why == DivisionByZero && AnyDivides(es)
    decreases es, 0
  {
    hide Eval, TypeOf, HasType, Divides;
    if es != [] {
      TypedEvaluation(es[0], context, env);
      TypedEvaluationOfAll(es[1..], context, env);
      assert forall i | 0 <= i < |es[1..]| :: es[1..][i] == es[i + 1];
    }
  }

  lemma {:induction false} TypedInfix(e: Expression, context: map<string, Type>, env: Environment)
    requires e.InfixExpression? && TypeOf(e, context).Some? && Provides(env, context)
    ensures match Eval(e, env)
            case Value(v) => HasType(v, TypeOf(e, context).value)
            case Abort(why) => why == DivisionByZero && Divides(e)
    decreases e, 0
  {
    hide EvalInfix, InfixType, Provides;
    TypedEvaluation(e.left, context, env);
    TypedEvaluation(e.right, context, env);
    var l, r := TypeOf(e.left, context).value, TypeOf(e.right, context).value;
    assert InfixType(l, e.operator, r).Some?;
    match (Eval(e.left, env), Eval(e.right, env))
    case (Value(x), Value(y)) =>
      ErrorsAreBool(x, l);
      ErrorsAreBool(y, r);
      if !x.Error? && !y.Error? {
        InfixOfTyped(x, l, e.operator, y, r);
      } else {
        InfixOfBool(l, e.operator, r);
      }
    case (Value(x), Abort(_)) =>
      if x.Error? {
        ErrorsAreBool(x, l);
        InfixOfBool(l, e.operator, r);
      }
    case (Abort(_), _) =>
  }

  lemma ErrorsAreBool(v: Object, t: Type)
    requires HasType(v, t)
    ensures v.Error? ==> t == Bool
  {}

  lemma InfixOfBool(l: Type, operator: string, r: Type)
    requires InfixType(l, operator, r).Some?
    ensures l == Bool || r == Bool ==> InfixType(l, operator, r) == Some(Bool)
  {}

  /** The table of operators is exactly the evaluator's switch: on objects other than Errors an
      operator is unknown precisely when the table has no entry for their types, and otherwise
      the result has the tabled type or the divisor is zero. */
  lemma InfixOfTyped(x: Object, l: Type, operator: string, y: Object, r: Type)
    requires HasType(x, l) && HasType(y, r) && !x.Error? && !y.Error?
    ensures EvalInfix(x, operator, y) == Value(Error(UnknownOperator)) <==> InfixType(l, operator, r).None?
    ensures InfixType(l, operator, r).Some? ==>
              match EvalInfix(x, operator, y)
              case Value(v) => HasType(v, InfixType(l, operator, r).value)
              case Abort(why) => why == DivisionByZero && operator == "/" && y == Integer(0)
  {}

  lemma {:induction false} TypedCall(e: Expression, context: map<string, Type>, env: Environment)
    requires e.CallExpression? && TypeOf(e, context).Some? && Provides(env, context)
    ensures match Eval(e, env)
            case Value(v) => HasType(v, TypeOf(e, context).value)
            case Abort(why) => why == DivisionByZero && Divides(e)
    decreases e, 0
  {
    hide EvalAll, TypesOf, HasType, ApplyFunction, CallType, Provides;
    TypedEvaluationOfAll(e.arguments, context, env);
    var f := Lookup(e.callee.value.value).value;
    match EvalAll(e.arguments, env)
    case Value(args) =>
      TypedApplication(f, args, TypesOf(e.arguments, context).value);
    case Abort(_) =>
  }

  /** A builtin on arguments of the types it wants never fails a type assertion. */
  lemma TypedApplication(f: Function, args: seq<Object>, types: seq<Type>)
    requires |args| == |types| && CallType(f, types).Some?
    requires forall i | 0 <= i < |args| :: HasType(args[i], types[i])
    ensures ApplyFunction(Builtin(f), args).Value?
    ensures HasType(ApplyFunction(Builtin(f), args).value, CallType(f, types).value)
  {
    match f
    case Any =>
      assert HasType(args[0], Int) && HasType(args[1], Arr);
      AnyGivesBool(args[0].n, args[1].elements);
    case All =>
      assert HasType(args[0], Arr);
      AllGivesBool(args[0].elements);
    case Contains =>
  }

  lemma {:induction false} AnyGivesBool(threshold: int, xs: seq<Object>)
    ensures HasType(AnyOf(threshold, xs), Bool)
    decreases |xs|
  {
    if xs != [] && xs[0].Boolean? {
      AnyGivesBool(Below(threshold, xs[0].b), xs[1..]);
    }
  }

  lemma {:induction false} AllGivesBool(xs: seq<Object>)
    ensures HasType(AllOf(xs), Bool)
  {
    if xs != [] && xs[0].Boolean? {
      AllGivesBool(xs[1..]);
    }
  }
}
