/** The names an expression mentions. */
module ProgramMetadata {
  import opened Wrappers
  import opened Sequences
  import opened Ast
  import opened Evaluation

  /** Nothing in the tree is a nil pointer. */
  predicate NoNil(e: Expression)
    decreases e, 0
  {
    match e
    case NilExpr => false
    case ArrayLiteral(_, elements) => NoNils(elements)
    case CallExpression(_, _, arguments) => NoNils(arguments)
    case InfixExpression(_, left, _, right) => NoNil(left) && NoNil(right)
    case PrefixExpression(_, _, right) => NoNil(right)
    case _ => true
  }

  predicate NoNils(es: seq<Expression>) { forall i | 0 <= i < |es| :: NoNil(es[i]) }

  /** The plain identifiers, from left to right and with repetitions. */
  function Identifiers(e: Expression): seq<string>
    decreases e, 1
  {
    match e
    case Ident(ident) => [ident.value]
    case ArrayLiteral(_, elements) => AllIdentifiers(elements)
    case CallExpression(_, _, arguments) => AllIdentifiers(arguments)
    case InfixExpression(_, left, _, right) => Identifiers(left) + Identifiers(right)
    case PrefixExpression(_, _, right) => Identifiers(right)
    case _ => []
  }

  function AllIdentifiers(es: seq<Expression>): seq<string>
    decreases es, 0
  {
    if es == [] then [] else Identifiers(es[0]) + AllIdentifiers(es[1..])
  }

  /** The names of the functions called, a call before the calls among its arguments. */
  function FunctionIdentifiers(e: Expression): seq<string>
    decreases e, 1
  {
    match e
    case ArrayLiteral(_, elements) => AllFunctionIdentifiers(elements)
    case CallExpression(_, callee, arguments) =>
      (if callee.None? then [] else [callee.value.value]) + AllFunctionIdentifiers(arguments)
    case InfixExpression(_, left, _, right) => FunctionIdentifiers(left) + FunctionIdentifiers(right)
    case PrefixExpression(_, _, right) => FunctionIdentifiers(right)
    case _ => []
  }

  function AllFunctionIdentifiers(es: seq<Expression>): seq<string>
    decreases es, 0
  {
    if es == [] then [] else FunctionIdentifiers(es[0]) + AllFunctionIdentifiers(es[1..])
  }

  class Metadata {
    var identifiers: seq<string>
    var functionIdentifiers: seq<string>

    constructor ()
      ensures identifiers == [] && functionIdentifiers == []
    {
      identifiers, functionIdentifiers := [], [];
    }

    method AddIdentifier(name: string)
      modifies this
      ensures identifiers == old(identifiers) + [name] && functionIdentifiers == old(functionIdentifiers)
    {
      identifiers := identifiers + [name];
    }

    method AddFunction(name: string)
      modifies this
      ensures identifiers == old(identifiers) && functionIdentifiers == old(functionIdentifiers) + [name]
    {
      functionIdentifiers := functionIdentifiers + [name];
    }

    method ProcessNode(node: Expression)
      requires NoNil(node) && HasCallees(node)
      modifies this
      ensures identifiers == old(identifiers) + Identifiers(node)
      ensures functionIdentifiers == old(functionIdentifiers) + FunctionIdentifiers(node)
      decreases node, 1
    {
      match node
      case Ident(ident) =>
        AddIdentifier(ident.value);
      case PrefixExpression(_, _, right) =>
        ProcessNode(right);
      case InfixExpression(_, left, _, right) =>
        ProcessNode(left);
        ProcessNode(right);
        Associate(old(identifiers), Identifiers(left), Identifiers(right));
        Associate(old(functionIdentifiers), FunctionIdentifiers(left), FunctionIdentifiers(right));
      case CallExpression(_, callee, arguments) =>
        AddFunction(callee.value.value);
        ProcessNodes(arguments);
        Associate(old(functionIdentifiers), [callee.value.value], AllFunctionIdentifiers(arguments));
      case ArrayLiteral(_, elements) =>
        ProcessNodes(elements);
      case _ =>
    }

    method ProcessNodes(nodes: seq<Expression>)
      requires NoNils(nodes) && HaveCallees(nodes)
      modifies this
      ensures identifiers == old(identifiers) + AllIdentifiers(nodes)
      ensures functionIdentifiers == old(functionIdentifiers) + AllFunctionIdentifiers(nodes)
      decreases nodes, 0
    {
      hide Identifiers, FunctionIdentifiers;
      assert nodes[..0] == [];
      for i := 0 to |nodes|
        invariant identifiers == old(identifiers) + AllIdentifiers(nodes[..i])
        invariant functionIdentifiers == old(functionIdentifiers) + AllFunctionIdentifiers(nodes[..i])
      {
        ProcessNode(nodes[i]);
        OneMore(nodes, i);
      }
      assert nodes[..|nodes|] == nodes;
    }
  }

  lemma {:induction false} OneMore(es: seq<Expression>, i: nat)
    requires i < |es|
    ensures AllIdentifiers(es[..i + 1]) == AllIdentifiers(es[..i]) + Identifiers(es[i])
    ensures AllFunctionIdentifiers(es[..i + 1]) == AllFunctionIdentifiers(es[..i]) + FunctionIdentifiers(es[i])
  {
    hide Identifiers, FunctionIdentifiers;
    if i == 0 {
      assert es[..0] == [] && es[..1] == [es[0]];
    } else {
      assert es[..i + 1][1..] == es[1..][..i] && es[..i][1..] == es[1..][..i - 1];
      OneMore(es[1..], i - 1);
    }
  }

  method ExtractMetadata(e: Expression) returns (m: Metadata)
    requires NoNil(e) && HasCallees(e)
    ensures fresh(m) && m.identifiers == Identifiers(e) && m.functionIdentifiers == FunctionIdentifiers(e)
  {
    m := new Metadata();
    m.ProcessNode(e);
  }

  /** `name` stands somewhere in the metadata of `e`. */
  predicate Mentions(e: Expression, name: string) {
    name in Identifiers(e) || name in FunctionIdentifiers(e)
  }

  predicate SomeMentions(es: seq<Expression>, name: string) {
    name in AllIdentifiers(es) || name in AllFunctionIdentifiers(es)
  }

  ghost predicate Agree(names: iset<string>, a: Environment, b: Environment) {
    forall name | name in names :: Resolve(name, a) == Resolve(name, b)
  }

  ghost function Names(e: Expression): iset<string> { iset name | Mentions(e, name) }

  ghost function AllNames(es: seq<Expression>): iset<string> { iset name | SomeMentions(es, name) }

  /** The metadata is complete: environments that agree on its names give the same outcome. */
  lemma {:induction false} AgreeingEnvironments(e: Expression, a: Environment, b: Environment)
    requires Agree(Names(e), a, b)
    ensures Eval(e, a) == Eval(e, b)
    decreases e, 1
  {
    hide Resolve, EvalInfix, EvalPrefix, ApplyFunction;
    match e
    case Ident(ident) =>
      assert ident.value in Names(e);
    case ArrayLiteral(_, elements) =>
      AllAgree(elements, a, b);
    case CallExpression(_, callee, arguments) =>
      if callee.Some? {
        assert callee.value.value in Names(e);
        AllAgree(arguments, a, b);
      }
    case InfixExpression(_, left, _, right) =>
      AgreeingEnvironments(left, a, b);
      AgreeingEnvironments(right, a, b);
    case PrefixExpression(_, _, right) =>
      AgreeingEnvironments(right, a, b);
    case _ =>
  }

  lemma {:induction false} AllAgree(es: seq<Expression>, a: Environment, b: Environment)
    requires Agree(AllNames(es), a, b)
    ensures EvalAll(es, a) == EvalAll(es, b)
    decreases es, 0
  {
    hide Resolve, Eval, Identifiers, FunctionIdentifiers;
    if es != [] {
      AgreeingEnvironments(es[0], a, b);
      AllAgree(es[1..], a, b);
    }
  }

  /** An environment that panics when asked for anything but `names`. */
  ghost function Confined(env: Environment, names: iset<string>): Environment {
    if env.NilEnvironment? then env
    else Environment(name => if name in names then env.get(name) else Abort(EnvironmentFailure))
  }

  /** Evaluation asks the environment for no name outside the metadata. */
  lemma AskedNamesAreMetadata(e: Expression, env: Environment)
    ensures Eval(e, env) == Eval(e, Confined(env, Names(e)))
  {
    hide Eval, Mentions;
    AgreeingEnvironments(e, env, Confined(env, Names(e)));
  }

  /** An environment that panics where `env` does not know a name. */
  ghost function Strict(env: Environment): Environment {
    if env.NilEnvironment? then Environment(name => Abort(EnvironmentFailure))
    else Environment(name => match env.get(name)
                             case Value(None) => Abort(EnvironmentFailure)
                             case answer => answer)
  }

  ghost predicate Bound(env: Environment, name: string) {
    env.Environment? && env.get(name).Value? && env.get(name).value.Some?
  }

  /** With every name of the metadata a builtin or bound, neither of the branches that answer
      "identifier not found" and "environment is nil" is taken: both could panic unnoticed. */
  lemma BoundNamesAreFound(e: Expression, env: Environment)
    requires forall name | Mentions(e, name) :: Lookup(name).Some? || Bound(env, name)
    ensures Eval(e, env) == Eval(e, Strict(env))
  {
    hide Eval, Mentions;
    AgreeingEnvironments(e, env, Strict(env));
  }
}
