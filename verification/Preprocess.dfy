/** Macro expansion: every plain identifier is replaced by what an expander makes of it. */
module Expanding {
  import opened Wrappers
  import opened Sequences
  import opened Tokens
  import opened Ast
  import opened Evaluation
  import opened ProgramMetadata

  /** The two results of `Expand` and of `Preprocess`: an expression, and whether there was an
      error beside it. */
  datatype Expansion = Expansion(node: Expression, failed: bool)

  type Expander = Identifier -> Expansion

  /** One pass: expansions are not expanded again, function names are left alone, and after an
      error the rest of the tree stays as it was. */
  function Preprocess(e: Expression, expand: Expander): Expansion
    requires NoNil(e)
    decreases e, 1
  {
    match e
    case Ident(ident) => expand(ident)
    case ArrayLiteral(token, elements) =>
      var (expanded, failed) := PreprocessElements(elements, expand);
      Expansion(ArrayLiteral(token, expanded), failed)
    case CallExpression(token, callee, arguments) =>
      var (expanded, failed) := PreprocessElements(arguments, expand);
      Expansion(CallExpression(token, callee, expanded), failed)
    case PrefixExpression(token, operator, right) =>
      var r := Preprocess(right, expand);
      Expansion(PrefixExpression(token, operator, r.node), r.failed)
    case InfixExpression(token, left, operator, right) =>
      var l := Preprocess(left, expand);
      if l.failed then Expansion(InfixExpression(token, l.node, operator, right), true)
      else
        var r := Preprocess(right, expand);
        Expansion(InfixExpression(token, l.node, operator, r.node), r.failed)
    case _ => Expansion(e, false)
  }

  function PreprocessElements(es: seq<Expression>, expand: Expander): (r: (seq<Expression>, bool))
    requires NoNils(es)
    ensures |r.0| == |es|
    decreases es, 0
  {
    if es == [] then ([], false)
    else
      var first := Preprocess(es[0], expand);
      if first.failed then ([first.node] + es[1..], true)
      else
        var (rest, failed) := PreprocessElements(es[1..], expand);
        ([first.node] + rest, failed)
  }

  /** The plain identifiers, from left to right, as they stand in the tree. */
  function IdentifierNodes(e: Expression): seq<Identifier>
    decreases e, 1
  {
    match e
    case Ident(ident) => [ident]
    case ArrayLiteral(_, elements) => AllIdentifierNodes(elements)
    case CallExpression(_, _, arguments) => AllIdentifierNodes(arguments)
    case InfixExpression(_, left, _, right) => IdentifierNodes(left) + IdentifierNodes(right)
    case PrefixExpression(_, _, right) => IdentifierNodes(right)
    case _ => []
  }

  function AllIdentifierNodes(es: seq<Expression>): seq<Identifier>
    decreases es, 0
  {
    if es == [] then [] else IdentifierNodes(es[0]) + AllIdentifierNodes(es[1..])
  }

  function NamesOf(nodes: seq<Identifier>): (names: seq<string>)
    ensures |names| == |nodes| && forall i | 0 <= i < |nodes| :: names[i] == nodes[i].value
  {
    seq(|nodes|, i requires 0 <= i < |nodes| => nodes[i].value)
  }

  /** They carry the names that the metadata list. */
  lemma {:induction false} NodesAreIdentifiers(e: Expression)
    ensures NamesOf(IdentifierNodes(e)) == Identifiers(e)
    decreases e, 1
  {
    match e
    case ArrayLiteral(_, elements) => AllNodesAreIdentifiers(elements);
    case CallExpression(_, _, arguments) => AllNodesAreIdentifiers(arguments);
    case InfixExpression(_, left, _, right) =>
      NodesAreIdentifiers(left);
      NodesAreIdentifiers(right);
    case PrefixExpression(_, _, right) => NodesAreIdentifiers(right);
    case _ =>
  }

  lemma {:induction false} AllNodesAreIdentifiers(es: seq<Expression>)
    ensures NamesOf(AllIdentifierNodes(es)) == AllIdentifiers(es)
    decreases es, 0
  {
    hide IdentifierNodes, Identifiers;
    if es != [] {
      NodesAreIdentifiers(es[0]);
      AllNodesAreIdentifiers(es[1..]);
    }
  }

  ghost predicate AnyFails(nodes: seq<Identifier>, expand: Expander) {
    exists i | 0 <= i < |nodes| :: expand(nodes[i]).failed
  }

  lemma AnyFailsConcat(a: seq<Identifier>, b: seq<Identifier>, expand: Expander)
    ensures AnyFails(a + b, expand) <==> AnyFails(a, expand) || AnyFails(b, expand)
  {
    if i :| 0 <= i < |a| && expand(a[i]).failed {
      assert (a + b)[i] == a[i];
    }
    if i :| 0 <= i < |b| && expand(b[i]).failed {
      assert (a + b)[|a| + i] == b[i];
    }
  }

  /** Preprocessing fails exactly if the expansion of some identifier of the program fails. */
  lemma {:induction false} FailsExactly(e: Expression, expand: Expander)
    requires NoNil(e)
    ensures Preprocess(e, expand).failed <==> AnyFails(IdentifierNodes(e), expand)
    decreases e, 1
  {
    match e
    case Ident(ident) =>
      assert IdentifierNodes(e)[0] == ident;
    case ArrayLiteral(_, elements) =>
      ElementsFailExactly(elements, expand);
    case CallExpression(_, _, arguments) =>
      ElementsFailExactly(arguments, expand);
    case PrefixExpression(_, _, right) =>
      FailsExactly(right, expand);
    case InfixExpression(_, left, _, right) =>
      FailsExactly(left, expand);
      FailsExactly(right, expand);
      AnyFailsConcat(IdentifierNodes(left), IdentifierNodes(right), expand);
    case _ =>
  }

  lemma {:induction false} ElementsFailExactly(es: seq<Expression>, expand: Expander)
    requires NoNils(es)
    ensures PreprocessElements(es, expand).1 <==> AnyFails(AllIdentifierNodes(es), expand)
    decreases es, 0
  {
    hide AnyFails;
    if es == [] {
      NoneFails(expand);
    } else {
      FailsExactly(es[0], expand);
      ElementsFailExactly(es[1..], expand);
      AnyFailsConcat(IdentifierNodes(es[0]), AllIdentifierNodes(es[1..]), expand);
    }
  }

  lemma NoneFails(expand: Expander)
    ensures !AnyFails([], expand)
  {}

  /** Expansions go by the name of the identifier, as environments do, not by its token. */
  ghost predicate ByName(expand: Expander) {
    forall i: Identifier, j: Identifier :: i.value == j.value ==> expand(i) == expand(j)
  }

  /** The environment in which a name stands for the outcome of evaluating its expansion. */
  ghost function Through(expand: Expander, env: Environment): Environment {
    Environment(name =>
      match Eval(expand(Identifier(END, name)).node, env)
      case Value(v) => Value(Some(v))
      case Abort(why) => Abort(why))
  }

  ghost predicate CallsBuiltins(e: Expression) {
    forall name | name in FunctionIdentifiers(e) :: Lookup(name).Some?
  }

  ghost predicate NoBuiltinNames(e: Expression) {
    forall name | name in Identifiers(e) :: Lookup(name).None?
  }

  /** Expansion preserves meaning: evaluating the expanded program is evaluating the program
      where each identifier means what its expansion evaluates to, panics included. */
  lemma {:induction false} EvalOfPreprocess(e: Expression, expand: Expander, env: Environment)
    requires ByName(expand) && CallsBuiltins(e) && NoBuiltinNames(e)
    requires NoNil(e) && !Preprocess(e, expand).failed
    ensures Eval(Preprocess(e, expand).node, env) == Eval(e, Through(expand, env))
    decreases e, 1
  {
    hide EvalInfix, EvalPrefix, ApplyFunction;
    match e
    case Ident(ident) =>
      assert ident.value in Identifiers(e);
      assert expand(ident) == expand(Identifier(END, ident.value));
    case ArrayLiteral(_, elements) =>
      EvalOfElements(elements, expand, env);
    case CallExpression(_, callee, arguments) =>
      if callee.Some? {
        assert callee.value.value in FunctionIdentifiers(e);
      }
      EvalOfElements(arguments, expand, env);
    case PrefixExpression(_, _, right) =>
      EvalOfPreprocess(right, expand, env);
    case InfixExpression(_, left, _, right) =>
      EvalOfPreprocess(left, expand, env);
      EvalOfPreprocess(right, expand, env);
    case _ =>
  }

  lemma {:induction false} EvalOfElements(es: seq<Expression>, expand: Expander, env: Environment)
    requires ByName(expand) && NoNils(es) && !PreprocessElements(es, expand).1
    requires forall name | name in AllFunctionIdentifiers(es) :: Lookup(name).Some?
    requires forall name | name in AllIdentifiers(es) :: Lookup(name).None?
    ensures EvalAll(PreprocessElements(es, expand).0, env) == EvalAll(es, Through(expand, env))
    decreases es, 0
  {
    hide Eval, Preprocess, Identifiers, FunctionIdentifiers, Lookup, Through;
    if es != [] {
      EvalOfPreprocess(es[0], expand, env);
      EvalOfElements(es[1..], expand, env);
      var first, rest := Preprocess(es[0], expand).node, PreprocessElements(es[1..], expand).0;
      assert ([first] + rest)[1..] == rest;
    }
  }

  /** The identifiers of the expansions of `nodes`, in order. */
  ghost function IdentifiersOf(nodes: seq<Identifier>, expand: Expander): seq<string> {
    if nodes == [] then [] else Identifiers(expand(nodes[0]).node) + IdentifiersOf(nodes[1..], expand)
  }

  ghost function FunctionsOf(nodes: seq<Identifier>, expand: Expander): multiset<string> {
    if nodes == [] then multiset{}
    else multiset(FunctionIdentifiers(expand(nodes[0]).node)) + FunctionsOf(nodes[1..], expand)
  }

  lemma {:induction false} ExpansionsConcat(a: seq<Identifier>, b: seq<Identifier>, expand: Expander)
    ensures IdentifiersOf(a + b, expand) == IdentifiersOf(a, expand) + IdentifiersOf(b, expand)
    ensures FunctionsOf(a + b, expand) == FunctionsOf(a, expand) + FunctionsOf(b, expand)
  {
    hide Identifiers, FunctionIdentifiers;
    if a == [] {
      assert a + b == b;
    } else {
      assert (a + b)[0] == a[0] && (a + b)[1..] == a[1..] + b;
      ExpansionsConcat(a[1..], b, expand);
    }
  }

  /** The metadata of the expanded program: the identifiers of the expansions take the place of
      each identifier, and the functions called are those of the program and of the expansions. */
  lemma {:induction false} MetadataOfPreprocess(e: Expression, expand: Expander)
    requires NoNil(e) && !Preprocess(e, expand).failed
    ensures Identifiers(Preprocess(e, expand).node) == IdentifiersOf(IdentifierNodes(e), expand)
    ensures multiset(FunctionIdentifiers(Preprocess(e, expand).node))
         == multiset(FunctionIdentifiers(e)) + FunctionsOf(IdentifierNodes(e), expand)
    decreases e, 1
  {
    hide IdentifiersOf, FunctionsOf;
    NoMetadata(expand);
    match e
    case Ident(ident) =>
      MetadataOfOne(ident, expand);
    case ArrayLiteral(_, elements) =>
      MetadataOfElements(elements, expand);
    case CallExpression(_, _, arguments) =>
      MetadataOfElements(arguments, expand);
    case PrefixExpression(_, _, right) =>
      MetadataOfPreprocess(right, expand);
    case InfixExpression(_, left, _, right) =>
      MetadataOfInfix(e, expand);
    case _ =>
  }

  lemma NoMetadata(expand: Expander)
    ensures IdentifiersOf([], expand) == [] && FunctionsOf([], expand) == multiset{}
  {}

  lemma MetadataOfOne(node: Identifier, expand: Expander)
    ensures IdentifiersOf([node], expand) == Identifiers(expand(node).node)
    ensures FunctionsOf([node], expand) == multiset(FunctionIdentifiers(expand(node).node))
  {
    hide Identifiers, FunctionIdentifiers;
    NoMetadata(expand);
    assert [node][1..] == [];
  }

  lemma {:induction false} MetadataOfInfix(e: Expression, expand: Expander)
    requires e.InfixExpression? && NoNil(e) && !Preprocess(e, expand).failed
    ensures Identifiers(Preprocess(e, expand).node) == IdentifiersOf(IdentifierNodes(e), expand)
    ensures multiset(FunctionIdentifiers(Preprocess(e, expand).node))
         == multiset(FunctionIdentifiers(e)) + FunctionsOf(IdentifierNodes(e), expand)
    decreases e, 0
  {
    MetadataOfPreprocess(e.left, expand);
    MetadataOfPreprocess(e.right, expand);
    ExpansionsConcat(IdentifierNodes(e.left), IdentifierNodes(e.right), expand);
    var l, r := Preprocess(e.left, expand).node, Preprocess(e.right, expand).node;
    var whole := Preprocess(e, expand).node;
    assert whole == InfixExpression(e.token, l, e.operator, r);
    assert Identifiers(whole) == Identifiers(l) + Identifiers(r);
    assert FunctionIdentifiers(whole) == FunctionIdentifiers(l) + FunctionIdentifiers(r);
    hide *;
  }

  lemma {:induction false} MetadataOfElements(es: seq<Expression>, expand: Expander)
    requires NoNils(es) && !PreprocessElements(es, expand).1
    ensures AllIdentifiers(PreprocessElements(es, expand).0) == IdentifiersOf(AllIdentifierNodes(es), expand)
    ensures multiset(AllFunctionIdentifiers(PreprocessElements(es, expand).0))
         == multiset(AllFunctionIdentifiers(es)) + FunctionsOf(AllIdentifierNodes(es), expand)
    decreases es, 0
  {
    hide Identifiers, FunctionIdentifiers, Preprocess;
    if es != [] {
      MetadataOfPreprocess(es[0], expand);
      MetadataOfElements(es[1..], expand);
      ExpansionsConcat(IdentifierNodes(es[0]), AllIdentifierNodes(es[1..]), expand);
      var first, rest := Preprocess(es[0], expand).node, PreprocessElements(es[1..], expand).0;
      assert ([first] + rest)[1..] == rest;
    }
  }

  // ----- After an error -----

  /** The identifiers, expanded from the left up to and with the first one that fails. */
  function UpToError(nodes: seq<Identifier>, expand: Expander): seq<Identifier> {
    if nodes == [] then []
    else IdentifierNodes(expand(nodes[0]).node)
         + if expand(nodes[0]).failed then nodes[1..] else UpToError(nodes[1..], expand)
  }

  lemma {:induction false} UpToErrorConcat(a: seq<Identifier>, b: seq<Identifier>, expand: Expander)
    ensures UpToError(a + b, expand)
         == UpToError(a, expand) + if AnyFails(a, expand) then b else UpToError(b, expand)
  {
    hide IdentifierNodes;
    if a == [] {
      AppendNothing(b);
      AppendNothing(UpToError(b, expand));
    } else {
      var tail := if AnyFails(a, expand) then b else UpToError(b, expand);
      assert (a + b)[0] == a[0] && (a + b)[1..] == a[1..] + b;
      UpToErrorConcat(a[1..], b, expand);
      FailsFirst(a, expand);
      if expand(a[0]).failed {
        Associate(IdentifierNodes(expand(a[0]).node), a[1..], b);
      } else {
        Associate(IdentifierNodes(expand(a[0]).node), UpToError(a[1..], expand), tail);
      }
    }
  }

  lemma FailsFirst(nodes: seq<Identifier>, expand: Expander)
    requires nodes != []
    ensures AnyFails(nodes, expand) <==> expand(nodes[0]).failed || AnyFails(nodes[1..], expand)
  {
    if i :| 0 <= i < |nodes[1..]| && expand(nodes[1..][i]).failed {
      assert nodes[i + 1] == nodes[1..][i];
    }
    assert forall i | 0 < i < |nodes| :: nodes[i] == nodes[1..][i - 1];
  }

  /** Whether it fails or not: the identifiers of the new tree are those of the expansions up to
      the first error, and behind it the old ones, in their places. */
  lemma {:induction false} ExpandedUpToError(e: Expression, expand: Expander)
    requires NoNil(e)
    ensures IdentifierNodes(Preprocess(e, expand).node) == UpToError(IdentifierNodes(e), expand)
    decreases e, 1
  {
    hide UpToError, AnyFails;
    match e
    case Ident(ident) =>
      UpToErrorOfOne(ident, expand);
    case ArrayLiteral(_, elements) =>
      ElementsUpToError(elements, expand);
    case CallExpression(_, _, arguments) =>
      ElementsUpToError(arguments, expand);
    case PrefixExpression(_, _, right) =>
      ExpandedUpToError(right, expand);
    case InfixExpression(_, left, _, right) =>
      ExpandedUpToError(left, expand);
      ExpandedUpToError(right, expand);
      FailsExactly(left, expand);
      UpToErrorConcat(IdentifierNodes(left), IdentifierNodes(right), expand);
    case _ =>
      UpToErrorOfNothing(expand);
  }

  lemma UpToErrorOfNothing(expand: Expander)
    ensures UpToError([], expand) == []
  {}

  lemma UpToErrorOfOne(ident: Identifier, expand: Expander)
    ensures UpToError([ident], expand) == IdentifierNodes(expand(ident).node)
  {
    hide IdentifierNodes;
    assert [ident][1..] == [];
    AppendNothing(IdentifierNodes(expand(ident).node));
  }

  lemma {:induction false} ElementsUpToError(es: seq<Expression>, expand: Expander)
    requires NoNils(es)
    ensures AllIdentifierNodes(PreprocessElements(es, expand).0) == UpToError(AllIdentifierNodes(es), expand)
    decreases es, 0
  {
    hide UpToError, AnyFails, IdentifierNodes, Preprocess;
    if es == [] {
      UpToErrorOfNothing(expand);
    } else {
      ExpandedUpToError(es[0], expand);
      ElementsUpToError(es[1..], expand);
      FailsExactly(es[0], expand);
      UpToErrorConcat(IdentifierNodes(es[0]), AllIdentifierNodes(es[1..]), expand);
      var first := Preprocess(es[0], expand);
      var rest := if first.failed then es[1..] else PreprocessElements(es[1..], expand).0;
      Cons(first.node, rest);
    }
  }
}
