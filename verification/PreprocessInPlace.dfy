/** Macro expansion as it runs: on the tree itself, whose links it overwrites. */
module ExpandingInPlace {
  import opened Wrappers
  import opened Sequences
  import opened Tokens
  import opened Ast
  import opened ProgramMetadata
  import opened Expanding

  /** What a node holds: an expression without parts, or links to its parts. */
  datatype Shape =
    | Leaf(e: Expression)
    | Array(token: Token, elements: seq<Node?>)
    | Call(token: Token, callee: Option<Identifier>, arguments: seq<Node?>)
    | Prefix(token: Token, operator: string, right: Node?)
    | Infix(token: Token, left: Node?, operator: string, right: Node?)

  function Parts(shape: Shape): seq<Node?> {
    match shape
    case Leaf(_) => []
    case Array(_, elements) => elements
    case Call(_, _, arguments) => arguments
    case Prefix(_, _, right) => [right]
    case Infix(_, left, _, right) => [left, right]
  }

  /** The expression of a node, from those of its parts. */
  function Assemble(shape: Shape, parts: seq<Expression>): Expression
    requires |parts| == |Parts(shape)|
  {
    match shape
    case Leaf(e) => e
    case Array(token, _) => ArrayLiteral(token, parts)
    case Call(token, callee, _) => CallExpression(token, callee, parts)
    case Prefix(token, operator, _) => PrefixExpression(token, operator, parts[0])
    case Infix(token, _, operator, _) => InfixExpression(token, parts[0], operator, parts[1])
  }

  predicate IsLeaf(e: Expression) {
    !e.ArrayLiteral? && !e.CallExpression? && !e.PrefixExpression? && !e.InfixExpression? && !e.NilExpr?
  }

  /** An `*ast.Expression`, together with the struct its oneof points to. `repr` has the nodes of
      the tree, and `views` the expressions of the parts. */
  class Node {
    var shape: Shape
    ghost var repr: set<Node>
    ghost var views: seq<Expression>

    constructor (shape: Shape, ghost repr: set<Node>, ghost views: seq<Expression>)
      ensures this.shape == shape && this.repr == repr + {this} && this.views == views
    {
      this.shape, this.repr, this.views := shape, repr + {this}, views;
    }

    /** The node is the root of a tree: no node is reached in two ways. */
    ghost predicate Valid()
      reads this, repr
      decreases repr
    {
      && this in repr
      && (shape.Leaf? ==> IsLeaf(shape.e))
      && |views| == |Parts(shape)|
      && (forall i | 0 <= i < |views| :: Parts(shape)[i] == null ==> views[i] == NilExpr)
      && (forall i | 0 <= i < |views| && Parts(shape)[i] != null ::
            && Parts(shape)[i] in repr && Parts(shape)[i].repr < repr && this !in Parts(shape)[i].repr
            && Parts(shape)[i].Valid() && Parts(shape)[i].View() == views[i])
      && (forall i, j | 0 <= i < j < |views| && Parts(shape)[i] in repr && Parts(shape)[j] in repr ::
            Parts(shape)[i].repr !! Parts(shape)[j].repr)
    }

    ghost function View(): Expression
      reads this
    {
      if |views| == |Parts(shape)| then Assemble(shape, views) else NilExpr
    }
  }

  ghost function ViewOf(n: Node?): Expression
    reads n
  {
    if n == null then NilExpr else n.View()
  }

  function WithPart(shape: Shape, i: nat, part: Node?): (r: Shape)
    requires i < |Parts(shape)|
    ensures Parts(r) == Parts(shape)[i := part] && SameNode(shape, r)
  {
    match shape
    case Array(token, elements) => Array(token, elements[i := part])
    case Call(token, callee, arguments) => Call(token, callee, arguments[i := part])
    case Prefix(token, operator, _) => Prefix(token, operator, part)
    case Infix(token, left, operator, right) =>
      if i == 0 then Infix(token, part, operator, right) else Infix(token, left, operator, part)
  }

  /** Nothing but the links differs. */
  predicate SameNode(a: Shape, b: Shape) {
    |Parts(a)| == |Parts(b)| &&
    match (a, b)
    case (Leaf(e), Leaf(f)) => e == f
    case (Array(token, _), Array(other, _)) => token == other
    case (Call(token, callee, _), Call(other, otherCallee, _)) => token == other && callee == otherCallee
    case (Prefix(token, operator, _), Prefix(other, otherOperator, _)) => token == other && operator == otherOperator
    case (Infix(token, _, operator, _), Infix(other, _, otherOperator, _)) => token == other && operator == otherOperator
    case _ => false
  }

  /** Makes a new tree, as an expander does. */
  method Build(e: Expression) returns (n: Node?)
    ensures n == null <==> e == NilExpr
    ensures n != null ==> n.Valid() && n.View() == e && fresh(n.repr)
    decreases e, 1
  {
    hide Separate, Nodes, Node.Valid;
    match e
    case NilExpr =>
      n := null;
    case ArrayLiteral(token, elements) =>
      var parts := BuildAll(elements);
      n := Join(Array(token, parts), elements);
    case CallExpression(token, callee, arguments) =>
      var parts := BuildAll(arguments);
      n := Join(Call(token, callee, parts), arguments);
    case PrefixExpression(token, operator, right) =>
      var part := Build(right);
      OnePart(part, right);
      n := Join(Prefix(token, operator, part), [right]);
    case InfixExpression(token, left, operator, right) =>
      var l := Build(left);
      var r := Build(right);
      TwoParts(l, left, r, right);
      n := Join(Infix(token, l, operator, r), [left, right]);
    case _ =>
      n := NewLeaf(e);
  }

  method NewLeaf(e: Expression) returns (n: Node)
    requires IsLeaf(e)
    ensures n.Valid() && n.View() == e && fresh(n.repr)
  {
    n := new Node(Leaf(e), {}, []);
  }

  ghost function Roots(parts: seq<Node?>): set<Node> { set i | 0 <= i < |parts| && parts[i] != null :: parts[i] }

  ghost function Nodes(parts: seq<Node?>): set<Node>
    reads Roots(parts)
  {
    set i, m | 0 <= i < |parts| && parts[i] != null && m in parts[i].repr :: m
  }

  /** These are roots of separate trees. */
  ghost predicate Separate(parts: seq<Node?>, views: seq<Expression>)
    reads Roots(parts), Nodes(parts)
  {
    && |views| == |parts|
    && (forall i | 0 <= i < |parts| && parts[i] == null :: views[i] == NilExpr)
    && (forall i | 0 <= i < |parts| && parts[i] != null :: parts[i].Valid() && parts[i].View() == views[i])
    && (forall i, j | 0 <= i < j < |parts| && parts[i] != null && parts[j] != null :: parts[i].repr !! parts[j].repr)
  }

  method Join(shape: Shape, ghost views: seq<Expression>) returns (n: Node)
    requires !shape.Leaf? && Separate(Parts(shape), views)
    ensures n.Valid() && n.View() == Assemble(shape, views)
    ensures fresh(n) && n.repr == {n} + old(Nodes(Parts(shape)))
  {
    hide Separate, Nodes, Node.Valid;
    NodesExist(Parts(shape));
    RootsAreNodes(Parts(shape), views);
    ghost var nodes := Nodes(Parts(shape));
    n := new Node(shape, nodes, views);
    JoinedIsValid(n);
  }

  lemma NodesExist(parts: seq<Node?>)
    ensures forall m | m in Nodes(parts) :: allocated(m)
    ensures forall m | m in Roots(parts) :: allocated(m)
  {}

  lemma RootsAreNodes(parts: seq<Node?>, views: seq<Expression>)
    requires Separate(parts, views)
    ensures Roots(parts) <= Nodes(parts) && |views| == |parts|
  {
    forall i | 0 <= i < |parts| && parts[i] != null
      ensures parts[i] in Nodes(parts)
    {
      assert parts[i] in parts[i].repr;
    }
  }

  ghost predicate Tree(n: Node?, e: Expression)
    reads n, if n == null then {} else n.repr
  {
    if n == null then e == NilExpr else n.Valid() && n.View() == e
  }

  lemma SeparatePush(parts: seq<Node?>, views: seq<Expression>, part: Node?, view: Expression)
    requires Separate(parts, views) && Tree(part, view)
    requires part != null ==> part.repr !! Nodes(parts)
    ensures Separate(parts + [part], views + [view])
    ensures Nodes(parts + [part]) == Nodes(parts) + if part == null then {} else part.repr
  {
    hide Node.Valid, Node.View;
    NodesPush(parts, part);
    var more, moreViews := parts + [part], views + [view];
    forall i | 0 <= i < |parts|
      ensures more[i] == parts[i] && moreViews[i] == views[i]
      ensures parts[i] != null ==> parts[i].repr <= Nodes(parts)
    {}
    hide Nodes;
    assert more[|parts|] == part && moreViews[|parts|] == view;
  }

  lemma NodesPush(parts: seq<Node?>, part: Node?)
    ensures Nodes(parts + [part]) == Nodes(parts) + if part == null then {} else part.repr
  {
    var more := parts + [part];
    assert forall i | 0 <= i < |parts| :: more[i] == parts[i];
    forall m | m in Nodes(parts)
      ensures m in Nodes(more)
    {
      var i :| 0 <= i < |parts| && parts[i] != null && m in parts[i].repr;
      assert more[i] == parts[i];
    }
    assert more[|parts|] == part;
    assert part != null ==> forall m | m in part.repr :: m in more[|parts|].repr;
  }

  method BuildAll(es: seq<Expression>) returns (parts: seq<Node?>)
    ensures Separate(parts, es)
    ensures fresh(Nodes(parts))
    decreases es, 0
  {
    hide Separate, Nodes;
    parts := [];
    NoParts();
    assert es[..0] == [];
    for i := 0 to |es|
      invariant Separate(parts, es[..i])
      invariant fresh(Nodes(parts))
    {
      NodesExist(parts);
      var part := Build(es[i]);
      SeparatePush(parts, es[..i], part, es[i]);
      assert es[..i + 1] == es[..i] + [es[i]];
      parts := parts + [part];
    }
    assert es[..|es|] == es;
  }

  lemma OnePart(part: Node?, view: Expression)
    requires Tree(part, view)
    ensures Separate([part], [view]) && Nodes([part]) == if part == null then {} else part.repr
  {
    hide Separate, Nodes, Tree;
    NoParts();
    SeparatePush([], [], part, view);
    assert [] + [part] == [part] && [] + [view] == [view];
  }

  lemma TwoParts(l: Node?, left: Expression, r: Node?, right: Expression)
    requires Tree(l, left) && Tree(r, right)
    requires l != null && r != null ==> l.repr !! r.repr
    ensures Separate([l, r], [left, right])
    ensures Nodes([l, r]) == (if l == null then {} else l.repr) + if r == null then {} else r.repr
  {
    hide Separate, Nodes, Tree;
    OnePart(l, left);
    SeparatePush([l], [left], r, right);
    assert [l] + [r] == [l, r] && [left] + [right] == [left, right];
  }

  lemma NoParts()
    ensures Separate([], []) && Nodes([]) == {}
  {}

  /** Expands the tree in place and returns its new root, which is another one only for a bare
      identifier. On an error the tree is left as far as it got. */
  method PreprocessNode(node: Node, expand: Expander) returns (r: Node?, failed: bool)
    requires node.Valid() && NoNil(node.View())
    modifies node.repr
    ensures Tree(r, Preprocess(old(node.View()), expand).node)
    ensures failed == Preprocess(old(node.View()), expand).failed
    ensures r != null ==> forall m | m in r.repr :: m in old(node.repr) || fresh(m)
    decreases node.View(), 0
  {
    match node.shape
    case Leaf(e) =>
      if e.Ident? {
        failed := expand(e.ident).failed;
        r := Build(expand(e.ident).node);
        return;
      }
      return node, false;
    case Array(_, _) =>
      failed := PreprocessNodes(node, expand);
      return node, failed;
    case Call(_, _, _) =>
      failed := PreprocessNodes(node, expand);
      return node, failed;
    case Prefix(_, _, _) =>
      failed := PreprocessPart(node, 0, expand);
      return node, failed;
    case Infix(_, _, _, _) =>
      failed := PreprocessPart(node, 0, expand);
      if failed {
        return node, true;
      }
      failed := PreprocessPart(node, 1, expand);
      return node, failed;
  }

  /** Overwrites one link of a node with what its target expands to. */
  method PreprocessPart(node: Node, i: nat, expand: Expander) returns (failed: bool)
    requires node.Valid() && i < |node.views| && NoNil(node.views[i])
    modifies node.repr
    ensures node.Valid() && forall m | m in node.repr :: m in old(node.repr) || fresh(m)
    ensures node.views == old(node.views)[i := Preprocess(old(node.views[i]), expand).node]
    ensures failed == Preprocess(old(node.views[i]), expand).failed
    ensures SameNode(old(node.shape), node.shape)
    decreases node.views[i], 1
  {
    hide Separate, Nodes, Node.Valid, Node.View, Assemble, WithPart, SameNode;
    ApartFromRoot(node);
    ghost var parts, views := Parts(node.shape), node.views;
    TakeOut(parts, views, i);
    ghost var others, otherViews := parts[i := null], views[i := NilExpr];
    RootsAreNodes(others, otherViews);
    NodesExist(others);
    var r: Node?;
    r, failed := PreprocessNode(Parts(node.shape)[i], expand);
    PutIn(others, otherViews, i, r, ViewOf(r));
    RootsAreNodes(others[i := r], otherViews[i := ViewOf(r)]);
    assert node !in Nodes(others[i := r]);
    node.shape := WithPart(node.shape, i, r);
    node.repr := node.repr + if r == null then {} else r.repr;
    node.views := node.views[i := ViewOf(r)];
    assert Parts(node.shape) == others[i := r] && node.views == otherViews[i := ViewOf(r)];
    JoinedIsValid(node);
  }

  /** A valid node is a root above separate trees. */
  lemma ApartFromRoot(node: Node)
    requires node.Valid()
    ensures node in node.repr && (node.shape.Leaf? ==> IsLeaf(node.shape.e)) && |node.views| == |Parts(node.shape)|
    ensures Separate(Parts(node.shape), node.views) && Nodes(Parts(node.shape)) <= node.repr - {node}
  {
    hide Node.View;
    var parts := Parts(node.shape);
    assert forall i | 0 <= i < |parts| && parts[i] != null :: parts[i] in node.repr && parts[i].repr <= node.repr - {node};
  }

  lemma JoinedIsValid(node: Node)
    requires node in node.repr && (node.shape.Leaf? ==> IsLeaf(node.shape.e))
    requires Separate(Parts(node.shape), node.views) && Nodes(Parts(node.shape)) <= node.repr - {node}
    ensures node.Valid()
  {
    hide Node.View;
    var parts := Parts(node.shape);
    forall i | 0 <= i < |parts| && parts[i] != null
      ensures parts[i] in node.repr && parts[i].repr < node.repr && node !in parts[i].repr
    {
      assert parts[i] in parts[i].repr;
      assert parts[i].repr <= Nodes(parts);
      assert node in node.repr && node !in parts[i].repr;
    }
  }

  lemma TakeOut(parts: seq<Node?>, views: seq<Expression>, i: nat)
    requires Separate(parts, views) && i < |parts| && views[i] != NilExpr
    ensures parts[i] != null && parts[i].Valid() && parts[i].View() == views[i]
    ensures Separate(parts[i := null], views[i := NilExpr])
    ensures parts[i].repr <= Nodes(parts) && parts[i].repr !! Nodes(parts[i := null])
    ensures Nodes(parts[i := null]) <= Nodes(parts)
  {
    hide Node.View;
    assert parts[i] != null;
  }

  lemma PutIn(parts: seq<Node?>, views: seq<Expression>, i: nat, part: Node?, view: Expression)
    requires Separate(parts, views) && i < |parts| && parts[i] == null && Tree(part, view)
    requires part != null ==> part.repr !! Nodes(parts)
    ensures Separate(parts[i := part], views[i := view])
    ensures Nodes(parts[i := part]) <= Nodes(parts) + if part == null then {} else part.repr
  {
    hide Node.Valid, Node.View;
    assert forall j | 0 <= j < |parts| && parts[j] != null :: parts[j].repr <= Nodes(parts);
  }

  /** The elements of an array or the arguments of a call, from the left, up to the first error. */
  method PreprocessNodes(node: Node, expand: Expander) returns (failed: bool)
    requires node.Valid() && NoNils(node.views)
    modifies node.repr
    ensures node.Valid() && forall m | m in node.repr :: m in old(node.repr) || fresh(m)
    ensures node.views == PreprocessElements(old(node.views), expand).0
    ensures failed == PreprocessElements(old(node.views), expand).1
    ensures SameNode(old(node.shape), node.shape)
    decreases node.views, 0
  {
    hide Node.Valid, Preprocess, PreprocessElements, NoNil, Separate, Nodes;
    ApartFromRoot(node);
    ghost var es := node.views;
    NothingDone(es, expand);
    for i := 0 to |Parts(node.shape)|
      invariant node.Valid() && forall m | m in node.repr :: m in old(node.repr) || fresh(m)
      invariant |node.views| == |es| && node.views[i..] == es[i..]
      invariant PreprocessElements(es, expand) == Behind(node.views[..i], PreprocessElements(es[i..], expand))
      invariant SameNode(old(node.shape), node.shape)
    {
      OneMore(es, i, node.views[..i], expand);
      SameTail(node.views, es, i);
      Update(node.views, i, Preprocess(es[i], expand).node);
      failed := PreprocessPart(node, i, expand);
      if failed {
        return true;
      }
    }
    assert node.views[..|es|] == node.views;
    NothingLeft(es, node.views, expand);
    return false;
  }

  lemma NothingLeft(es: seq<Expression>, done: seq<Expression>, expand: Expander)
    ensures Behind(done, PreprocessElements(es[|es|..], expand)) == (done, false)
  {
    assert done + [] == done;
  }

  lemma SameTail<T>(a: seq<T>, b: seq<T>, i: nat)
    requires i < |a| == |b| && a[i..] == b[i..]
    ensures a[i] == b[i] && a[i + 1..] == b[i + 1..]
  {
    assert a[i..][0] == a[i] && b[i..][0] == b[i] && a[i..][1..] == a[i + 1..] && b[i..][1..] == b[i + 1..];
  }

  lemma Update<T>(a: seq<T>, i: nat, x: T)
    requires i < |a|
    ensures var b := a[i := x];
            b[..i + 1] == a[..i] + [x] && b[i + 1..] == a[i + 1..] && b == a[..i] + [x] + a[i + 1..]
  {}

  ghost function Behind(done: seq<Expression>, rest: (seq<Expression>, bool)): (seq<Expression>, bool) {
    (done + rest.0, rest.1)
  }

  lemma NothingDone(es: seq<Expression>, expand: Expander)
    requires NoNils(es)
    ensures PreprocessElements(es, expand) == Behind(es[..0], PreprocessElements(es[0..], expand))
  {
    hide PreprocessElements;
    assert es[0..] == es;
    assert [] + PreprocessElements(es, expand).0 == PreprocessElements(es, expand).0;
  }

  lemma OneMore(es: seq<Expression>, i: nat, done: seq<Expression>, expand: Expander)
    requires NoNils(es) && i < |es|
    ensures var first := Preprocess(es[i], expand);
            Behind(done, PreprocessElements(es[i..], expand)) ==
            if first.failed then (done + [first.node] + es[i + 1..], true)
            else Behind(done + [first.node], PreprocessElements(es[i + 1..], expand))
  {
    hide Preprocess;
    var first, rest := Preprocess(es[i], expand), PreprocessElements(es[i + 1..], expand);
    assert es[i..][0] == es[i] && es[i..][1..] == es[i + 1..];
    assert PreprocessElements(es[i..], expand)
        == if first.failed then ([first.node] + es[i + 1..], true) else ([first.node] + rest.0, rest.1);
    hide PreprocessElements;
    Associate(done, [first.node], rest.0);
    Associate(done, [first.node], es[i + 1..]);
  }
}
