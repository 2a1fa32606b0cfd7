/** The syntax tree of Shield and its printer. */
module Ast {
  import opened Wrappers
  import opened Tokens

  datatype Identifier = Identifier(token: Token, value: string)

  /** An `*ast.Expression`. `NilExpr` is the nil pointer, `Unset` an expression whose oneof
      holds nothing; a nil slice and an empty slice are both `[]`. */
  datatype Expression =
    | NilExpr
    | Unset
    | Ident(ident: Identifier)
    | IntegerLiteral(token: Token, value: string)
    | BooleanLiteral(token: Token, truth: bool)
    | StringLiteral(token: Token, value: string)
    | ArrayLiteral(token: Token, elements: seq<Expression>)
    | CallExpression(token: Token, callee: Option<Identifier>, arguments: seq<Expression>)
    | InfixExpression(token: Token, left: Expression, operator: string, right: Expression)
    | PrefixExpression(token: Token, operator: string, right: Expression)

  /** Every call names its function, which is all that printing needs. */
  predicate HasCallees(e: Expression) {
    match e
    case ArrayLiteral(_, elements) => HaveCallees(elements)
    case CallExpression(_, callee, arguments) => callee.Some? && HaveCallees(arguments)
    case InfixExpression(_, left, _, right) => HasCallees(left) && HasCallees(right)
    case PrefixExpression(_, _, right) => HasCallees(right)
    case _ => true
  }

  predicate HaveCallees(es: seq<Expression>) {
    forall i | 0 <= i < |es| :: HasCallees(es[i])
  }

  function Stringify(e: Expression): string
    requires HasCallees(e)
    decreases e, 0
  {
    match e
    case NilExpr => "{ERR:nil expression}"
    case Unset => ""
    case Ident(ident) => ident.value
    case IntegerLiteral(_, value) => value
    case BooleanLiteral(_, truth) => if truth then "true" else "false"
    case StringLiteral(_, value) => "\"" + value + "\""
    case ArrayLiteral(_, elements) => "[" + StringifyList(elements) + "]"
    case CallExpression(_, callee, arguments) => callee.value.value + "(" + StringifyList(arguments) + ")"
    case PrefixExpression(_, operator, right) => "(" + operator + Stringify(right) + ")"
    case InfixExpression(_, left, operator, right) =>
      "(" + Stringify(left) + " " + operator + " " + Stringify(right) + ")"
  }

  function StringifyList(es: seq<Expression>): string
    requires HaveCallees(es)
    decreases es, 0
  {
    if es == [] then "" else Stringify(es[0]) + StringifyTail(es[1..])
  }

  /** The elements behind the first one, led by their separator. */
  function StringifyTail(es: seq<Expression>): string
    requires HaveCallees(es)
    decreases es, 1
  {
    if es == [] then "" else ", " + StringifyList(es)
  }

  /** The printer as it runs, with a builder for lists. */
  method Print(e: Expression) returns (s: string)
    requires HasCallees(e)
    ensures s == Stringify(e)
    decreases e, 0
  {
    match e
    case ArrayLiteral(_, elements) =>
      var list := PrintList(elements);
      return "[" + list + "]";
    case CallExpression(_, callee, arguments) =>
      var list := PrintList(arguments);
      return callee.value.value + "(" + list + ")";
    case PrefixExpression(_, operator, right) =>
      var r := Print(right);
      return "(" + operator + r + ")";
    case InfixExpression(_, left, operator, right) =>
      var l := Print(left);
      var r := Print(right);
      return "(" + l + " " + operator + " " + r + ")";
    case _ =>
      return Stringify(e);
  }

  /** All elements but the last are followed by a separator. */
  method PrintList(es: seq<Expression>) returns (s: string)
    requires HaveCallees(es)
    ensures s == StringifyList(es)
    decreases es, 0
  {
    hide Stringify, HasCallees;
    s := "";
    if es == [] {
      return;
    }
    assert es[0..] == es;
    for i := 0 to |es| - 1
      invariant StringifyList(es) == s + StringifyList(es[i..])
    {
      var text := Print(es[i]);
      assert es[i..][0] == es[i] && es[i..][1..] == es[i + 1..];
      TextThenRest(s, text, ", ", StringifyList(es[i + 1..]));
      s := s + text + ", ";
    }
    var last := Print(es[|es| - 1]);
    assert es[|es| - 1..] == [es[|es| - 1]];
    s := s + last;
  }

  lemma TextThenRest(a: string, b: string, c: string, d: string)
    ensures a + (b + (c + d)) == (a + b + c) + d
  {}
}
