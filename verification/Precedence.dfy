/** Precedence without a grammar: a chain of operands and binary operators has exactly one tree
    that six levels of left-associative operators allow, and that is the one the parser returns. */
module PrecedenceGrammar {
  import opened Sequences
  import opened Tokens
  import opened Lexing
  import opened Ast
  import opened Parsing
  import opened Printing
  import opened Grammar

  /** An operator and the operand behind it. */
  datatype Link = Link(op: Token, operand: Syntax)

  /** Names, literals, arrays, calls and anything in parentheses, under any number of minus signs. */
  predicate IsOperand(x: Syntax) { Derivation(x) && !x.Binary? }

  predicate AreLinks(links: seq<Link>) {
    forall i | 0 <= i < |links| ::
      WellLexed(links[i].op) && BinaryOperator(links[i].op.kind) && IsOperand(links[i].operand)
  }

  /** The in-order yield of a tree is `First(x)` followed by `Links(x)`. */
  function First(x: Syntax): Syntax { if x.Binary? then First(x.left) else x }

  function Links(x: Syntax): seq<Link> {
    if x.Binary? then Links(x.left) + ([Link(x.op, First(x.right))] + Links(x.right)) else []
  }

  function ChainTokens(first: Syntax, links: seq<Link>): seq<Token> { TokensOf(first) + LinkTokens(links) }

  function LinkTokens(links: seq<Link>): seq<Token> {
    if links == [] then [] else [links[0].op] + TokensOf(links[0].operand) + LinkTokens(links[1..])
  }

  // ----- Chains have exactly one tree -----

  /** The tree `x`, extended on the right by one operator and operand. */
  function Insert(x: Syntax, link: Link): Syntax {
    if x.Binary? && Strength(link.op.literal) > Level(x) then Binary(x.left, x.op, Insert(x.right, link))
    else Binary(x, link.op, link.operand)
  }

  function InsertAll(x: Syntax, links: seq<Link>): Syntax
    decreases |links|
  {
    if links == [] then x else InsertAll(Insert(x, links[0]), links[1..])
  }

  lemma {:induction false} InsertDerives(x: Syntax, link: Link)
    requires Derivation(x) && AreLinks([link])
    ensures Derivation(Insert(x, link))
    ensures First(Insert(x, link)) == First(x) && Links(Insert(x, link)) == Links(x) + [link]
    ensures Level(Insert(x, link)) == if x.Binary? && Strength(link.op.literal) > Level(x) then Level(x)
                                      else Strength(link.op.literal)
  {
    assert [link][0] == link;
    StrengthOf(link.op);
    hide Strength, WellLexed, TreeOf;
    if x.Binary? && Strength(link.op.literal) > Level(x) {
      InsertDerives(x.right, link);
      Associate4(Links(x.left), [Link(x.op, First(x.right))], Links(x.right), [link]);
      Associate([Link(x.op, First(x.right))], Links(x.right), [link]);
      Associate(Links(x.left), [Link(x.op, First(x.right))] + Links(x.right), [link]);
    } else {
      assert link == Link(link.op, link.operand);
      AppendNothing([link]);
    }
  }

  lemma {:induction false} InsertAllDerives(x: Syntax, links: seq<Link>)
    requires Derivation(x) && AreLinks(links)
    ensures Derivation(InsertAll(x, links))
    ensures First(InsertAll(x, links)) == First(x) && Links(InsertAll(x, links)) == Links(x) + links
    decreases |links|
  {
    hide Insert, Derivation, First, Links, Level;
    if links == [] {
      AppendNothing(Links(x));
    } else {
      InsertDerives(x, links[0]);
      InsertAllDerives(Insert(x, links[0]), links[1..]);
      assert [links[0]] + links[1..] == links;
      Associate(Links(x), [links[0]], links[1..]);
    }
  }

  lemma {:induction false} InsertAllConcat(x: Syntax, a: seq<Link>, b: seq<Link>)
    ensures InsertAll(x, a + b) == InsertAll(InsertAll(x, a), b)
    decreases |a|
  {
    if a == [] {
      AppendNothing(b);
    } else {
      assert (a + b)[0] == a[0] && (a + b)[1..] == a[1..] + b;
      InsertAllConcat(Insert(x, a[0]), a[1..], b);
    }
  }

  lemma {:induction false} TighterLinksGoRight(l: Syntax, op: Token, r: Syntax, links: seq<Link>)
    requires forall i | 0 <= i < |links| :: Strength(links[i].op.literal) > Strength(op.literal)
    ensures InsertAll(Binary(l, op, r), links) == Binary(l, op, InsertAll(r, links))
    decreases |links|
  {
    hide Strength;
    if links != [] {
      TighterLinksGoRight(l, op, Insert(r, links[0]), links[1..]);
    }
  }

  lemma {:induction false} LinksBindAtLeast(x: Syntax)
    requires Derivation(x)
    ensures forall i | 0 <= i < |Links(x)| :: Strength(Links(x)[i].op.literal) >= Level(x)
  {
    hide Strength, WellLexed, TreeOf;
    if x.Binary? {
      LinksBindAtLeast(x.left);
      LinksBindAtLeast(x.right);
    }
  }

  /** A derivation is rebuilt from its yield, so no other one has the same yield. */
  lemma {:induction false} BuildOfYield(x: Syntax)
    requires Derivation(x)
    ensures InsertAll(First(x), Links(x)) == x
  {
    hide Strength, WellLexed, TreeOf;
    if x.Binary? {
      var links := [Link(x.op, First(x.right))] + Links(x.right);
      BuildOfYield(x.left);
      BuildOfYield(x.right);
      LinksBindAtLeast(x.right);
      InsertAllConcat(First(x), Links(x.left), links);
      InsertFirst(x, links);
      TighterLinksGoRight(x.left, x.op, First(x.right), Links(x.right));
    }
  }

  lemma InsertFirst(x: Syntax, links: seq<Link>)
    requires Derivation(x) && x.Binary? && links == [Link(x.op, First(x.right))] + Links(x.right)
    ensures InsertAll(x.left, links) == InsertAll(Binary(x.left, x.op, First(x.right)), Links(x.right))
  {
    hide Strength, WellLexed, TreeOf, First, Links;
    Cons(Link(x.op, First(x.right)), Links(x.right));
  }

  /** For every chain there is exactly one derivation with that yield. */
  lemma ChainHasOneTree(first: Syntax, links: seq<Link>)
    requires IsOperand(first) && AreLinks(links)
    ensures var x := InsertAll(first, links);
            && Derivation(x) && First(x) == first && Links(x) == links
            && forall y | Derivation(y) && First(y) == first && Links(y) == links :: y == x
  {
    InsertAllDerives(first, links);
    AppendNothing(links);
    forall y | Derivation(y) && First(y) == first && Links(y) == links
      ensures y == InsertAll(first, links)
    {
      BuildOfYield(y);
    }
  }

  // ----- The parser returns it -----

  lemma {:induction false} LinkTokensConcat(a: seq<Link>, b: seq<Link>)
    ensures LinkTokens(a + b) == LinkTokens(a) + LinkTokens(b)
    decreases |a|
  {
    hide TokensOf;
    if a == [] {
      AppendNothing(b);
      AppendNothing(LinkTokens(b));
    } else {
      assert (a + b)[0] == a[0] && (a + b)[1..] == a[1..] + b;
      LinkTokensConcat(a[1..], b);
      Associate([a[0].op] + TokensOf(a[0].operand), LinkTokens(a[1..]), LinkTokens(b));
    }
  }

  lemma {:induction false} YieldTokens(x: Syntax)
    ensures ChainTokens(First(x), Links(x)) == TokensOf(x)
  {
    if x.Binary? {
      var link, rights := Link(x.op, First(x.right)), Links(x.right);
      YieldTokens(x.left);
      YieldTokens(x.right);
      BinaryTokens(x);
      LinkTokensConcat(Links(x.left), [link] + rights);
      Cons(link, rights);
      assert LinkTokens([link] + rights) == [x.op] + TokensOf(First(x.right)) + LinkTokens(rights);
      hide TokensOf, LinkTokens, First, TreeOf;
      Associate([x.op], TokensOf(First(x.right)), LinkTokens(rights));
      Associate(TokensOf(First(x.left)), LinkTokens(Links(x.left)), [x.op] + TokensOf(x.right));
    } else {
      AppendNothing(TokensOf(x));
    }
  }

  /** On every program whose tokens start with a chain, and go on with a token that is no operator,
      the parser records no error and returns the one tree of the chain. */
  lemma ChainParsesToItsTree(s: string, first: Syntax, links: seq<Link>, rest: seq<Token>)
    requires IsOperand(first) && AreLinks(links)
    requires Tokenize(s) == ChainTokens(first, links) + rest && Precedence(Cur(rest).kind) <= LOWEST
    ensures Clean(Parse(s)) && Parse(s).value == TreeOf(InsertAll(first, links))
  {
    hide Tokenize, Parse, Derivation, TreeOf, TokensOf, InsertAll, ChainTokens;
    var x := InsertAll(first, links);
    ChainHasOneTree(first, links);
    YieldTokens(x);
    DerivationIsAccepted(s, x, rest);
  }
}
