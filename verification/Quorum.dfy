/** What `any` and `all` mean: quorums of approvals. */
module Quorum {
  import opened Evaluation

  predicate AllBoolean(xs: seq<Object>) { forall i | 0 <= i < |xs| :: xs[i].Boolean? }

  /** The approvals among the elements. */
  function Trues(xs: seq<Object>): nat {
    if xs == [] then 0 else (if xs[0] == Boolean(true) then 1 else 0) + Trues(xs[1..])
  }

  /** `any(k, xs)` on booleans and a positive threshold: at least `k` of them are true. */
  lemma {:induction false} AnyIsQuorum(k: int, xs: seq<Object>)
    requires k >= 1 && AllBoolean(xs)
    ensures AnyOf(k, xs) == Boolean(Trues(xs) >= k)
  {
    if xs != [] && Below(k, xs[0].b) != 0 {
      AnyIsQuorum(Below(k, xs[0].b), xs[1..]);
    }
  }

  /** Without a positive threshold there is no quorum to reach: `any(0, xs)` holds when the first
      element is not an approval, and a negative threshold never does. */
  lemma {:induction false} AnyBelowOne(k: int, xs: seq<Object>)
    requires k <= 0 && AllBoolean(xs)
    ensures AnyOf(k, xs) == Boolean(k == 0 && xs != [] && !xs[0].b)
    decreases |xs|
  {
    if xs != [] && Below(k, xs[0].b) != 0 {
      AnyBelowOne(Below(k, xs[0].b), xs[1..]);
    }
  }

  lemma {:induction false} TruesOfMultiset(xs: seq<Object>)
    ensures Trues(xs) == multiset(xs)[Boolean(true)]
  {
    if xs != [] {
      TruesOfMultiset(xs[1..]);
      assert xs == [xs[0]] + xs[1..];
    }
  }

  /** The order of the approvals does not matter. */
  lemma AnyOfPermutation(k: int, xs: seq<Object>, ys: seq<Object>)
    requires k >= 1 && AllBoolean(xs) && multiset(xs) == multiset(ys)
    ensures AnyOf(k, xs) == AnyOf(k, ys)
  {
    forall i | 0 <= i < |ys|
      ensures ys[i].Boolean?
    {
      assert ys[i] in multiset(ys);
      assert ys[i] in multiset(xs);
    }
    AnyIsQuorum(k, xs);
    AnyIsQuorum(k, ys);
    TruesOfMultiset(xs);
    TruesOfMultiset(ys);
  }

  /** More approvals never turn a quorum down. */
  lemma {:induction false} AnyIsMonotone(k: int, xs: seq<Object>, ys: seq<Object>)
    requires k >= 1 && AllBoolean(xs) && AllBoolean(ys) && |xs| == |ys|
    requires forall i | 0 <= i < |xs| :: xs[i].b ==> ys[i].b
    ensures AnyOf(k, xs) == Boolean(true) ==> AnyOf(k, ys) == Boolean(true)
  {
    AnyIsQuorum(k, xs);
    AnyIsQuorum(k, ys);
    MoreTrues(xs, ys);
  }

  lemma {:induction false} MoreTrues(xs: seq<Object>, ys: seq<Object>)
    requires AllBoolean(xs) && AllBoolean(ys) && |xs| == |ys|
    requires forall i | 0 <= i < |xs| :: xs[i].b ==> ys[i].b
    ensures Trues(xs) <= Trues(ys)
  {
    if xs != [] {
      MoreTrues(xs[1..], ys[1..]);
    }
  }

  lemma {:induction false} TruesAtMost(xs: seq<Object>)
    ensures Trues(xs) <= |xs|
  {
    if xs != [] {
      TruesAtMost(xs[1..]);
    }
  }

  /** `all` is the quorum of everyone. */
  lemma AllIsFullQuorum(xs: seq<Object>)
    requires AllBoolean(xs) && xs != []
    ensures AllOf(xs) == AnyOf(|xs|, xs)
  {
    AnyIsQuorum(|xs|, xs);
    AllIsAllTrue(xs);
    TruesAtMost(xs);
  }

  lemma {:induction false} AllIsAllTrue(xs: seq<Object>)
    requires AllBoolean(xs)
    ensures AllOf(xs) == Boolean(Trues(xs) == |xs|)
  {
    TruesAtMost(xs);
    if xs != [] {
      TruesAtMost(xs[1..]);
      AllIsAllTrue(xs[1..]);
    }
  }

  /** The first element that is not a boolean stands at `i`. */
  predicate FirstBad(xs: seq<Object>, i: nat) {
    i < |xs| && !xs[i].Boolean? && AllBoolean(xs[..i])
  }

  /** On mixed arrays `any` is an Error exactly if it meets a non-boolean before its quorum. */
  lemma {:induction false} AnyErrorsExactly(k: int, xs: seq<Object>)
    requires k >= 1
    ensures AnyOf(k, xs).Error? <==> exists i: nat :: FirstBad(xs, i) && Trues(xs[..i]) < k
  {
    if i: nat :| FirstBad(xs, i) {
      AnyUntilBad(k, xs, i);
      forall j: nat | FirstBad(xs, j)
        ensures j == i
      {
        OneFirstBad(xs, i, j);
        OneFirstBad(xs, j, i);
      }
    } else {
      BadOrAllBoolean(xs);
      AnyIsQuorum(k, xs);
    }
  }

  lemma OneFirstBad(xs: seq<Object>, i: nat, j: nat)
    requires FirstBad(xs, i) && FirstBad(xs, j)
    ensures i <= j
  {
    if j < i {
      assert false;
    }
  }

  lemma {:induction false} BadOrAllBoolean(xs: seq<Object>)
    ensures AllBoolean(xs) || exists i: nat :: FirstBad(xs, i)
  {
    if !AllBoolean(xs) {
      if AllBoolean(xs[..|xs| - 1]) {
        assert FirstBad(xs, |xs| - 1);
      } else {
        BadOrAllBoolean(xs[..|xs| - 1]);
        var i: nat :| FirstBad(xs[..|xs| - 1], i);
        assert xs[..|xs| - 1][..i] == xs[..i];
        assert FirstBad(xs, i);
      }
    }
  }

  lemma {:induction false} AnyUntilBad(k: int, xs: seq<Object>, i: nat)
    requires k >= 1 && FirstBad(xs, i)
    ensures AnyOf(k, xs) == if Trues(xs[..i]) >= k then Boolean(true) else Error(NotABoolean)
    decreases i
  {
    if i > 0 {
      assert xs[..i][0] == xs[0] && xs[..i][1..] == xs[1..][..i - 1];
      if Below(k, xs[0].b) != 0 {
        AnyUntilBad(Below(k, xs[0].b), xs[1..], i - 1);
      }
    }
  }

  // ----- Mixed lists -----

  /** Every element is an approval. */
  predicate AllApprove(xs: seq<Object>) { forall i | 0 <= i < |xs| :: xs[i] == Boolean(true) }

  /** Only approvals stand in front of the element at `i`. */
  predicate Reached(xs: seq<Object>, i: nat) { i < |xs| && AllApprove(xs[..i]) }

  /** On any list: `all` is an Error exactly if it reaches a non-boolean, FALSE exactly if it
      reaches a refusal, and TRUE exactly if every element is an approval. */
  lemma AllErrorsExactly(xs: seq<Object>)
    ensures AllOf(xs) == Error(NotABoolean) <==> exists i: nat :: Reached(xs, i) && !xs[i].Boolean?
    ensures AllOf(xs) == Boolean(false) <==> exists i: nat :: Reached(xs, i) && xs[i] == Boolean(false)
    ensures AllOf(xs) == Boolean(true) <==> AllApprove(xs)
    ensures AllOf(xs) in {Error(NotABoolean), Boolean(false), Boolean(true)}
  {
    if !AllApprove(xs) {
      var i := FirstOther(xs);
      AllUntil(xs, i);
      forall j: nat | Reached(xs, j) && xs[j] != Boolean(true)
        ensures j == i
      {
        OneOther(xs, i, j);
        OneOther(xs, j, i);
      }
    } else {
      AllApproved(xs);
    }
  }

  lemma OneOther(xs: seq<Object>, i: nat, j: nat)
    requires Reached(xs, i) && Reached(xs, j) && xs[j] != Boolean(true)
    ensures i <= j
  {
    assert forall m | 0 <= m < i :: xs[m] == xs[..i][m];
  }

  lemma {:induction false} FirstOther(xs: seq<Object>) returns (i: nat)
    requires !AllApprove(xs)
    ensures Reached(xs, i) && xs[i] != Boolean(true)
  {
    if xs[0] != Boolean(true) {
      i := 0;
    } else {
      assert AllApprove(xs[1..]) ==> forall j | 0 < j < |xs| :: xs[j] == xs[1..][j - 1];
      i := FirstOther(xs[1..]);
      assert xs[1..][..i] == xs[1..i + 1];
      assert forall j | 0 < j < i + 1 :: xs[j] == xs[1..][..i][j - 1];
      i := i + 1;
    }
  }

  lemma {:induction false} AllUntil(xs: seq<Object>, i: nat)
    requires Reached(xs, i) && xs[i] != Boolean(true)
    ensures AllOf(xs) == if xs[i].Boolean? then Boolean(false) else Error(NotABoolean)
    decreases i
  {
    if i > 0 {
      assert xs[..i][0] == xs[0] && xs[1..][..i - 1] == xs[..i][1..];
      AllUntil(xs[1..], i - 1);
    }
  }

  lemma {:induction false} AllApproved(xs: seq<Object>)
    requires AllApprove(xs)
    ensures AllOf(xs) == Boolean(true)
  {
    if xs != [] {
      AllApproved(xs[1..]);
    }
  }

  /** On any list: `any` with a positive threshold is TRUE exactly if the quorum is reached before
      the first non-boolean. */
  lemma AnyIsTrueExactly(k: int, xs: seq<Object>)
    requires k >= 1
    ensures AnyOf(k, xs) == Boolean(true) <==> exists i: nat :: i <= |xs| && AllBoolean(xs[..i]) && Trues(xs[..i]) >= k
  {
    BadOrAllBoolean(xs);
    if AllBoolean(xs) {
      AnyIsQuorum(k, xs);
      assert xs[..|xs|] == xs;
      forall i: nat | i <= |xs|
        ensures Trues(xs[..i]) <= Trues(xs)
      {
        TruesOfPrefix(xs, i);
      }
    } else {
      var n: nat :| FirstBad(xs, n);
      AnyUntilBad(k, xs, n);
      forall i: nat | i <= |xs| && AllBoolean(xs[..i])
        ensures Trues(xs[..i]) <= Trues(xs[..n])
      {
        assert forall m | 0 <= m < i :: xs[m] == xs[..i][m];
        TruesOfPrefix(xs[..n], i);
        assert xs[..n][..i] == xs[..i];
      }
    }
  }

  lemma {:induction false} TruesOfPrefix(xs: seq<Object>, i: nat)
    requires i <= |xs|
    ensures Trues(xs[..i]) <= Trues(xs)
  {
    if i > 0 {
      assert xs[..i][0] == xs[0] && xs[..i][1..] == xs[1..][..i - 1];
      TruesOfPrefix(xs[1..], i - 1);
    }
  }

  /** Without a positive threshold `any` answers FALSE or an Error, but for a threshold of zero
      and a refusal in front. */
  lemma {:induction false} AnyBelowOneExactly(k: int, xs: seq<Object>)
    requires k <= 0
    ensures AnyOf(k, xs) == if k == 0 && xs != [] && xs[0] == Boolean(false) then Boolean(true)
                            else if AllBoolean(xs) then Boolean(false)
                            else Error(NotABoolean)
    decreases |xs|
  {
    if xs != [] && xs[0].Boolean? && Below(k, xs[0].b) != 0 {
      AnyBelowOneExactly(Below(k, xs[0].b), xs[1..]);
      assert AllBoolean(xs[1..]) ==> forall i | 0 < i < |xs| :: xs[i] == xs[1..][i - 1];
    }
  }
}
