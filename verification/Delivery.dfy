/** What the keychain SDK promises, over all interleavings. */
module Delivery {
  import opened Wrappers
  import opened Batching
  import opened Keychain
  import opened KeychainSafety

  /** No request has two live handlers. */
  lemma AtMostOneLiveHandler(s: State, t: nat, u: nat)
    requires Reachable(s) && t < u < |s.handlers| && Live(s.handlers[t].at) && Live(s.handlers[u].at)
    ensures s.handlers[t].request != s.handlers[u].request
  {
    hide Reachable;
    ReachableIsSafe(s);
  }

  /** A tracker holds exactly the requests that were ingested and not completed. */
  lemma TrackerIsExact(s: State, r: Request)
    requires Reachable(s)
    ensures r in s.tracker <==> HasOpen(s.handlers, r) || MarkedAs(IngesterOf(s, r.kind), r.id)
    ensures !(HasOpen(s.handlers, r) && MarkedAs(IngesterOf(s, r.kind), r.id))
  {
    hide Reachable;
    ReachableIsSafe(s);
    assert IngesterOk(s, r.kind);
  }

  /** The channel, the batch being cleared and the one being sent never hold two messages for the
      same request. */
  lemma NoDuplicateMessages(s: State, p: nat, q: nat)
    requires Reachable(s) && p < q < |Undelivered(s)|
    ensures Undelivered(s)[p].request != Undelivered(s)[q].request
  {
    hide Reachable, Undelivered, NoneLost, ResultsFlushed, FlusherOk;
    ReachableIsSafe(s);
    var items, all := Undelivered(s), s.batch.appended;
    var k := |all| - |items|;
    assert items[p] == all[k + p] && items[q] == all[k + q];
  }

  predicate IsAtPlace(flushes: seq<Flush>, k: nat, p: nat, t: nat) {
    k < |flushes| && p < |flushes[k].batch| && flushes[k].batch[p].owner == t
  }

  /** A `Write` that returned has the result of a flush that had its item, and no other flush had
      it: the error if that flush failed, nil if it did not. */
  lemma WriteGetsItsOutcome(s: State, t: nat)
    requires Reachable(s) && t < |s.handlers| && (s.handlers[t].at.Answered? || s.handlers[t].at.Completed?)
    ensures exists k: nat, p: nat ::
              && IsAtPlace(s.flushes, k, p, t)
              && s.flushes[k].batch[p].request == s.handlers[t].request
              && s.flushes[k].result == s.handlers[t].at.result
    ensures forall k: nat, p: nat, l: nat, q: nat ::
              IsAtPlace(s.flushes, k, p, t) && IsAtPlace(s.flushes, l, q, t) ==> k == l && p == q
  {
    hide Reachable;
    ReachableIsSafe(s);
    ResultIsFlushed(s, t);
    var k: nat, p: nat :| IsAtPlace(s.flushes, k, p, t) && s.flushes[k].result == s.handlers[t].at.result;
    FlushedWasAppended(s, k, p);
    forall k: nat, p: nat, l: nat, q: nat | IsAtPlace(s.flushes, k, p, t) && IsAtPlace(s.flushes, l, q, t)
      ensures k == l && p == q
    {
      OneFlushOnly(s, k, p, l, q);
    }
  }

  lemma ResultIsFlushed(s: State, t: nat)
    requires Safe(s) && t < |s.handlers| && (s.handlers[t].at.Answered? || s.handlers[t].at.Completed?)
    ensures exists k: nat, p: nat :: IsAtPlace(s.flushes, k, p, t) && s.flushes[k].result == s.handlers[t].at.result
  {
    hide TrackingOk, HistoryOk;
    assert Flushed(s.flushes, t, s.handlers[t].at.result);
    var k, p :| 0 <= k < |s.flushes| && 0 <= p < |s.flushes[k].batch|
      && s.flushes[k].batch[p].owner == t && s.flushes[k].result == s.handlers[t].at.result;
    assert IsAtPlace(s.flushes, k, p, t);
  }

  lemma {:induction false} BatchesAt(flushes: seq<Flush>, k: nat)
    requires k < |flushes|
    ensures |Batches(flushes)| == |flushes| && Batches(flushes)[k] == flushes[k].batch
  {
    if k < |flushes| - 1 {
      BatchesAt(flushes[..|flushes| - 1], k);
    } else {
      BatchesLength(flushes[..k]);
    }
  }

  lemma {:induction false} BatchesLength(flushes: seq<Flush>)
    ensures |Batches(flushes)| == |flushes|
  {
    if flushes != [] {
      BatchesLength(flushes[..|flushes| - 1]);
    }
  }

  /** Where an item of a batch stands in the concatenation. */
  function Place(batches: seq<seq<Item>>, k: nat, p: nat): nat
    requires k < |batches|
  {
    |Flat(batches[..k])| + p
  }

  lemma {:induction false} FlatAt(batches: seq<seq<Item>>, k: nat, p: nat)
    requires k < |batches| && p < |batches[k]|
    ensures Place(batches, k, p) < |Flat(batches)| && Flat(batches)[Place(batches, k, p)] == batches[k][p]
    ensures Place(batches, k, p) < |Flat(batches[..k + 1])| <= |Flat(batches)|
  {
    var front := batches[..|batches| - 1];
    if k < |batches| - 1 {
      FlatAt(front, k, p);
      assert front[..k] == batches[..k] && front[..k + 1] == batches[..k + 1];
    } else {
      assert batches[..k] == front && batches[..k + 1] == batches;
    }
  }

  lemma PlacesDiffer(batches: seq<seq<Item>>, k: nat, p: nat, l: nat, q: nat)
    requires k < l < |batches| && p < |batches[k]| && q < |batches[l]|
    ensures Place(batches, k, p) < Place(batches, l, q)
  {
    FlatAt(batches[..l], k, p);
    assert batches[..l][..k] == batches[..k];
  }

  /** The flushed batches are a prefix of what was appended. */
  lemma FlushedWasAppended(s: State, k: nat, p: nat)
    requires Safe(s) && k < |s.flushes| && p < |s.flushes[k].batch|
    ensures k < |s.batch.cleared| && s.batch.cleared[k] == s.flushes[k].batch
    ensures Place(s.batch.cleared, k, p) < |s.batch.appended|
    ensures s.batch.appended[Place(s.batch.cleared, k, p)] == s.flushes[k].batch[p]
    ensures var item := s.flushes[k].batch[p];
            item.owner < |s.handlers| && s.handlers[item.owner].request == item.request
  {
    hide TrackingOk, NoneLost, ResultsFlushed, FlusherOk, Undelivered, Flat, Batches;
    BatchesAt(s.flushes, k);
    FlatAt(s.batch.cleared, k, p);
    var place := Place(s.batch.cleared, k, p);
    assert s.batch.appended == Flat(s.batch.cleared) + (Taken(s.batch) + s.batch.messages);
    assert s.batch.appended[place] == s.flushes[k].batch[p];
  }

  lemma OneFlushOnly(s: State, k: nat, p: nat, l: nat, q: nat)
    requires Safe(s) && k < |s.flushes| && p < |s.flushes[k].batch| && l < |s.flushes| && q < |s.flushes[l].batch|
    requires s.flushes[k].batch[p].owner == s.flushes[l].batch[q].owner
    ensures k == l && p == q
  {
    hide TrackingOk, HistoryOk, Undelivered, NoneLost, ResultsFlushed;
    FlushedWasAppended(s, k, p);
    FlushedWasAppended(s, l, q);
    if k < l {
      PlacesDiffer(s.batch.cleared, k, p, l, q);
    } else if l < k {
      PlacesDiffer(s.batch.cleared, l, q, k, p);
    }
  }

  /** No completion is lost: a `Write` that has appended and not returned has its item on the way
      to the flusher or with it, or it was sent without an error and its channel is closed. */
  lemma NoCompletionIsLost(s: State, t: nat)
    requires Reachable(s) && t < |s.handlers| && Waiting(s.handlers[t].at)
    ensures OnTheWay(Undelivered(s), t) || (t in s.closed && Flushed(s.flushes, t, None))
  {
    hide Reachable;
    ReachableIsSafe(s);
  }

  /** The flusher has a step of its own to take. */
  predicate FlusherSteps(s: State) {
    match s.flusher
    case Idle => Do(s, StartClear).Some?
    case Clearing => Do(s, TakeOne).Some? || Do(s, FinishClear).Some?
    case Sending(_) => Do(s, Sent(None)).Some?
    case Failing(_, _, _) => Do(s, DeliverError).Some? || Do(s, AllDelivered).Some?
    case Closing(_, _, _) => Do(s, CloseNext).Some? || Do(s, AllClosed).Some?
  }

  /** The flusher never gets stuck: it has a step to take, or it has an error for a handler that is
      about to receive, and then there is a step for that handler and after it one for the flusher. */
  lemma FlusherNeverStuck(s: State)
    requires Reachable(s)
    ensures FlusherSteps(s)
         || (s.flusher.Failing? && s.flusher.next < |s.flusher.batch|
             && var awaiting := Do(s, Await(s.flusher.batch[s.flusher.next].owner));
                awaiting.Some? && FlusherSteps(awaiting.value))
  {
    hide Reachable, FlusherSteps, TrackingOk, DeliveryOk, HistoryOk, Do;
    ReachableIsSafe(s);
    match s.flusher
    case Clearing => ClearingSteps(s);
    case Failing(_, _, _) => FailingSteps(s);
    case _ => OtherwiseSteps(s);
  }

  lemma ClearingSteps(s: State)
    requires Safe(s) && s.flusher.Clearing?
    ensures FlusherSteps(s)
  {
    hide TrackingOk, Flat, NoneLost, ResultsFlushed, OwnersWrote, OwnersWait, OwnersServed, DistinctOwners, Undelivered;
    ClearNeverBlocks(s.batch);
  }

  lemma FailingSteps(s: State)
    requires Safe(s) && s.flusher.Failing?
    ensures FlusherSteps(s)
         || (s.flusher.next < |s.flusher.batch|
             && var awaiting := Do(s, Await(s.flusher.batch[s.flusher.next].owner));
                awaiting.Some? && FlusherSteps(awaiting.value))
  {
    hide TrackingOk, HistoryOk, NoneLost, ResultsFlushed, OwnersWrote, OwnersServed, DistinctOwners, IsSuffix;
    if s.flusher.next < |s.flusher.batch| {
      assert Undelivered(s)[0] == s.flusher.batch[s.flusher.next];
    }
  }

  lemma OtherwiseSteps(s: State)
    requires Safe(s) && !s.flusher.Clearing? && !s.flusher.Failing?
    ensures FlusherSteps(s)
  {
    hide TrackingOk, HistoryOk, NoneLost, ResultsFlushed, OwnersWrote, OwnersWait, OwnersServed, DistinctOwners, Undelivered;
  }

  /** When nothing is on the way, every `Write` under way can return. */
  lemma NothingLeftWaiting(s: State, t: nat)
    requires Reachable(s) && Undelivered(s) == [] && t < |s.handlers| && Waiting(s.handlers[t].at)
    ensures Do(s, Await(t)).Some? || Do(s, ReceiveNil(t)).Some?
    ensures t in s.closed
  {
    NoCompletionIsLost(s, t);
  }

  /** Batches are flushed in the order of their items, and fit the channel. */
  lemma FlushesKeepOrder(s: State)
    requires Reachable(s) && !s.flusher.Sending?
    ensures Flat(Batches(s.flushes)) + Taken(s.batch) + s.batch.messages == s.batch.appended
    ensures forall k | 0 <= k < |s.flushes| :: |s.flushes[k].batch| <= s.batch.capacity
  {
    hide Reachable, Flat, Batches, TrackingOk, DeliveryOk;
    ReachableIsSafe(s);
    assert Batches(s.flushes) + [] == Batches(s.flushes);
    forall k | 0 <= k < |s.flushes|
      ensures |s.flushes[k].batch| <= s.batch.capacity
    {
      BatchesAt(s.flushes, k);
    }
  }

  /** With a batch size of zero no `Write` ever returns. */
  lemma NoCapacityNoReturn(s: State, t: nat)
    requires Reachable(s) && s.batch.capacity == 0 && t < |s.handlers|
    ensures !s.handlers[t].at.Answered? && !s.handlers[t].at.Completed?
  {
    if s.handlers[t].at.Answered? || s.handlers[t].at.Completed? {
      ReachableIsSafe(s);
      ResultIsFlushed(s, t);
      var k: nat, p: nat :| IsAtPlace(s.flushes, k, p, t) && s.flushes[k].result == s.handlers[t].at.result;
      FlushedWasAppended(s, k, p);
      assert false;
    }
  }

  // ----- Why handlers must be careful -----

  /** Some run leads there, with handlers that may respond again. */
  ghost predicate LeadsAnyhow(s: State, end: State) { exists actions :: Keychain.Run(s, actions) == Some(end) }

  lemma LeadsOn(s: State, mid: State, action: Action)
    requires LeadsAnyhow(s, mid) && Do(mid, action).Some?
    ensures LeadsAnyhow(s, Do(mid, action).value)
  {
    hide Do;
    var actions :| Keychain.Run(s, actions) == Some(mid);
    RunThen(s, actions, action);
  }

  lemma {:induction false} RunThen(s: State, actions: seq<Action>, action: Action)
    requires Keychain.Run(s, actions).Some?
    ensures Keychain.Run(s, actions + [action]) == Do(Keychain.Run(s, actions).value, action)
    decreases |actions|
  {
    hide Do;
    if actions == [] {
      assert [action][1..] == [] && actions + [action] == [action];
    } else {
      assert (actions + [action])[1..] == actions[1..] + [action];
      RunThen(Do(s, actions[0]).value, actions[1..], action);
    }
  }

  lemma LeadsNowhere(s: State)
    ensures LeadsAnyhow(s, s)
  {
    assert Keychain.Run(s, []) == Some(s);
  }

  /** `end` is `mid` but for what the handler `t` did, with one more item in the channel. */
  ghost predicate Queued(mid: State, end: State, t: nat, response: Response) {
    && t < |mid.handlers| == |end.handlers|
    && (forall u | 0 <= u < |mid.handlers| && u != t :: end.handlers[u] == mid.handlers[u])
    && end.batch.capacity == mid.batch.capacity
    && end.batch.messages == mid.batch.messages + [Item(t, mid.handlers[t].request, response)]
  }

  lemma AppendQueues(s: State, mid: State, t: nat, response: Response) returns (end: State)
    requires LeadsAnyhow(s, mid) && t < |mid.handlers| && mid.handlers[t].at == Appending(response)
    requires |mid.batch.messages| < mid.batch.capacity
    ensures LeadsAnyhow(s, end) && Queued(mid, end, t, response)
  {
    hide LeadsAnyhow;
    LeadsOn(s, mid, Action.Append(t));
    end := Do(mid, Action.Append(t)).value;
  }

  /** A new handler responds. */
  lemma NewHandlerQueues(s: State, mid: State, t: nat, response: Response) returns (end: State)
    requires LeadsAnyhow(s, mid) && t < |mid.handlers| && mid.handlers[t].at == Spawned
    requires if mid.handlers[t].request.kind == Key then mid.hasKeyHandler else mid.hasSignHandler
    requires |mid.batch.messages| < mid.batch.capacity
    ensures LeadsAnyhow(s, end) && Queued(mid, end, t, response)
  {
    hide LeadsAnyhow;
    LeadsOn(s, mid, Begin(t));
    var running := Do(mid, Begin(t)).value;
    LeadsOn(s, running, Respond(t, response));
    end := AppendQueues(s, Do(running, Respond(t, response)).value, t, response);
  }

  /** A request that is not tracked is ingested and handed off. */
  lemma RequestIsIngested(s: State, r: Request) returns (end: State)
    requires IngesterOf(s, r.kind).Polling? && r !in s.tracker
    ensures LeadsAnyhow(s, end) && end.handlers == s.handlers + [Handler(r, Spawned)] && end.batch == s.batch
    ensures end.hasKeyHandler == s.hasKeyHandler && end.hasSignHandler == s.hasSignHandler
  {
    hide LeadsAnyhow;
    LeadsNowhere(s);
    LeadsOn(s, s, Poll(r.kind, [r.id]));
    var polled := Do(s, Poll(r.kind, [r.id])).value;
    LeadsOn(s, polled, Check(r.kind));
    var checked := Do(polled, Check(r.kind)).value;
    LeadsOn(s, checked, Mark(r.kind));
    var marked := Do(checked, Mark(r.kind)).value;
    LeadsOn(s, marked, HandOff(r.kind));
    end := Do(marked, HandOff(r.kind)).value;
  }

  /** Whatever the state: if a handler that has completed its request responds again, and the
      request, still pending on the chain, is ingested again, there are two messages for it in the
      batch. So `NoDuplicateMessages` needs careful handlers, for any request and any responses. */
  lemma SecondResponseDuplicates(s: State, t: nat, again: Response, other: Response)
    requires t < |s.handlers| && s.handlers[t].at.Completed?
    requires var r := s.handlers[t].request;
             && r !in s.tracker && IngesterOf(s, r.kind).Polling?
             && (if r.kind == Key then s.hasKeyHandler else s.hasSignHandler)
    requires |s.batch.messages| + 2 <= s.batch.capacity
    ensures exists end :: LeadsAnyhow(s, end) &&
              end.batch.messages == s.batch.messages + [Item(|s.handlers|, s.handlers[t].request, other),
                                                        Item(t, s.handlers[t].request, again)]
  {
    hide LeadsAnyhow;
    var u, r := |s.handlers|, s.handlers[t].request;
    var ingested := RequestIsIngested(s, r);
    var queued := NewHandlerQueues(s, ingested, u, other);
    assert queued.handlers[t] == s.handlers[t];
    LeadsOn(s, queued, RespondAgain(t, again));
    var responding := Do(queued, RespondAgain(t, again)).value;
    var end := AppendQueues(s, responding, t, again);
    assert end.batch.messages == s.batch.messages + [Item(u, r, other), Item(t, r, again)];
  }
}
