/** What every interleaving of the keychain's goroutines keeps. */
module KeychainSafety {
  import opened Wrappers
  import opened Batching
  import opened Keychain

  /** The request of such a handler is not completed. */
  predicate Open(at: Progress) { !at.Completed? }

  predicate Live(at: Progress) { !at.Completed? && !at.Abandoned? }

  /** Its item is in the batch or beyond, and `Write` has not returned. */
  predicate Waiting(at: Progress) { at.Appended? || at.Receiving? }

  predicate Written(at: Progress) { at.Appended? || at.Receiving? || at.Answered? || at.Completed? }

  ghost predicate HasOpen(handlers: seq<Handler>, r: Request) {
    exists t | 0 <= t < |handlers| :: handlers[t].request == r && Open(handlers[t].at)
  }

  predicate MarkedAs(i: Ingester, id: nat) { i.Marked? && i.id == id }

  // Tracking

  ghost predicate OneOpen(handlers: seq<Handler>) {
    forall t, u | 0 <= t < u < |handlers| && Open(handlers[t].at) && Open(handlers[u].at) ::
      handlers[t].request != handlers[u].request
  }

  /** The trackers hold exactly the requests that were ingested and are not completed: those that
      wait for the dispatcher and those of the open handlers. */
  ghost predicate TracksOpen(s: State) {
    forall r :: r in s.tracker <==> HasOpen(s.handlers, r) || MarkedAs(IngesterOf(s, r.kind), r.id)
  }

  ghost predicate IngesterOk(s: State, kind: Kind) {
    match IngesterOf(s, kind)
    case Checked(id, _) => Request(kind, id) !in s.tracker
    case Marked(id, _) => !HasOpen(s.handlers, Request(kind, id))
    case _ => true
  }

  ghost predicate TrackingOk(s: State) {
    OneOpen(s.handlers) && TracksOpen(s) && IngesterOk(s, Key) && IngesterOk(s, Sign)
  }

  /** A handler that stays open, or stays closed, changes nothing for the trackers. */
  lemma TrackingOfMove(s: State, t: nat, at: Progress, next: State)
    requires TrackingOk(s) && t < |s.handlers| && Open(s.handlers[t].at) == Open(at)
    requires next.handlers == Move(s, t, at).handlers
    requires next.tracker == s.tracker && next.keys == s.keys && next.signs == s.signs
    ensures TrackingOk(next)
  {
    forall r
      ensures HasOpen(next.handlers, r) <==> HasOpen(s.handlers, r)
    {
      if u :| 0 <= u < |s.handlers| && s.handlers[u].request == r && Open(s.handlers[u].at) {
        assert next.handlers[u].request == r && Open(next.handlers[u].at);
      }
    }
  }

  lemma TrackingOfComplete(s: State, t: nat)
    requires TrackingOk(s) && t < |s.handlers| && s.handlers[t].at.Answered?
    ensures TrackingOk(Do(s, Complete(t)).value)
    ensures var next, done := Do(s, Complete(t)).value, s.handlers[t].request;
            next.tracker == s.tracker - {done} && done in s.tracker && !HasOpen(next.handlers, done)
  {
    var next := Do(s, Complete(t)).value;
    var done := s.handlers[t].request;
    forall r
      ensures HasOpen(next.handlers, r) <==> HasOpen(s.handlers, r) && r != done
    {
      if u :| 0 <= u < |s.handlers| && s.handlers[u].request == r && Open(s.handlers[u].at) {
        if r != done {
          assert next.handlers[u].request == r && Open(next.handlers[u].at);
        }
      }
    }
    assert HasOpen(s.handlers, done);
  }

  lemma TrackingOfIngest(s: State, action: Action)
    requires TrackingOk(s) && (action.Poll? || action.Check? || action.Mark?)
    requires DoIngest(s, action).Some?
    ensures TrackingOk(DoIngest(s, action).value)
    ensures action.Mark? ==>
              var added := Request(action.kind, IngesterOf(s, action.kind).id);
              added !in s.tracker && DoIngest(s, action).value.tracker == s.tracker + {added}
  {
    hide HasOpen, OneOpen;
    var next := DoIngest(s, action).value;
    assert next.handlers == s.handlers;
    if action.Mark? {
      assert !HasOpen(s.handlers, Request(action.kind, IngesterOf(s, action.kind).id));
    }
  }

  lemma TrackingOfHandOff(s: State, kind: Kind)
    requires TrackingOk(s) && DoIngest(s, HandOff(kind)).Some?
    ensures TrackingOk(DoIngest(s, HandOff(kind)).value)
    ensures var next, id := DoIngest(s, HandOff(kind)).value, IngesterOf(s, kind).id;
            next.handlers == s.handlers + [Handler(Request(kind, id), Spawned)] && next.tracker == s.tracker
            && IngesterOf(next, kind).Going?
  {
    var next := DoIngest(s, HandOff(kind)).value;
    var added := Request(kind, IngesterOf(s, kind).id);
    forall r
      ensures HasOpen(next.handlers, r) <==> HasOpen(s.handlers, r) || r == added
    {
      if u :| 0 <= u < |s.handlers| && s.handlers[u].request == r && Open(s.handlers[u].at) {
        assert next.handlers[u] == s.handlers[u];
      }
      assert next.handlers[|s.handlers|] == Handler(added, Spawned);
    }
  }

  // Delivery

  /** The items the flusher holds and has not delivered. */
  function Held(f: Flusher): seq<Item> {
    match f
    case Sending(batch) => batch
    case Failing(batch, _, next) => if next <= |batch| then batch[next..] else []
    case Closing(batch, None, next) => if next <= |batch| then batch[next..] else []
    case _ => []
  }

  /** The items on their way: with the flusher, being taken, in the channel. */
  function Undelivered(s: State): seq<Item> { Held(s.flusher) + (Taken(s.batch) + s.batch.messages) }

  function Batches(flushes: seq<Flush>): seq<seq<Item>> {
    if flushes == [] then [] else Batches(flushes[..|flushes| - 1]) + [flushes[|flushes| - 1].batch]
  }

  /** The item of `t` was in a flush with this result. */
  ghost predicate Flushed(flushes: seq<Flush>, t: nat, result: Option<SendError>) {
    exists k, p | 0 <= k < |flushes| && 0 <= p < |flushes[k].batch| ::
      flushes[k].batch[p].owner == t && flushes[k].result == result
  }

  ghost predicate FlusherOk(s: State) {
    && (s.flusher.Clearing? <==> s.batch.clearing.Some?)
    && match s.flusher
       case Failing(batch, error, next) =>
         next <= |batch| && s.flushes != [] && s.flushes[|s.flushes| - 1] == Flush(batch, Some(error))
       case Closing(batch, result, next) =>
         next <= |batch| && s.flushes != [] && s.flushes[|s.flushes| - 1] == Flush(batch, result)
       case _ => true
  }

  predicate DistinctOwners(items: seq<Item>) {
    forall p, q | 0 <= p < q < |items| :: items[p].owner != items[q].owner
  }

  predicate OwnersWrote(items: seq<Item>, handlers: seq<Handler>) {
    forall p | 0 <= p < |items| ::
      items[p].owner < |handlers|
      && handlers[items[p].owner].request == items[p].request
      && Written(handlers[items[p].owner].at)
  }

  predicate IsSuffix(items: seq<Item>, all: seq<Item>) {
    |items| <= |all| && all[|all| - |items|..] == items
  }

  predicate OwnersWait(items: seq<Item>, handlers: seq<Handler>, closed: set<nat>) {
    forall p | 0 <= p < |items| ::
      items[p].owner < |handlers| && Waiting(handlers[items[p].owner].at) && items[p].owner !in closed
  }

  /** The items that got their error. */
  function Failed(f: Flusher): seq<Item> {
    match f
    case Failing(batch, _, next) => if next <= |batch| then batch[..next] else []
    case Closing(batch, Some(_), _) => batch
    case _ => []
  }

  predicate OwnersServed(items: seq<Item>, handlers: seq<Handler>) {
    forall p | 0 <= p < |items| ::
      items[p].owner < |handlers| && Written(handlers[items[p].owner].at) && !Waiting(handlers[items[p].owner].at)
  }

  ghost predicate OnTheWay(items: seq<Item>, t: nat) {
    exists p | 0 <= p < |items| :: items[p].owner == t
  }

  predicate ClosedWrote(closed: set<nat>, handlers: seq<Handler>) {
    forall t | t in closed :: t < |handlers| && Written(handlers[t].at)
  }

  /** A `Write` under way has its item on the way, or its batch was sent and its channel closed. */
  ghost predicate NoneLost(s: State) {
    forall t | 0 <= t < |s.handlers| && Waiting(s.handlers[t].at) ::
      OnTheWay(Undelivered(s), t) || (t in s.closed && Flushed(s.flushes, t, None))
  }

  /** A `Write` that returned has the result of a flush of its item. */
  ghost predicate ResultsFlushed(s: State) {
    forall t | 0 <= t < |s.handlers| && (s.handlers[t].at.Answered? || s.handlers[t].at.Completed?) ::
      Flushed(s.flushes, t, s.handlers[t].at.result)
  }

  ghost predicate DeliveryOk(s: State) {
    && FlusherOk(s)
    && DistinctOwners(s.batch.appended)
    && OwnersWrote(s.batch.appended, s.handlers)
    && IsSuffix(Undelivered(s), s.batch.appended)
    && OwnersWait(Undelivered(s), s.handlers, s.closed)
    && OwnersServed(Failed(s.flusher), s.handlers)
    && ClosedWrote(s.closed, s.handlers)
    && NoneLost(s)
    && ResultsFlushed(s)
  }

  /** The batches that were cleared are those that were flushed and the one being sent. */
  ghost predicate HistoryOk(s: State) {
    && Conserved(s.batch)
    && s.batch.cleared == Batches(s.flushes) + if s.flusher.Sending? then [s.flusher.batch] else []
  }

  lemma FlushedStays(flushes: seq<Flush>, f: Flush, t: nat, result: Option<SendError>)
    requires Flushed(flushes, t, result)
    ensures Flushed(flushes + [f], t, result)
  {
    var k, p :| 0 <= k < |flushes| && 0 <= p < |flushes[k].batch|
      && flushes[k].batch[p].owner == t && flushes[k].result == result;
    assert (flushes + [f])[k] == flushes[k];
  }

  /** Steps of ingesters, and of handlers outside `Write`, leave the writer alone. */
  lemma DeliveryOfOutside(s: State, next: State)
    requires DeliveryOk(s)
    requires next.batch == s.batch && next.flusher == s.flusher && next.closed == s.closed && next.flushes == s.flushes
    requires |s.handlers| <= |next.handlers|
    requires forall t | 0 <= t < |s.handlers| ::
               next.handlers[t].request == s.handlers[t].request
               && (next.handlers[t].at == s.handlers[t].at
                   || (!Written(s.handlers[t].at) && !Written(next.handlers[t].at))
                   || (s.handlers[t].at == Appended && next.handlers[t].at == Receiving)
                   || (s.handlers[t].at.Answered? && next.handlers[t].at == Completed(s.handlers[t].at.result)))
    requires forall t | |s.handlers| <= t < |next.handlers| :: next.handlers[t].at == Spawned
    ensures DeliveryOk(next)
  {
    hide Flushed, OnTheWay, IsSuffix;
    assert Undelivered(next) == Undelivered(s);
  }

  lemma DeliveryOfAppend(s: State, t: nat)
    requires DeliveryOk(s) && DoHandle(s, Action.Append(t)).Some?
    ensures DeliveryOk(DoHandle(s, Action.Append(t)).value)
    ensures !OnTheWay(Undelivered(s), t)
    ensures Undelivered(DoHandle(s, Action.Append(t)).value)
         == Undelivered(s) + [Item(t, s.handlers[t].request, s.handlers[t].at.response)]
  {
    hide Flushed, IsSuffix, OnTheWay, DistinctOwners, Undelivered, ClosedWrote;
    var next := DoHandle(s, Action.Append(t)).value;
    var item := Item(t, s.handlers[t].request, s.handlers[t].at.response);
    assert next.batch.appended == s.batch.appended + [item];
    OneMoreUndelivered(s, next, item);
    SuffixMore(Undelivered(s), s.batch.appended, item);
    OnTheWayMore(Undelivered(s), item);
    DistinctMore(s.batch.appended, item);
    WroteAfterMove(s.batch.appended, s.handlers, s.closed, t, Appended);
    NotClosedYet(s, t);
    NotOnTheWay(s, t);
  }

  lemma NotOnTheWay(s: State, t: nat)
    requires OwnersWait(Undelivered(s), s.handlers, s.closed) && t < |s.handlers| && !Waiting(s.handlers[t].at)
    ensures !OnTheWay(Undelivered(s), t)
  {
    hide Undelivered;
  }

  lemma NotClosedYet(s: State, t: nat)
    requires ClosedWrote(s.closed, s.handlers) && t < |s.handlers| && !Written(s.handlers[t].at)
    ensures t !in s.closed
  {}

  lemma OneMoreUndelivered(s: State, next: State, item: Item)
    requires next.flusher == s.flusher && Taken(next.batch) == Taken(s.batch)
    requires next.batch.messages == s.batch.messages + [item]
    ensures Undelivered(next) == Undelivered(s) + [item]
  {
    assert Taken(s.batch) + (s.batch.messages + [item]) == Taken(s.batch) + s.batch.messages + [item];
  }

  lemma SuffixMore(items: seq<Item>, all: seq<Item>, item: Item)
    requires IsSuffix(items, all)
    ensures IsSuffix(items + [item], all + [item])
  {}

  lemma DistinctMore(items: seq<Item>, item: Item)
    requires DistinctOwners(items) && forall p | 0 <= p < |items| :: items[p].owner != item.owner
    ensures DistinctOwners(items + [item])
  {}

  lemma OnTheWayMore(items: seq<Item>, item: Item)
    ensures forall t | OnTheWay(items, t) :: OnTheWay(items + [item], t)
    ensures OnTheWay(items + [item], item.owner)
  {
    forall t | OnTheWay(items, t)
      ensures OnTheWay(items + [item], t)
    {
      var p :| 0 <= p < |items| && items[p].owner == t;
      assert (items + [item])[p] == items[p];
    }
    assert (items + [item])[|items|] == item;
  }

  lemma DeliveryOfReceiveNil(s: State, t: nat)
    requires DeliveryOk(s) && DoHandle(s, ReceiveNil(t)).Some?
    ensures DeliveryOk(DoHandle(s, ReceiveNil(t)).value)
  {
    hide Flushed;
    var next := DoHandle(s, ReceiveNil(t)).value;
    assert Undelivered(next) == Undelivered(s);
    assert !OnTheWay(Undelivered(s), t);
  }

  /** Clearing moves items along and delivers none. */
  lemma DeliveryOfClearing(s: State, action: Action)
    requires DeliveryOk(s) && (action.StartClear? || action.TakeOne? || action.FinishClear?)
    requires DoFlush(s, action).Some?
    ensures DeliveryOk(DoFlush(s, action).value)
  {
    hide IsSuffix, DistinctOwners, OwnersWrote, OwnersWait, ClosedWrote, Undelivered, NoneLost, ResultsFlushed;
    UndeliveredStays(s, action);
    SameWay(s, DoFlush(s, action).value, Flush([], None));
  }

  lemma UndeliveredStays(s: State, action: Action)
    requires FlusherOk(s) && (action.StartClear? || action.TakeOne? || action.FinishClear?)
    requires DoFlush(s, action).Some?
    ensures Undelivered(DoFlush(s, action).value) == Undelivered(s)
  {
    if action.TakeOne? {
      FrontIsTaken(Taken(s.batch), s.batch.messages);
    }
  }

  lemma FrontIsTaken(taken: seq<Item>, messages: seq<Item>)
    requires messages != []
    ensures taken + [messages[0]] + messages[1..] == taken + messages
  {}

  /** Another flush in the history changes nothing for the goroutines. */
  lemma SameWay(s: State, next: State, f: Flush)
    requires NoneLost(s) && ResultsFlushed(s)
    requires Undelivered(next) == Undelivered(s) && next.handlers == s.handlers && next.closed == s.closed
    requires next.flushes == s.flushes || next.flushes == s.flushes + [f]
    ensures NoneLost(next) && ResultsFlushed(next)
  {
    hide Undelivered, Flushed, OnTheWay;
    forall t, result | Flushed(s.flushes, t, result)
      ensures Flushed(next.flushes, t, result)
    {
      FlushedStays(s.flushes, f, t, result);
    }
  }

  lemma DeliveryOfSent(s: State, result: Option<SendError>)
    requires DeliveryOk(s) && s.flusher.Sending?
    ensures DeliveryOk(DoFlush(s, Sent(result)).value)
  {
    hide IsSuffix, DistinctOwners, OwnersWrote, OwnersWait, ClosedWrote, NoneLost, ResultsFlushed;
    var next := DoFlush(s, Sent(result)).value;
    assert Undelivered(next) == Undelivered(s);
    SameWay(s, next, Flush(s.flusher.batch, result));
  }

  /** The item at the front leaves the way. */
  lemma FrontLeaves(s: State, next: State)
    requires IsSuffix(Undelivered(s), s.batch.appended) && DistinctOwners(s.batch.appended)
    requires next.batch == s.batch && Held(s.flusher) != [] && Held(next.flusher) == Held(s.flusher)[1..]
    ensures Undelivered(s) == [Held(s.flusher)[0]] + Undelivered(next)
    ensures IsSuffix(Undelivered(next), s.batch.appended)
    ensures forall t | OnTheWay(Undelivered(s), t) && t != Held(s.flusher)[0].owner :: OnTheWay(Undelivered(next), t)
    ensures forall p | 0 <= p < |Undelivered(next)| :: Undelivered(next)[p].owner != Held(s.flusher)[0].owner
  {
    var first, after := Held(s.flusher)[0], Undelivered(next);
    assert Undelivered(s) == [first] + after by {
      assert Held(s.flusher) == [first] + Held(next.flusher);
    }
    SuffixWithoutFront(first, after, s.batch.appended);
    OnTheWayBehind(first, after);
  }

  lemma SuffixWithoutFront(first: Item, after: seq<Item>, all: seq<Item>)
    requires IsSuffix([first] + after, all) && DistinctOwners(all)
    ensures IsSuffix(after, all)
    ensures forall p | 0 <= p < |after| :: after[p].owner != first.owner
  {
    var k := |all| - |after| - 1;
    assert all[k..][0] == first && all[k..][1..] == all[k + 1..] == after;
    assert forall p | 0 <= p < |after| :: after[p] == all[k + 1 + p];
  }

  lemma OnTheWayBehind(first: Item, after: seq<Item>)
    ensures forall t | OnTheWay([first] + after, t) && t != first.owner :: OnTheWay(after, t)
  {
    forall t | OnTheWay([first] + after, t) && t != first.owner
      ensures OnTheWay(after, t)
    {
      var p :| 0 <= p < |[first] + after| && ([first] + after)[p].owner == t;
      assert after[p - 1].owner == t;
    }
  }

  /** A handler gets its error, and its item leaves the way. */
  lemma DeliveryOfError(s: State)
    requires DeliveryOk(s) && DoFlush(s, DeliverError).Some?
    ensures DeliveryOk(DoFlush(s, DeliverError).value)
    ensures var next, item := DoFlush(s, DeliverError).value, s.flusher.batch[s.flusher.next];
            && Undelivered(s) == [item] + Undelivered(next)
            && s.handlers[item.owner].at == Receiving
            && next.handlers == Move(s, item.owner, Answered(Some(s.flusher.error))).handlers
  {
    hide DoFlush, Flushed, OnTheWay, IsSuffix, DistinctOwners, OwnersWrote, OwnersWait, OwnersServed, ClosedWrote,
      NoneLost, ResultsFlushed, Undelivered, Held, Failed;
    ErrorStep(s);
    var next, first := DoFlush(s, DeliverError).value, Held(s.flusher)[0];
    var at := Answered(Some(s.flusher.error));
    FrontLeaves(s, next);
    WroteAfterMove(s.batch.appended, s.handlers, s.closed, first.owner, at);
    WaitAfterFront(first, Undelivered(next), s.handlers, s.closed, at);
    ServedAfterMove(Failed(s.flusher), s.handlers, first, at);
    FlushedByLast(s.flushes, s.flusher.next);
    NoneLostAfterFront(s, next, first, at);
    ResultsAfterMove(s, next, first.owner, at);
  }

  lemma ErrorStep(s: State)
    requires FlusherOk(s) && DoFlush(s, DeliverError).Some?
    ensures FlusherOk(DoFlush(s, DeliverError).value)
    ensures s.flusher.Failing? && s.flusher.next < |s.flusher.batch|
    ensures var next, first := DoFlush(s, DeliverError).value, s.flusher.batch[s.flusher.next];
            && IsAt(s, first.owner, Receiving) && first.owner < |s.handlers|
            && next.handlers == s.handlers[first.owner := s.handlers[first.owner].(at := Answered(Some(s.flusher.error)))]
            && next.batch == s.batch && next.closed == s.closed && next.flushes == s.flushes
            && Held(s.flusher) == [first] + Held(next.flusher) && Failed(next.flusher) == Failed(s.flusher) + [first]
  {}

  lemma NoneLostAfterFront(s: State, next: State, first: Item, at: Progress)
    requires NoneLost(s) && first.owner < |s.handlers| && !Waiting(at)
    requires next.handlers == s.handlers[first.owner := s.handlers[first.owner].(at := at)]
    requires next.closed == s.closed && next.flushes == s.flushes
    requires forall t | OnTheWay(Undelivered(s), t) && t != first.owner :: OnTheWay(Undelivered(next), t)
    ensures NoneLost(next)
  {
    hide OnTheWay, Undelivered, Flushed;
  }

  lemma ResultsAfterMove(s: State, next: State, t: nat, at: Progress)
    requires ResultsFlushed(s) && t < |s.handlers| && at.Answered? && Flushed(s.flushes, t, at.result)
    requires next.handlers == s.handlers[t := s.handlers[t].(at := at)] && next.flushes == s.flushes
    ensures ResultsFlushed(next)
  {
    hide Flushed;
  }

  lemma WroteAfterMove(items: seq<Item>, handlers: seq<Handler>, closed: set<nat>, t: nat, at: Progress)
    requires OwnersWrote(items, handlers) && ClosedWrote(closed, handlers) && t < |handlers| && Written(at)
    ensures OwnersWrote(items, handlers[t := handlers[t].(at := at)])
    ensures ClosedWrote(closed, handlers[t := handlers[t].(at := at)])
  {}

  lemma WaitAfterFront(
      first: Item, after: seq<Item>, handlers: seq<Handler>, closed: set<nat>, at: Progress)
    requires OwnersWait([first] + after, handlers, closed) && first.owner < |handlers|
    requires forall p | 0 <= p < |after| :: after[p].owner != first.owner
    ensures OwnersWait(after, handlers[first.owner := handlers[first.owner].(at := at)], closed)
  {
    assert forall p | 0 <= p < |after| :: after[p] == ([first] + after)[p + 1];
  }

  lemma ServedAfterMove(items: seq<Item>, handlers: seq<Handler>, first: Item, at: Progress)
    requires OwnersServed(items, handlers) && first.owner < |handlers| && Written(at) && !Waiting(at)
    ensures OwnersServed(items + [first], handlers[first.owner := handlers[first.owner].(at := at)])
  {}

  lemma FlushedByLast(flushes: seq<Flush>, p: nat)
    requires flushes != [] && p < |flushes[|flushes| - 1].batch|
    ensures Flushed(flushes, flushes[|flushes| - 1].batch[p].owner, flushes[|flushes| - 1].result)
  {}

  /** The `Write` of `t` is under way, and its receive returns nil as soon as it gets there. */
  predicate WouldReturnNil(s: State, t: nat) { t < |s.handlers| && Waiting(s.handlers[t].at) && t in s.closed }

  /** After a successful flush the channels are closed one by one. */
  lemma DeliveryOfNil(s: State)
    requires DeliveryOk(s) && DoFlush(s, CloseNext).Some? && s.flusher.result.None?
    ensures DeliveryOk(DoFlush(s, CloseNext).value)
    ensures var next, item := DoFlush(s, CloseNext).value, s.flusher.batch[s.flusher.next];
            && Undelivered(s) == [item] + Undelivered(next)
            && Waiting(s.handlers[item.owner].at) && item.owner !in s.closed
            && forall t :: WouldReturnNil(next, t) <==> WouldReturnNil(s, t) || t == item.owner
  {
    hide Flushed, OnTheWay, IsSuffix, DistinctOwners;
    var next, first := DoFlush(s, CloseNext).value, Held(s.flusher)[0];
    FlushedByLast(s.flushes, s.flusher.next);
    assert first == s.flusher.batch[s.flusher.next];
    FrontLeaves(s, next);
    assert Undelivered(s)[0] == first;
    assert forall p | 0 <= p < |Undelivered(next)| :: Undelivered(next)[p] == Undelivered(s)[p + 1];
  }

  /** After a failed one, whose items have their error, closing makes no difference. */
  lemma DeliveryOfClose(s: State)
    requires DeliveryOk(s) && DoFlush(s, CloseNext).Some? && s.flusher.result.Some?
    ensures DeliveryOk(DoFlush(s, CloseNext).value)
    ensures Undelivered(DoFlush(s, CloseNext).value) == Undelivered(s)
    ensures forall t :: WouldReturnNil(DoFlush(s, CloseNext).value, t) <==> WouldReturnNil(s, t)
  {
    hide Flushed, OnTheWay, IsSuffix, DistinctOwners;
    var next := DoFlush(s, CloseNext).value;
    assert Undelivered(next) == Undelivered(s);
    assert Failed(s.flusher)[s.flusher.next] == s.flusher.batch[s.flusher.next];
    assert Failed(next.flusher) == Failed(s.flusher);
  }

  // Both, over every run

  ghost predicate Safe(s: State) { TrackingOk(s) && DeliveryOk(s) && HistoryOk(s) }

  lemma InitialIsSafe(hasKeyHandler: bool, hasSignHandler: bool, capacity: nat)
    ensures Safe(Initial(hasKeyHandler, hasSignHandler, capacity))
  {
    var s := Initial(hasKeyHandler, hasSignHandler, capacity);
    assert Undelivered(s) == [] && s.handlers == [] && s.batch.appended == [];
    assert TrackingOk(s) && HistoryOk(s);
    hide TrackingOk, HistoryOk, Undelivered, Initial;
    assert DeliveryOk(s);
  }

  /** Every step of every goroutine keeps the trackers right. */
  lemma StepTracks(s: State, action: Action)
    requires !action.RespondAgain? && TrackingOk(s) && Do(s, action).Some?
    ensures TrackingOk(Do(s, action).value)
  {
    hide TrackingOk, DoIngest, DoHandle, DoFlush;
    if Ingests(action) {
      if action.HandOff? {
        TrackingOfHandOff(s, action.kind);
      } else {
        TrackingOfIngest(s, action);
      }
    } else if action.Complete? {
      HandleMoves(s, action);
      TrackingOfComplete(s, action.t);
    } else if Handles(action) {
      HandleMoves(s, action);
      TrackingOfMove(s, action.t, DoHandle(s, action).value.handlers[action.t].at, DoHandle(s, action).value);
    } else {
      TrackingOfFlush(s, action);
    }
  }

  /** A handler's step moves that handler. */
  lemma HandleMoves(s: State, action: Action)
    requires Handles(action) && DoHandle(s, action).Some?
    ensures action.t < |s.handlers| == |DoHandle(s, action).value.handlers|
    ensures var next := DoHandle(s, action).value;
            && next.handlers == Move(s, action.t, next.handlers[action.t].at).handlers
            && next.keys == s.keys && next.signs == s.signs
            && Open(s.handlers[action.t].at)
            && (if action.Complete? then s.handlers[action.t].at.Answered?
                else Open(next.handlers[action.t].at) && next.tracker == s.tracker)
  {}

  lemma TrackingOfFlush(s: State, action: Action)
    requires TrackingOk(s) && Flushes(action) && DoFlush(s, action).Some?
    ensures TrackingOk(DoFlush(s, action).value)
  {
    hide OneOpen, HasOpen;
    if action.DeliverError? {
      var t := s.flusher.batch[s.flusher.next].owner;
      TrackingOfMove(s, t, Answered(Some(s.flusher.error)), DoFlush(s, action).value);
    } else {
      var next := DoFlush(s, action).value;
      assert next.handlers == s.handlers && next.tracker == s.tracker;
    }
  }

  /** Every step of every goroutine keeps the deliveries right. */
  lemma StepDelivers(s: State, action: Action)
    requires !action.RespondAgain? && DeliveryOk(s) && Do(s, action).Some?
    ensures DeliveryOk(Do(s, action).value)
  {
    hide DeliveryOk, DoIngest, DoHandle, DoFlush;
    if Ingests(action) {
      DeliveryOfIngest(s, action);
    } else if Handles(action) {
      DeliveryOfHandle(s, action);
    } else {
      DeliveryOfFlush(s, action);
    }
  }

  lemma DeliveryOfIngest(s: State, action: Action)
    requires DeliveryOk(s) && Ingests(action) && DoIngest(s, action).Some?
    ensures DeliveryOk(DoIngest(s, action).value)
  {
    hide DeliveryOk;
    DeliveryOfOutside(s, DoIngest(s, action).value);
  }

  lemma DeliveryOfHandle(s: State, action: Action)
    requires DeliveryOk(s) && Handles(action) && DoHandle(s, action).Some?
    ensures DeliveryOk(DoHandle(s, action).value)
  {
    hide DeliveryOk;
    if action.Append? {
      DeliveryOfAppend(s, action.t);
    } else if action.ReceiveNil? {
      DeliveryOfReceiveNil(s, action.t);
    } else {
      DeliveryOfOutside(s, DoHandle(s, action).value);
    }
  }

  lemma DeliveryOfFlush(s: State, action: Action)
    requires DeliveryOk(s) && Flushes(action) && DoFlush(s, action).Some?
    ensures DeliveryOk(DoFlush(s, action).value)
  {
    hide DeliveryOk;
    match action
    case Sent(result) => DeliveryOfSent(s, result);
    case DeliverError => DeliveryOfError(s);
    case AllDelivered => DeliveryOfEnd(s, action);
    case AllClosed => DeliveryOfEnd(s, action);
    case CloseNext =>
      if s.flusher.result.None? {
        DeliveryOfNil(s);
      } else {
        DeliveryOfClose(s);
      }
    case _ => DeliveryOfClearing(s, action);
  }

  lemma DeliveryOfEnd(s: State, action: Action)
    requires DeliveryOk(s) && (action.AllDelivered? || action.AllClosed?) && DoFlush(s, action).Some?
    ensures DeliveryOk(DoFlush(s, action).value)
  {
    hide Flushed, OnTheWay, IsSuffix, DistinctOwners;
    assert Undelivered(DoFlush(s, action).value) == Undelivered(s);
  }

  lemma StepRemembers(s: State, action: Action)
    requires !action.RespondAgain? && HistoryOk(s) && Do(s, action).Some?
    ensures HistoryOk(Do(s, action).value)
  {
    hide HistoryOk, DoIngest, DoHandle, DoFlush;
    if Ingests(action) {
      HistoryOfIngest(s, action);
    } else if Handles(action) {
      HistoryOfHandle(s, action);
    } else {
      HistoryOfFlush(s, action);
    }
  }

  lemma HistoryOfIngest(s: State, action: Action)
    requires HistoryOk(s) && Ingests(action) && DoIngest(s, action).Some?
    ensures HistoryOk(DoIngest(s, action).value)
  {
    hide Conserved, Batches;
  }

  lemma HistoryOfHandle(s: State, action: Action)
    requires HistoryOk(s) && Handles(action) && DoHandle(s, action).Some?
    ensures HistoryOk(DoHandle(s, action).value)
  {
    hide Conserved, Batches;
    if action.Append? {
      var h := s.handlers[action.t];
      StepConserves(s.batch, Batching.Append(Item(action.t, h.request, h.at.response)));
    }
  }

  lemma HistoryOfFlush(s: State, action: Action)
    requires HistoryOk(s) && Flushes(action) && DoFlush(s, action).Some?
    ensures HistoryOk(DoFlush(s, action).value)
  {
    hide Conserved, Batches;
    match action
    case StartClear => StepConserves(s.batch, Lock);
    case TakeOne => StepConserves(s.batch, Take);
    case FinishClear =>
      StepConserves(s.batch, Unlock);
      BatchesMore(s.flushes, Flush([], None));
    case Sent(result) => BatchesMore(s.flushes, Flush(s.flusher.batch, result));
    case _ =>
  }

  lemma BatchesMore(flushes: seq<Flush>, f: Flush)
    ensures Batches(flushes + [f]) == Batches(flushes) + [f.batch]
  {
    assert (flushes + [f])[..|flushes|] == flushes;
  }

  lemma {:induction false} RunIsSafe(s: State, actions: seq<Action>)
    requires Safe(s) && Careful(actions) && Run(s, actions).Some?
    ensures Safe(Run(s, actions).value)
    decreases |actions|
  {
    hide TrackingOk, DeliveryOk, HistoryOk, Do;
    if actions != [] {
      StepTracks(s, actions[0]);
      StepDelivers(s, actions[0]);
      StepRemembers(s, actions[0]);
      RunIsSafe(Do(s, actions[0]).value, actions[1..]);
    }
  }

  lemma ReachableIsSafe(s: State)
    requires Reachable(s)
    ensures Safe(s)
  {
    hide Safe, Run, Initial;
    var hasKeyHandler, hasSignHandler, capacity :| Leads(Initial(hasKeyHandler, hasSignHandler, capacity), s);
    var start := Initial(hasKeyHandler, hasSignHandler, capacity);
    var actions :| Careful(actions) && Run(start, actions) == Some(s);
    InitialIsSafe(hasKeyHandler, hasSignHandler, capacity);
    RunIsSafe(start, actions);
  }
}
