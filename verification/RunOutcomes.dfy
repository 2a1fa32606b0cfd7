/** What the goroutines did on the way: runs from the start, their actions, and what the final
    state owes to them. */
module RunOutcomes {
  import opened Wrappers
  import opened Batching
  import opened Keychain
  import opened KeychainSafety
  import opened Delivery

  ghost predicate IsStart(s: State) {
    exists hasKeyHandler, hasSignHandler, capacity :: s == Initial(hasKeyHandler, hasSignHandler, capacity)
  }

  /** Careful handlers took these actions, one after the other, and this is the state now. */
  ghost predicate Ran(start: State, actions: seq<Action>, s: State) {
    IsStart(start) && Careful(actions) && Keychain.Run(start, actions) == Some(s)
  }

  lemma RanSafely(start: State, actions: seq<Action>, s: State)
    requires Ran(start, actions, s)
    ensures Safe(s)
  {
    hide Safe, Keychain.Run, Initial;
    var hasKeyHandler, hasSignHandler, capacity :| start == Initial(hasKeyHandler, hasSignHandler, capacity);
    InitialIsSafe(hasKeyHandler, hasSignHandler, capacity);
    RunIsSafe(start, actions);
  }

  /** The state before the last action. */
  lemma RanBefore(start: State, actions: seq<Action>, last: Action, s: State) returns (before: State)
    requires Ran(start, actions + [last], s)
    ensures Ran(start, actions, before) && Do(before, last) == Some(s)
    ensures !last.RespondAgain? && Safe(before)
  {
    hide IsStart, Do, Safe;
    assert forall i | 0 <= i < |actions| :: actions[i] == (actions + [last])[i];
    assert (actions + [last])[|actions|] == last;
    RunBefore(start, actions, last);
    before := Keychain.Run(start, actions).value;
    RunThen(start, actions, last);
    RanSafely(start, actions, before);
  }

  lemma {:induction false} RunBefore(s: State, actions: seq<Action>, last: Action)
    requires Keychain.Run(s, actions + [last]).Some?
    ensures Keychain.Run(s, actions).Some?
    decreases |actions|
  {
    hide Do;
    if actions != [] {
      assert (actions + [last])[0] == actions[0] && (actions + [last])[1..] == actions[1..] + [last];
      RunBefore(Do(s, actions[0]).value, actions[1..], last);
    }
  }

  lemma NothingRan(start: State, s: State)
    requires Ran(start, [], s)
    ensures s == start && s.handlers == [] && s.flushes == [] && s.batch.appended == [] && !s.flusher.Sending?
    ensures s.keys.Polling? && s.signs.Polling?
  {}

  // ----- What was sent -----

  /** The results of sending, in the order of the run. */
  function SentResults(actions: seq<Action>): seq<Option<SendError>> {
    if actions == [] then []
    else
      var last := actions[|actions| - 1];
      SentResults(actions[..|actions| - 1]) + if last.Sent? then [last.result] else []
  }

  /** The results of the flushes that had something to send. */
  function RecordedResults(flushes: seq<Flush>): seq<Option<SendError>> {
    if flushes == [] then []
    else
      var last := flushes[|flushes| - 1];
      RecordedResults(flushes[..|flushes| - 1]) + if last.batch != [] then [last.result] else []
  }

  /** A flush is over without sending when its batch is empty, or when sending is. */
  lemma FlushesGrow(s: State, action: Action)
    requires Do(s, action).Some?
    ensures var next := Do(s, action).value;
            if action.Sent? then s.flusher.Sending? && next.flushes == s.flushes + [Flush(s.flusher.batch, action.result)]
            else next.flushes == s.flushes || next.flushes == s.flushes + [Flush([], None)]
    ensures var next := Do(s, action).value;
            next.flusher.Sending? ==> next.flusher.batch != [] || next.flusher == s.flusher
  {
    hide After;
  }

  /** Every flush that had something to send has the result that sending it gave, and each result
      of sending is that of one flush. */
  lemma {:induction false} FlushesRecordWhatWasSent(start: State, actions: seq<Action>, s: State)
    requires Ran(start, actions, s)
    ensures RecordedResults(s.flushes) == SentResults(actions)
    ensures s.flusher.Sending? ==> s.flusher.batch != []
    decreases |actions|
  {
    hide Ran, Do;
    if actions == [] {
      NothingRan(start, s);
    } else {
      var front, last := actions[..|actions| - 1], actions[|actions| - 1];
      assert front + [last] == actions;
      var before := RanBefore(start, front, last, s);
      FlushesRecordWhatWasSent(start, front, before);
      FlushesGrow(before, last);
      if s.flushes != before.flushes {
        assert s.flushes[..|s.flushes| - 1] == before.flushes;
      }
    }
  }

  /** The action `actions[i]` ended the sending of this batch with this result. */
  ghost predicate SentAt(start: State, actions: seq<Action>, i: nat, f: Flush) {
    && i < |actions| && actions[i] == Sent(f.result)
    && Keychain.Run(start, actions[..i]).Some?
    && Keychain.Run(start, actions[..i]).value.flusher == Sending(f.batch)
  }

  lemma {:induction false} FlushWasSent(start: State, actions: seq<Action>, s: State, k: nat) returns (i: nat)
    requires Ran(start, actions, s) && k < |s.flushes| && s.flushes[k].batch != []
    ensures SentAt(start, actions, i, s.flushes[k])
    decreases |actions|
  {
    hide Do;
    if actions == [] {
      NothingRan(start, s);
      assert false;
    } else {
      var front, last := actions[..|actions| - 1], actions[|actions| - 1];
      assert front + [last] == actions;
      var before := RanBefore(start, front, last, s);
      FlushesGrow(before, last);
      if k < |before.flushes| {
        i := FlushWasSent(start, front, before, k);
        assert front[..i] == actions[..i];
      } else {
        i := |front|;
      }
    }
  }

  // ----- What was responded -----

  ghost predicate NoResponse(actions: seq<Action>, t: nat) {
    forall i | 0 <= i < |actions| :: !(actions[i].Respond? && actions[i].t == t)
  }

  /** The handler `t` responded once in the run, with this response. */
  ghost predicate OnlyResponse(actions: seq<Action>, t: nat, response: Response) {
    exists i: nat :: RespondsAt(actions, i, t, response)
  }

  ghost predicate RespondsAt(actions: seq<Action>, i: nat, t: nat, response: Response) {
    && i < |actions| && actions[i] == Respond(t, response)
    && forall j | 0 <= j < |actions| && j != i :: !(actions[j].Respond? && actions[j].t == t)
  }

  lemma ResponseStays(actions: seq<Action>, last: Action, t: nat, response: Response)
    requires OnlyResponse(actions, t, response) && !(last.Respond? && last.t == t)
    ensures OnlyResponse(actions + [last], t, response)
  {
    var i: nat :| RespondsAt(actions, i, t, response);
    assert RespondsAt(actions + [last], i, t, response);
  }

  lemma FirstResponse(actions: seq<Action>, t: nat, response: Response)
    requires NoResponse(actions, t)
    ensures OnlyResponse(actions + [Respond(t, response)], t, response)
  {
    assert RespondsAt(actions + [Respond(t, response)], |actions|, t, response);
  }

  /** Before it responds a handler has not; then its response is the one it has to append; and an
      item carries the response of its owner. */
  ghost predicate ResponsesOk(s: State, actions: seq<Action>) {
    && (forall t | t >= |s.handlers| :: NoResponse(actions, t))
    && (forall t | 0 <= t < |s.handlers| && (s.handlers[t].at.Spawned? || s.handlers[t].at.Running?) ::
          NoResponse(actions, t))
    && (forall t | 0 <= t < |s.handlers| && s.handlers[t].at.Appending? ::
          OnlyResponse(actions, t, s.handlers[t].at.response))
    && ItemsCarry(s.batch.appended, actions)
  }

  ghost predicate ItemsCarry(items: seq<Item>, actions: seq<Action>) {
    forall p | 0 <= p < |items| :: OnlyResponse(actions, items[p].owner, items[p].response)
  }

  /** The handler is as it was, begins, is new, or has its response behind it. */
  predicate GoesOn(handlers: seq<Handler>, h: Handler, t: nat) {
    || (t < |handlers| && (h == handlers[t] || (h.at.Running? && handlers[t].at.Spawned?)))
    || (t >= |handlers| && h.at.Spawned?)
    || h.at.Abandoned? || Written(h.at)
  }

  /** An action that is no response changes nothing for those there were. */
  lemma OtherAction(s: State, next: State, actions: seq<Action>, last: Action)
    requires ResponsesOk(s, actions) && !last.Respond?
    requires |s.handlers| <= |next.handlers| && next.batch.appended == s.batch.appended
    requires forall t | 0 <= t < |next.handlers| :: GoesOn(s.handlers, next.handlers[t], t)
    ensures ResponsesOk(next, actions + [last])
  {
    hide OnlyResponse;
    forall t, response | OnlyResponse(actions, t, response)
      ensures OnlyResponse(actions + [last], t, response)
    {
      ResponseStays(actions, last, t, response);
    }
    forall t | NoResponse(actions, t)
      ensures NoResponse(actions + [last], t)
    {
    }
  }

  lemma OnAppend(s: State, actions: seq<Action>, t: nat)
    requires ResponsesOk(s, actions) && Do(s, Action.Append(t)).Some?
    ensures ResponsesOk(Do(s, Action.Append(t)).value, actions + [Action.Append(t)])
  {
    hide OnlyResponse, NoResponse;
    var next, last := Do(s, Action.Append(t)).value, Action.Append(t);
    var item := Item(t, s.handlers[t].request, s.handlers[t].at.response);
    assert next.batch.appended == s.batch.appended + [item];
    forall u, response | OnlyResponse(actions, u, response)
      ensures OnlyResponse(actions + [last], u, response)
    {
      ResponseStays(actions, last, u, response);
    }
    forall u | NoResponse(actions, u)
      ensures NoResponse(actions + [last], u)
    {
      NoResponseStays(actions, last, u);
    }
  }

  lemma NoResponseStays(actions: seq<Action>, last: Action, t: nat)
    requires NoResponse(actions, t) && !(last.Respond? && last.t == t)
    ensures NoResponse(actions + [last], t)
  {}

  lemma OnRespond(s: State, actions: seq<Action>, t: nat, response: Response)
    requires ResponsesOk(s, actions) && OwnersWrote(s.batch.appended, s.handlers)
    requires Do(s, Respond(t, response)).Some?
    ensures ResponsesOk(Do(s, Respond(t, response)).value, actions + [Respond(t, response)])
  {
    hide OnlyResponse, NoResponse;
    var next, last := Do(s, Respond(t, response)).value, Respond(t, response);
    FirstResponse(actions, t, response);
    forall u, r | OnlyResponse(actions, u, r) && u != t
      ensures OnlyResponse(actions + [last], u, r)
    {
      ResponseStays(actions, last, u, r);
    }
    forall u | NoResponse(actions, u) && u != t
      ensures NoResponse(actions + [last], u)
    {
      NoResponseStays(actions, last, u);
    }
  }

  /** Every message in the batch, and beyond, is the one response that its handler gave, to the
      request that it was started for. */
  lemma {:induction false} ItemsAreResponses(start: State, actions: seq<Action>, s: State)
    requires Ran(start, actions, s)
    ensures ResponsesOk(s, actions)
    ensures forall p | 0 <= p < |s.batch.appended| ::
              var item := s.batch.appended[p];
              item.owner < |s.handlers| && item.request == s.handlers[item.owner].request
              && OnlyResponse(actions, item.owner, item.response)
    decreases |actions|
  {
    RanSafely(start, actions, s);
    hide Ran, Safe, OnlyResponse;
    if actions == [] {
      NothingRan(start, s);
    } else {
      var front, last := actions[..|actions| - 1], actions[|actions| - 1];
      assert front + [last] == actions;
      var before := RanBefore(start, front, last, s);
      ItemsAreResponses(start, front, before);
      ResponsesStep(before, front, last);
    }
    SafeOwners(s);
  }

  lemma SafeOwners(s: State)
    requires Safe(s)
    ensures OwnersWrote(s.batch.appended, s.handlers)
  {}

  lemma ResponsesStep(s: State, actions: seq<Action>, last: Action)
    requires ResponsesOk(s, actions) && Safe(s) && !last.RespondAgain? && Do(s, last).Some?
    ensures ResponsesOk(Do(s, last).value, actions + [last])
  {
    SafeOwners(s);
    hide ResponsesOk, Safe;
    if last.Append? {
      OnAppend(s, actions, last.t);
    } else if last.Respond? {
      OnRespond(s, actions, last.t, last.response);
    } else {
      HandlersMove(s, last);
      OtherAction(s, Do(s, last).value, actions, last);
    }
  }

  lemma HandlersMove(s: State, action: Action)
    requires Do(s, action).Some? && !action.Append? && !action.Respond? && !action.RespondAgain?
    ensures var next := Do(s, action).value;
            && |s.handlers| <= |next.handlers| && next.batch.appended == s.batch.appended
            && forall t | 0 <= t < |next.handlers| :: GoesOn(s.handlers, next.handlers[t], t)
  {
    hide DoIngest, DoHandle, DoFlush, GoesOn;
    if Ingests(action) {
      HandlersOfIngest(s, action);
    } else if Handles(action) {
      HandlersOfHandle(s, action);
    } else {
      HandlersOfFlush(s, action);
    }
  }

  lemma HandlersOfIngest(s: State, action: Action)
    requires Ingests(action) && DoIngest(s, action).Some?
    ensures var next := DoIngest(s, action).value;
            && |s.handlers| <= |next.handlers| && next.batch == s.batch
            && forall t | 0 <= t < |next.handlers| :: GoesOn(s.handlers, next.handlers[t], t)
  {}

  lemma HandlersOfHandle(s: State, action: Action)
    requires Handles(action) && !action.Append? && !action.Respond? && DoHandle(s, action).Some?
    ensures var next := DoHandle(s, action).value;
            && |s.handlers| == |next.handlers| && next.batch == s.batch
            && forall t | 0 <= t < |next.handlers| :: GoesOn(s.handlers, next.handlers[t], t)
  {}

  lemma HandlersOfFlush(s: State, action: Action)
    requires Flushes(action) && DoFlush(s, action).Some?
    ensures var next := DoFlush(s, action).value;
            && |s.handlers| == |next.handlers| && next.batch.appended == s.batch.appended
            && forall t | 0 <= t < |next.handlers| :: GoesOn(s.handlers, next.handlers[t], t)
  {
    if !action.DeliverError? {
      assert DoFlush(s, action).value.handlers == s.handlers;
    }
  }

  // ----- What a `Write` returns -----

  /** A `Write` that returned has the result of the one sending whose batch had its message: the
      run sent a batch with that result, and the message in it is the response of the handler. */
  lemma ReturnedResultWasSent(start: State, actions: seq<Action>, s: State, t: nat) returns (i: nat, p: nat)
    requires Ran(start, actions, s) && t < |s.handlers|
    requires s.handlers[t].at.Answered? || s.handlers[t].at.Completed?
    ensures i < |actions| && actions[i] == Sent(s.handlers[t].at.result)
    ensures Keychain.Run(start, actions[..i]).Some?
    ensures var before := Keychain.Run(start, actions[..i]).value;
            && before.flusher.Sending? && p < |before.flusher.batch|
            && var item := before.flusher.batch[p];
               item.owner == t && item.request == s.handlers[t].request && OnlyResponse(actions, t, item.response)
  {
    RanSafely(start, actions, s);
    ItemsAreResponses(start, actions, s);
    hide Ran, Safe, ResponsesOk, OnlyResponse, Keychain.Run;
    ResultIsFlushed(s, t);
    var k: nat, q: nat :| IsAtPlace(s.flushes, k, q, t) && s.flushes[k].result == s.handlers[t].at.result;
    FlushedWasAppended(s, k, q);
    i := FlushWasSent(start, actions, s, k);
    p := q;
  }

  // ----- What was reported -----

  /** A poll reported the request. */
  ghost predicate Reported(actions: seq<Action>, r: Request) {
    exists i | 0 <= i < |actions| :: actions[i].Poll? && actions[i].kind == r.kind && r.id in actions[i].ids
  }

  /** The ids an ingester still has to look at. */
  function Ahead(i: Ingester): seq<nat> {
    match i
    case Polling => []
    case Going(ids) => ids
    case Checked(id, ids) => [id] + ids
    case Marked(_, ids) => ids
  }

  /** The tracker had the request at some time in the run. */
  ghost predicate WasTracked(start: State, actions: seq<Action>, r: Request) {
    exists i | 0 <= i <= |actions| :: TrackedAfter(start, actions[..i], r)
  }

  ghost predicate TrackedAfter(start: State, actions: seq<Action>, r: Request) {
    Keychain.Run(start, actions).Some? && r in Keychain.Run(start, actions).value.tracker
  }

  lemma TrackedStays(start: State, actions: seq<Action>, last: Action, r: Request)
    requires WasTracked(start, actions, r)
    ensures WasTracked(start, actions + [last], r)
  {
    hide TrackedAfter;
    var i :| 0 <= i <= |actions| && TrackedAfter(start, actions[..i], r);
    assert (actions + [last])[..i] == actions[..i];
  }

  lemma TrackedNow(start: State, actions: seq<Action>, s: State, r: Request)
    requires Keychain.Run(start, actions) == Some(s) && r in s.tracker
    ensures WasTracked(start, actions, r)
  {
    assert actions[..|actions|] == actions;
    assert TrackedAfter(start, actions[..|actions|], r);
  }

  lemma ReportedBefore(actions: seq<Action>, last: Action, r: Request)
    requires Reported(actions + [last], r)
    ensures Reported(actions, r) || (last.Poll? && last.kind == r.kind && r.id in last.ids)
  {
    var i :| 0 <= i < |actions + [last]| && (actions + [last])[i].Poll?
      && (actions + [last])[i].kind == r.kind && r.id in (actions + [last])[i].ids;
    assert i < |actions| ==> (actions + [last])[i] == actions[i];
  }

  /** One step of an ingester, and nothing of the other one. */
  lemma IngesterSteps(s: State, action: Action)
    requires Ingests(action) && DoIngest(s, action).Some?
    ensures var next, i := DoIngest(s, action).value, IngesterOf(s, action.kind);
            var j := IngesterOf(next, action.kind);
            && (action.Poll? ==> i.Polling? && j == Going(action.ids))
            && (action.Check? ==> i.Going? && (i.ids == [] ==> j.Polling?)
                                  && (i.ids != [] ==> if Request(action.kind, i.ids[0]) in s.tracker
                                                      then j == Going(i.ids[1..])
                                                      else j == Checked(i.ids[0], i.ids[1..])))
            && (action.Mark? ==> i.Checked? && j == Marked(i.id, i.ids) && Request(action.kind, i.id) in next.tracker)
            && (action.HandOff? ==> i.Marked? && j == Going(i.ids))
            && next.handlers == s.handlers + if action.HandOff? then [Handler(Request(action.kind, i.id), Spawned)] else []
    ensures forall kind | kind != action.kind :: IngesterOf(DoIngest(s, action).value, kind) == IngesterOf(s, kind)
  {}

  /** An id is left out only if its request is tracked. */
  lemma IdsMove(s: State, action: Action, kind: Kind, id: nat)
    requires Do(s, action).Some?
    requires id in Ahead(IngesterOf(s, kind)) || (action.Poll? && action.kind == kind && id in action.ids)
    ensures var next := Do(s, action).value;
            || id in Ahead(IngesterOf(next, kind))
            || Request(kind, id) in s.tracker || Request(kind, id) in next.tracker
  {
    hide DoIngest, DoHandle, DoFlush;
    if Ingests(action) {
      IngesterSteps(s, action);
      hide IngesterOf;
      var i := IngesterOf(s, kind);
      if i.Going? && i.ids != [] {
        assert i.ids == [i.ids[0]] + i.ids[1..];
      }
    } else {
      OthersStay(s, action);
    }
  }

  /** No reported request is passed over: it is tracked at some time, or still ahead. */
  lemma {:induction false} ReportsAreTracked(start: State, actions: seq<Action>, s: State, r: Request)
    requires Ran(start, actions, s) && Reported(actions, r)
    ensures WasTracked(start, actions, r) || r.id in Ahead(IngesterOf(s, r.kind))
    decreases |actions|
  {
    hide Do, WasTracked, Safe;
    if actions != [] {
      var front, last := actions[..|actions| - 1], actions[|actions| - 1];
      assert front + [last] == actions;
      var before := RanBefore(start, front, last, s);
      ReportedBefore(front, last, r);
      if Reported(front, r) {
        ReportsAreTracked(start, front, before, r);
      }
      if WasTracked(start, front, r) {
        TrackedStays(start, front, last, r);
      } else {
        IdsMove(before, last, r.kind, r.id);
        if r in before.tracker {
          TrackedNow(start, front, before, r);
        } else if r in s.tracker {
          TrackedNow(start, actions, s, r);
        }
      }
    }
  }

  /** When an ingester is done with what it was told, all of it has been tracked. */
  lemma NoRequestIsPassedOver(start: State, actions: seq<Action>, s: State, r: Request)
    requires Ran(start, actions, s) && Reported(actions, r) && IngesterOf(s, r.kind).Polling?
    ensures WasTracked(start, actions, r)
  {
    ReportsAreTracked(start, actions, s, r);
  }

  /** And handlers are started for reported requests only. */
  ghost predicate OnlyReported(s: State, actions: seq<Action>) {
    && (forall t | 0 <= t < |s.handlers| :: Reported(actions, s.handlers[t].request))
    && (forall kind, id | id in Ahead(IngesterOf(s, kind)) || MarkedAs(IngesterOf(s, kind), id) ::
          Reported(actions, Request(kind, id)))
  }

  lemma {:induction false} HandlersAreReported(start: State, actions: seq<Action>, s: State)
    requires Ran(start, actions, s)
    ensures OnlyReported(s, actions)
    decreases |actions|
  {
    hide Ran, Do, Safe, OnlyReported;
    if actions == [] {
      NothingRan(start, s);
      NothingReported(s);
    } else {
      var front, last := actions[..|actions| - 1], actions[|actions| - 1];
      assert front + [last] == actions;
      var before := RanBefore(start, front, last, s);
      HandlersAreReported(start, front, before);
      ReportedStep(before, front, last);
    }
  }

  lemma NothingReported(s: State)
    requires s.handlers == [] && s.keys.Polling? && s.signs.Polling?
    ensures OnlyReported(s, [])
  {}

  lemma ReportedStep(s: State, actions: seq<Action>, last: Action)
    requires OnlyReported(s, actions) && Do(s, last).Some?
    ensures OnlyReported(Do(s, last).value, actions + [last])
  {
    hide DoIngest, DoHandle, DoFlush, Reported, OnlyReported;
    var next := Do(s, last).value;
    ReportsStay(s, actions, last);
    if last.Poll? {
      ReportedNow(actions, last);
    }
    if Ingests(last) {
      ReportedByIngest(s, last, actions + [last]);
    } else {
      OthersStay(s, last);
      ReportedOtherwise(s, next, actions + [last]);
    }
  }

  lemma ReportsStay(s: State, actions: seq<Action>, last: Action)
    requires OnlyReported(s, actions)
    ensures OnlyReported(s, actions + [last])
  {
    hide Reported;
    forall r | Reported(actions, r)
      ensures Reported(actions + [last], r)
    {
      ReportedStays(actions, last, r);
    }
  }

  lemma ReportedByIngest(s: State, last: Action, actions: seq<Action>)
    requires OnlyReported(s, actions) && Ingests(last) && DoIngest(s, last).Some?
    requires last.Poll? ==> forall id | id in last.ids :: Reported(actions, Request(last.kind, id))
    ensures OnlyReported(DoIngest(s, last).value, actions)
  {
    IngesterSteps(s, last);
    hide Reported, DoIngest, IngesterOf;
  }

  /** The steps of the other goroutines leave the ingesters and the requests alone. */
  lemma OthersStay(s: State, last: Action)
    requires !Ingests(last) && Do(s, last).Some?
    ensures var next := Do(s, last).value;
            && next.keys == s.keys && next.signs == s.signs && |next.handlers| == |s.handlers|
            && forall t | 0 <= t < |s.handlers| :: next.handlers[t].request == s.handlers[t].request
  {
    hide After;
  }

  lemma ReportedOtherwise(s: State, next: State, actions: seq<Action>)
    requires OnlyReported(s, actions)
    requires next.keys == s.keys && next.signs == s.signs && |next.handlers| == |s.handlers|
    requires forall t | 0 <= t < |s.handlers| :: next.handlers[t].request == s.handlers[t].request
    ensures OnlyReported(next, actions)
  {
    hide Reported;
  }

  lemma ReportedStays(actions: seq<Action>, last: Action, r: Request)
    requires Reported(actions, r)
    ensures Reported(actions + [last], r)
  {
    var i :| 0 <= i < |actions| && actions[i].Poll? && actions[i].kind == r.kind && r.id in actions[i].ids;
    assert (actions + [last])[i] == actions[i];
  }

  lemma ReportedNow(actions: seq<Action>, last: Action)
    requires last.Poll?
    ensures forall id | id in last.ids :: Reported(actions + [last], Request(last.kind, id))
  {
    assert (actions + [last])[|actions|] == last;
  }

  // ----- Kinds without a handler function -----

  predicate HasFunction(s: State, kind: Kind) { if kind == Key then s.hasKeyHandler else s.hasSignHandler }

  ghost predicate OnlyWithFunction(s: State) {
    forall t | 0 <= t < |s.handlers| && !HasFunction(s, s.handlers[t].request.kind) ::
      s.handlers[t].at.Spawned? || s.handlers[t].at.Abandoned?
  }

  /** For a kind of request without a handler function no message is ever written. */
  lemma {:induction false} NoFunctionNoMessage(start: State, actions: seq<Action>, s: State)
    requires Ran(start, actions, s)
    ensures HasFunction(s, Key) == HasFunction(start, Key) && HasFunction(s, Sign) == HasFunction(start, Sign)
    ensures OnlyWithFunction(s)
    ensures forall p | 0 <= p < |s.batch.appended| :: HasFunction(s, s.batch.appended[p].request.kind)
    decreases |actions|
  {
    RanSafely(start, actions, s);
    SafeOwners(s);
    hide Ran, Do, Safe;
    if actions == [] {
      NothingRan(start, s);
    } else {
      var front, last := actions[..|actions| - 1], actions[|actions| - 1];
      assert front + [last] == actions;
      var before := RanBefore(start, front, last, s);
      NoFunctionNoMessage(start, front, before);
      SafeOwners(before);
      FunctionStep(before, last);
    }
  }

  lemma FunctionStep(s: State, action: Action)
    requires OnlyWithFunction(s) && !action.RespondAgain? && Do(s, action).Some?
    ensures OnlyWithFunction(Do(s, action).value)
    ensures SameFunctions(s, Do(s, action).value)
  {
    hide OnlyWithFunction, DoIngest, DoHandle, DoFlush;
    if Ingests(action) {
      FunctionOfIngest(s, action);
    } else if Handles(action) {
      FunctionOfHandle(s, action);
    } else {
      FunctionOfFlush(s, action);
    }
  }

  predicate SameFunctions(s: State, next: State) {
    next.hasKeyHandler == s.hasKeyHandler && next.hasSignHandler == s.hasSignHandler
  }

  lemma FunctionOfIngest(s: State, action: Action)
    requires OnlyWithFunction(s) && Ingests(action) && DoIngest(s, action).Some?
    ensures OnlyWithFunction(DoIngest(s, action).value) && SameFunctions(s, DoIngest(s, action).value)
  {}

  lemma FunctionOfHandle(s: State, action: Action)
    requires OnlyWithFunction(s) && Handles(action) && DoHandle(s, action).Some?
    ensures OnlyWithFunction(DoHandle(s, action).value) && SameFunctions(s, DoHandle(s, action).value)
  {
    hide After;
  }

  lemma FunctionOfFlush(s: State, action: Action)
    requires OnlyWithFunction(s) && Flushes(action) && DoFlush(s, action).Some?
    ensures OnlyWithFunction(DoFlush(s, action).value) && SameFunctions(s, DoFlush(s, action).value)
  {
    hide After;
    if !action.DeliverError? {
      assert DoFlush(s, action).value.handlers == s.handlers;
    }
  }

  // ----- What is closed -----

  /** The channels of these items are closed. */
  predicate AllClosed(items: seq<Item>, closed: set<nat>) { forall p | 0 <= p < |items| :: items[p].owner in closed }

  /** How many channels of the last batch are closed while the flusher is busy with it. */
  function Progressed(f: Flusher, batch: seq<Item>): nat {
    match f
    case Failing(_, _, _) => 0
    case Closing(_, _, next) => if next <= |batch| then next else |batch|
    case _ => |batch|
  }

  ghost predicate ChannelsOk(s: State) {
    && (forall k | 0 <= k < |s.flushes| - 1 :: AllClosed(s.flushes[k].batch, s.closed))
    && (s.flushes != [] ==>
          var batch := s.flushes[|s.flushes| - 1].batch;
          AllClosed(batch[..Progressed(s.flusher, batch)], s.closed))
  }

  /** After a flush, whatever its result, all its channels are closed. */
  lemma {:induction false} FlushedChannelsAreClosed(start: State, actions: seq<Action>, s: State)
    requires Ran(start, actions, s)
    ensures ChannelsOk(s)
    ensures !s.flusher.Failing? && !s.flusher.Closing? ==>
              forall k | 0 <= k < |s.flushes| :: AllClosed(s.flushes[k].batch, s.closed)
    decreases |actions|
  {
    hide Ran, Do, Safe, AllClosed;
    if actions == [] {
      NothingRan(start, s);
    } else {
      var front, last := actions[..|actions| - 1], actions[|actions| - 1];
      assert front + [last] == actions;
      var before := RanBefore(start, front, last, s);
      FlushedChannelsAreClosed(start, front, before);
      ChannelsStep(before, last);
      if s.flushes != [] {
        var batch := s.flushes[|s.flushes| - 1].batch;
        assert batch[..|batch|] == batch;
      }
    }
  }

  lemma ChannelsStep(s: State, action: Action)
    requires ChannelsOk(s) && Safe(s) && !action.RespondAgain? && Do(s, action).Some?
    ensures ChannelsOk(Do(s, action).value)
  {
    SafeFlusher(s);
    hide ChannelsOk, Safe, FlusherOk, DoIngest, DoHandle, DoFlush;
    if Ingests(action) || Handles(action) {
      FlusherStays(s, action);
      SameChannels(s, Do(s, action).value);
    } else {
      ChannelsOfFlush(s, action);
    }
  }

  lemma SafeFlusher(s: State)
    requires Safe(s)
    ensures FlusherOk(s)
  {}

  lemma FlusherStays(s: State, action: Action)
    requires (Ingests(action) || Handles(action)) && Do(s, action).Some?
    ensures var next := Do(s, action).value;
            next.flusher == s.flusher && next.flushes == s.flushes && next.closed == s.closed
  {
    hide After;
  }

  lemma SameChannels(s: State, next: State)
    requires ChannelsOk(s) && next.flusher == s.flusher && next.flushes == s.flushes && next.closed == s.closed
    ensures ChannelsOk(next)
  {}

  lemma ChannelsOfFlush(s: State, action: Action)
    requires ChannelsOk(s) && FlusherOk(s) && Flushes(action) && DoFlush(s, action).Some?
    ensures ChannelsOk(DoFlush(s, action).value)
  {
    match action
    case CloseNext => ChannelsOfClose(s);
    case Sent(result) => ChannelsOfResult(s, action, Flush(s.flusher.batch, result));
    case FinishClear => ChannelsOfResult(s, action, Flush([], None));
    case _ => ChannelsOfOther(s, action);
  }

  lemma ChannelsOfClose(s: State)
    requires ChannelsOk(s) && FlusherOk(s) && DoFlush(s, CloseNext).Some?
    ensures ChannelsOk(DoFlush(s, CloseNext).value)
  {
    hide AllClosed;
    var next := DoFlush(s, CloseNext).value;
    MoreClosed(s, next.closed);
    OneMoreClosed(s.flusher.batch, s.flusher.next, s.closed);
  }

  /** A new flush, of which nothing is closed yet. */
  lemma ChannelsOfResult(s: State, action: Action, f: Flush)
    requires ChannelsOk(s) && Flushes(action) && DoFlush(s, action).Some?
    requires (action == Sent(f.result) && s.flusher.Sending? && f.batch == s.flusher.batch)
          || (action.FinishClear? && s.flusher.Clearing? && f.batch == [])
    ensures ChannelsOk(DoFlush(s, action).value)
  {
    hide AllClosed, After;
    var next := DoFlush(s, action).value;
    NothingToClose(next.closed);
    assert f.batch[..0] == [];
    if s.flushes != [] {
      var batch := s.flushes[|s.flushes| - 1].batch;
      assert batch[..|batch|] == batch;
    }
  }

  lemma ChannelsOfOther(s: State, action: Action)
    requires ChannelsOk(s) && FlusherOk(s) && Flushes(action) && DoFlush(s, action).Some?
    requires !action.CloseNext? && !action.Sent? && !action.FinishClear?
    ensures ChannelsOk(DoFlush(s, action).value)
  {
    hide AllClosed, After;
    var next := DoFlush(s, action).value;
    assert next.flushes == s.flushes && next.closed == s.closed;
  }

  lemma NothingToClose(closed: set<nat>)
    ensures AllClosed([], closed)
  {}

  lemma MoreClosed(s: State, closed: set<nat>)
    requires s.closed <= closed
    ensures forall k | 0 <= k < |s.flushes| && AllClosed(s.flushes[k].batch, s.closed) ::
              AllClosed(s.flushes[k].batch, closed)
  {}

  lemma OneMoreClosed(batch: seq<Item>, n: nat, closed: set<nat>)
    requires n < |batch| && AllClosed(batch[..n], closed)
    ensures AllClosed(batch[..n + 1], closed + {batch[n].owner})
  {
    assert batch[..n + 1] == batch[..n] + [batch[n]];
  }
}
