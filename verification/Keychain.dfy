/** The delivery protocol of the keychain SDK, as a state machine over the steps of its goroutines:
    one ingester for each kind of request, a handler for each request handed off, and the
    transaction writer that they share. */
module Keychain {
  import opened Wrappers
  import opened Batching

  datatype Kind = Key | Sign

  datatype Request = Request(kind: Kind, id: nat)

  datatype Response = Fulfilment | Rejection

  datatype SendError = SendError(code: nat)

  /** A message in the writer's batch; `owner` is the goroutine that waits on its `Done` channel. */
  datatype Item = Item(owner: nat, request: Request, response: Response)

  /** An ingester: asleep or querying, going through the ids it got, about to mark an id that the
      tracker does not have, or waiting for the dispatcher to take a marked request. */
  datatype Ingester =
    | Polling
    | Going(ids: seq<nat>)
    | Checked(id: nat, ids: seq<nat>)
    | Marked(id: nat, ids: seq<nat>)

  /** A handler goroutine. Inside `Write` it is appending, has appended, or is receiving from its
      `Done` channel; then it has the result, and then it has called `onComplete`. An abandoned one
      ended without a response. */
  datatype Progress =
    | Spawned
    | Running
    | Appending(response: Response)
    | Appended
    | Receiving
    | Answered(result: Option<SendError>)
    | Completed(result: Option<SendError>)
    | Abandoned

  datatype Handler = Handler(request: Request, at: Progress)

  /** The goroutine that flushes: sending a batch, passing the error to one item after another, or
      closing one `Done` channel after another. */
  datatype Flusher =
    | Idle
    | Clearing
    | Sending(batch: seq<Item>)
    | Failing(batch: seq<Item>, error: SendError, next: nat)
    | Closing(batch: seq<Item>, result: Option<SendError>, next: nat)

  /** A call of `Flush` that has the outcome of its batch. */
  datatype Flush = Flush(batch: seq<Item>, result: Option<SendError>)

  /** `tracker` holds both trackers, `closed` the owners of closed `Done` channels; `flushes` is
      history. */
  datatype State = State(
    hasKeyHandler: bool,
    hasSignHandler: bool,
    tracker: set<Request>,
    keys: Ingester,
    signs: Ingester,
    handlers: seq<Handler>,
    batch: Batch<Item>,
    flusher: Flusher,
    closed: set<nat>,
    flushes: seq<Flush>)

  function Initial(hasKeyHandler: bool, hasSignHandler: bool, capacity: nat): State {
    State(hasKeyHandler, hasSignHandler, {}, Polling, Polling, [], NewBatch(capacity), Idle, {}, [])
  }

  datatype Action =
    | Poll(kind: Kind, ids: seq<nat>)
    | Check(kind: Kind)
    | Mark(kind: Kind)
    | HandOff(kind: Kind)
    | Begin(t: nat)
    | Respond(t: nat, response: Response)
    | Leave(t: nat)
    | Append(t: nat)
    | Await(t: nat)
    | ReceiveNil(t: nat)
    | Complete(t: nat)
    | RespondAgain(t: nat, response: Response)
    | StartClear
    | TakeOne
    | FinishClear
    | Sent(result: Option<SendError>)
    | DeliverError
    | AllDelivered
    | CloseNext
    | AllClosed

  function IngesterOf(s: State, kind: Kind): Ingester { if kind == Key then s.keys else s.signs }

  function WithIngester(s: State, kind: Kind, i: Ingester): State {
    if kind == Key then s.(keys := i) else s.(signs := i)
  }

  predicate IsAt(s: State, t: nat, at: Progress) { t < |s.handlers| && s.handlers[t].at == at }

  function Move(s: State, t: nat, at: Progress): State
    requires t < |s.handlers|
  {
    s.(handlers := s.handlers[t := s.handlers[t].(at := at)])
  }

  function WithBatch(s: State, step: Step<Item>): Option<State> {
    match After(s.batch, step)
    case Some(batch) => Some(s.(batch := batch))
    case None => None
  }

  predicate Ingests(action: Action) { action.Poll? || action.Check? || action.Mark? || action.HandOff? }

  predicate Handles(action: Action) {
    action.Begin? || action.Respond? || action.Leave? || action.Append? || action.Await?
    || action.ReceiveNil? || action.Complete?
  }

  predicate Flushes(action: Action) { !Ingests(action) && !Handles(action) && !action.RespondAgain? }

  /** The state after one step, or nothing if the goroutine is not there or has to wait. */
  function Do(s: State, action: Action): Option<State> {
    if Ingests(action) then DoIngest(s, action)
    else if Handles(action) then DoHandle(s, action)
    else if action.RespondAgain? then DoAgain(s, action.t, action.response)
    else DoFlush(s, action)
  }

  /** What a careless handler does: it responds a second time, or panics after its response, which
      is recovered into a second one. */
  function DoAgain(s: State, t: nat, response: Response): Option<State> {
    if t < |s.handlers| && s.handlers[t].at.Completed? then Some(Move(s, t, Appending(response))) else None
  }

  /** A poll gets any ids from the chain, none if it fails. Handing off is a rendezvous with the
      dispatcher, which starts a goroutine for the request. */
  function DoIngest(s: State, action: Action): Option<State>
    requires Ingests(action)
  {
    var i := IngesterOf(s, action.kind);
    match action
    case Poll(kind, ids) => if i.Polling? then Some(WithIngester(s, kind, Going(ids))) else None
    case Check(kind) =>
      if !i.Going? then None
      else if i.ids == [] then Some(WithIngester(s, kind, Polling))
      else if Request(kind, i.ids[0]) in s.tracker then Some(WithIngester(s, kind, Going(i.ids[1..])))
      else Some(WithIngester(s, kind, Checked(i.ids[0], i.ids[1..])))
    case Mark(kind) =>
      if !i.Checked? then None
      else Some(WithIngester(s, kind, Marked(i.id, i.ids)).(tracker := s.tracker + {Request(kind, i.id)}))
    case HandOff(kind) =>
      if !i.Marked? then None
      else Some(WithIngester(s, kind, Going(i.ids))
                .(handlers := s.handlers + [Handler(Request(kind, i.id), Spawned)]))
  }

  /** `Respond` covers `Fulfil`, `Reject`, the rejection of a bad encryption key and the one that
      follows a panic. A handler may leave without a response, as when `Fulfil` fails to encrypt;
      it has to if its kind has no handler function. */
  function DoHandle(s: State, action: Action): Option<State>
    requires Handles(action)
  {
    var t := action.t;
    if t >= |s.handlers| then None
    else
      var h := s.handlers[t];
      match action
      case Begin(_) =>
        if h.at != Spawned then None
        else if (if h.request.kind == Key then s.hasKeyHandler else s.hasSignHandler) then Some(Move(s, t, Running))
        else Some(Move(s, t, Abandoned))
      case Respond(_, response) => if h.at == Running then Some(Move(s, t, Appending(response))) else None
      case Leave(_) => if h.at == Running then Some(Move(s, t, Abandoned)) else None
      case Append(_) =>
        if !h.at.Appending? then None
        else WithBatch(Move(s, t, Appended), Batching.Append(Item(t, h.request, h.at.response)))
      case Await(_) => if h.at == Appended then Some(Move(s, t, Receiving)) else None
      case ReceiveNil(_) => if h.at == Receiving && t in s.closed then Some(Move(s, t, Answered(None))) else None
      case Complete(_) =>
        if !h.at.Answered? then None
        else Some(Move(s, t, Completed(h.at.result)).(tracker := s.tracker - {h.request}))
  }

  /** `Flush`: clear the batch; send it; if that failed pass the error to every item, each time
      waiting for the receiver; close every channel. An empty batch is not sent. */
  function DoFlush(s: State, action: Action): Option<State>
    requires Flushes(action)
  {
    match action
    case StartClear =>
      if !s.flusher.Idle? then None else WithBatch(s.(flusher := Flusher.Clearing), Lock)
    case TakeOne =>
      if !s.flusher.Clearing? then None else WithBatch(s, Take)
    case FinishClear =>
      if !s.flusher.Clearing? then None
      else if Taken(s.batch) == [] then
        WithBatch(s.(flusher := Idle, flushes := s.flushes + [Flush([], None)]), Unlock)
      else WithBatch(s.(flusher := Sending(Taken(s.batch))), Unlock)
    case Sent(result) =>
      if !s.flusher.Sending? then None
      else
        var batch := s.flusher.batch;
        Some(s.(flusher := if result.Some? then Failing(batch, result.value, 0) else Closing(batch, None, 0),
                flushes := s.flushes + [Flush(batch, result)]))
    case DeliverError =>
      if !s.flusher.Failing? || s.flusher.next >= |s.flusher.batch| then None
      else
        var t := s.flusher.batch[s.flusher.next].owner;
        if !IsAt(s, t, Receiving) then None
        else Some(Move(s, t, Answered(Some(s.flusher.error)))
                  .(flusher := Failing(s.flusher.batch, s.flusher.error, s.flusher.next + 1)))
    case AllDelivered =>
      if !s.flusher.Failing? || s.flusher.next < |s.flusher.batch| then None
      else Some(s.(flusher := Closing(s.flusher.batch, Some(s.flusher.error), 0)))
    case CloseNext =>
      if !s.flusher.Closing? || s.flusher.next >= |s.flusher.batch| then None
      else Some(s.(closed := s.closed + {s.flusher.batch[s.flusher.next].owner},
                   flusher := Closing(s.flusher.batch, s.flusher.result, s.flusher.next + 1)))
    case AllClosed =>
      if !s.flusher.Closing? || s.flusher.next < |s.flusher.batch| then None
      else Some(s.(flusher := Idle))
  }

  function Run(s: State, actions: seq<Action>): Option<State>
    decreases |actions|
  {
    if actions == [] then Some(s)
    else match Do(s, actions[0])
      case Some(next) => Run(next, actions[1..])
      case None => None
  }

  /** Handlers respond at most once and do not panic after they did. */
  predicate Careful(actions: seq<Action>) { forall i | 0 <= i < |actions| :: !actions[i].RespondAgain? }

  /** Some run with careful handlers leads from one state to the other. */
  ghost predicate Leads(s: State, end: State) { exists actions :: Careful(actions) && Run(s, actions) == Some(end) }

  ghost predicate Reachable(s: State) {
    exists hasKeyHandler, hasSignHandler, capacity :: Leads(Initial(hasKeyHandler, hasSignHandler, capacity), s)
  }

  /** The requests of one kind that are being worked on; `tracker` in the state holds those of both. */
  class Tracker {
    const kind: Kind
    var ingested: set<nat>

    ghost function Requests(): set<Request>
      reads this
    {
      set id | id in ingested :: Request(kind, id)
    }

    constructor (kind: Kind)
      ensures this.kind == kind && Requests() == {}
    {
      this.kind := kind;
      ingested := {};
    }

    method IsNew(id: nat) returns (isNew: bool)
      ensures isNew <==> Request(kind, id) !in Requests()
    {
      isNew := id !in ingested;
    }

    method Ingested(id: nat)
      modifies this
      ensures Requests() == old(Requests()) + {Request(kind, id)}
    {
      ingested := ingested + {id};
    }

    method Done(id: nat)
      modifies this
      ensures Requests() == old(Requests()) - {Request(kind, id)}
    {
      ingested := ingested - {id};
    }
  }
}
