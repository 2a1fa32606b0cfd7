/** The batch of the transaction writer: a bounded channel that is filled by many writers and
    emptied, a snapshot at a time, under a mutex. */
module Batching {
  import opened Wrappers
  import opened Sequences

  /** A `Clear` under way: it read the length of the channel, and takes that many items. */
  datatype Clearing<T> = Clearing(size: nat, taken: seq<T>)

  /** `appended` and `cleared` are history: all items in the order of their `Append`, and the
      results of the finished calls of `Clear`. `clearing` is there while the mutex is held. */
  datatype Batch<T> = Batch(
    capacity: nat, messages: seq<T>, clearing: Option<Clearing<T>>, appended: seq<T>, cleared: seq<seq<T>>)

  function NewBatch<T>(capacity: nat): Batch<T> { Batch(capacity, [], None, [], []) }

  datatype Step<T> = Append(item: T) | Lock | Take | Unlock

  /** The batch after one step of one goroutine, or nothing if that step has to wait. */
  function After<T>(b: Batch<T>, step: Step<T>): Option<Batch<T>> {
    match step
    case Append(item) =>
      if |b.messages| >= b.capacity then None
      else Some(b.(messages := b.messages + [item], appended := b.appended + [item]))
    case Lock =>
      if b.clearing.Some? then None
      else Some(b.(clearing := Some(Clearing(|b.messages|, []))))
    case Take =>
      if b.clearing.None? || |b.clearing.value.taken| == b.clearing.value.size || b.messages == [] then None
      else Some(b.(messages := b.messages[1..],
                   clearing := Some(b.clearing.value.(taken := b.clearing.value.taken + [b.messages[0]]))))
    case Unlock =>
      if b.clearing.None? || |b.clearing.value.taken| != b.clearing.value.size then None
      else Some(b.(clearing := None, cleared := b.cleared + [b.clearing.value.taken]))
  }

  function Taken<T>(b: Batch<T>): seq<T> {
    if b.clearing.Some? then b.clearing.value.taken else []
  }

  function Flat<T>(batches: seq<seq<T>>): seq<T> {
    if batches == [] then [] else Flat(batches[..|batches| - 1]) + batches[|batches| - 1]
  }

  /** No item is lost, duplicated or reordered, no batch is larger than the channel, and a `Clear`
      finds in the channel everything it still wants. */
  ghost predicate Conserved<T>(b: Batch<T>) {
    && Flat(b.cleared) + Taken(b) + b.messages == b.appended
    && |b.messages| <= b.capacity
    && (forall i | 0 <= i < |b.cleared| :: |b.cleared[i]| <= b.capacity)
    && (b.clearing.Some? ==>
          |b.clearing.value.taken| <= b.clearing.value.size <= b.capacity
          && b.clearing.value.size - |b.clearing.value.taken| <= |b.messages|)
  }

  /** Every interleaving of `Append` and `Clear` conserves the items. */
  lemma StepConserves<T>(b: Batch<T>, step: Step<T>)
    requires Conserved(b) && After(b, step).Some?
    ensures Conserved(After(b, step).value)
  {
    hide Flat;
    match step
    case Append(item) =>
      Associate(Flat(b.cleared) + Taken(b), b.messages, [item]);
    case Lock =>
    case Take =>
      FrontMoves(Flat(b.cleared), Taken(b), b.messages);
    case Unlock =>
      FlatMore(b.cleared, Taken(b));
      AppendNothing(Flat(b.cleared) + Taken(b));
  }

  lemma FrontMoves<T>(flat: seq<T>, taken: seq<T>, messages: seq<T>)
    requires messages != []
    ensures flat + (taken + [messages[0]]) + messages[1..] == flat + taken + messages
  {
    assert messages == [messages[0]] + messages[1..];
    Associate(flat, taken, [messages[0]]);
    Associate(flat + taken, [messages[0]], messages[1..]);
  }

  lemma FlatMore<T>(batches: seq<seq<T>>, batch: seq<T>)
    ensures Flat(batches + [batch]) == Flat(batches) + batch
  {
    assert (batches + [batch])[..|batches|] == batches;
  }

  /** `Clear` never blocks on the channel: while it wants more, there is more. */
  lemma ClearNeverBlocks<T>(b: Batch<T>)
    requires Conserved(b) && b.clearing.Some?
    ensures After(b, Take).Some? || After(b, Unlock).Some?
  {}

  function RunBatch<T>(b: Batch<T>, steps: seq<Step<T>>): Option<Batch<T>>
    decreases |steps|
  {
    if steps == [] then Some(b)
    else match After(b, steps[0])
      case Some(next) => RunBatch(next, steps[1..])
      case None => None
  }

  /** What a sequence of steps appends. */
  function Appends<T>(steps: seq<Step<T>>): seq<T> {
    if steps == [] then []
    else (if steps[0].Append? then [steps[0].item] else []) + Appends(steps[1..])
  }

  /** Over every run: the cleared batches followed by what is being taken and what is in the
      channel are the appended items in order, and every batch fits the channel. */
  lemma {:induction false} RunConserves<T>(capacity: nat, steps: seq<Step<T>>)
    requires RunBatch(NewBatch(capacity), steps).Some?
    ensures var b := RunBatch(NewBatch(capacity), steps).value;
            Flat(b.cleared) + Taken(b) + b.messages == Appends(steps)
            && forall i | 0 <= i < |b.cleared| :: |b.cleared[i]| <= capacity
  {
    RunFrom(NewBatch(capacity), steps);
  }

  lemma {:induction false} RunFrom<T>(b: Batch<T>, steps: seq<Step<T>>)
    requires Conserved(b) && RunBatch(b, steps).Some?
    ensures Conserved(RunBatch(b, steps).value)
    ensures RunBatch(b, steps).value.appended == b.appended + Appends(steps)
    ensures RunBatch(b, steps).value.capacity == b.capacity
    decreases |steps|
  {
    hide Conserved;
    if steps != [] {
      StepConserves(b, steps[0]);
      var next := After(b, steps[0]).value;
      RunFrom(next, steps[1..]);
      var first := if steps[0].Append? then [steps[0].item] else [];
      assert next.appended == b.appended + first;
      assert b.appended + first + Appends(steps[1..]) == b.appended + (first + Appends(steps[1..]));
    }
  }

  /** The steps of one `Clear` that nobody interrupts. */
  function Takes<T>(n: nat): seq<Step<T>> { if n == 0 then [] else Takes(n - 1) + [Take] }

  lemma {:induction false} RunOneMore<T>(b: Batch<T>, steps: seq<Step<T>>, step: Step<T>)
    requires RunBatch(b, steps).Some?
    ensures RunBatch(b, steps + [step]) == After(RunBatch(b, steps).value, step)
    decreases |steps|
  {
    hide After;
    if steps == [] {
      AppendNothing([step]);
      assert [step][1..] == [];
    } else {
      assert (steps + [step])[0] == steps[0] && (steps + [step])[1..] == steps[1..] + [step];
      RunOneMore(After(b, steps[0]).value, steps[1..], step);
    }
  }

  /** The channel and its two methods, with the steps that they are. */
  class Channel<T> {
    const capacity: nat
    var messages: seq<T>
    ghost var batch: Batch<T>

    ghost predicate Valid()
      reads this
    {
      batch.capacity == capacity && batch.messages == messages && batch.clearing.None?
    }

    constructor (capacity: nat)
      ensures Valid() && batch == NewBatch(capacity) && this.capacity == capacity
    {
      this.capacity := capacity;
      messages := [];
      batch := NewBatch(capacity);
    }

    /** An attempt to send: on a full channel the call goes on waiting and has changed nothing. */
    method Append(item: T) returns (sent: bool, count: nat)
      requires Valid()
      modifies this
      ensures Valid() && (sent <==> old(After(batch, Step.Append(item))).Some?)
      ensures sent ==> Some(batch) == old(After(batch, Step.Append(item)))
      ensures sent ==> messages == old(messages) + [item] && count == |messages|
      ensures !sent ==> batch == old(batch) && messages == old(messages)
    {
      if |messages| >= capacity {
        return false, |messages|;
      }
      messages := messages + [item];
      batch := After(batch, Step.Append(item)).value;
      return true, |messages|;
    }

    method Clear() returns (items: seq<T>)
      requires Valid()
      modifies this
      ensures Valid() && Some(batch) == RunBatch(old(batch), [Lock] + Takes(|items|) + [Unlock])
      ensures items == old(messages) && messages == []
    {
      ghost var before, size := batch, |messages|;
      batch := After(batch, Lock).value;
      LockFirst(before, batch);
      items := [];
      for i := 0 to |messages|
        invariant i == |items| && items + messages == old(messages)
        invariant batch.messages == messages && batch.capacity == capacity && batch.clearing == Some(Clearing(size, items))
        invariant RunBatch(before, [Lock] + Takes(i)) == Some(batch)
      {
        RunOneMore(before, [Lock] + Takes(i), Take);
        Associate<Step<T>>([Lock], Takes(i), [Take]);
        batch := After(batch, Take).value;
        items := items + [messages[0]];
        messages := messages[1..];
      }
      RunOneMore(before, [Lock] + Takes(|items|), Unlock);
      batch := After(batch, Unlock).value;
    }
  }

  lemma LockFirst<T>(b: Batch<T>, locked: Batch<T>)
    requires After(b, Lock) == Some(locked)
    ensures RunBatch(b, [Lock] + Takes(0)) == Some(locked)
  {
    assert [Step<T>.Lock] + [] == [Lock] && [Step<T>.Lock][1..] == [];
  }
}
