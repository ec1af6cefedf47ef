/** `gateway/evidence_buffer.py`: a queue of evidence drained to a store by a background task and by flushes. */
module EvidenceBuffer {
  import opened Basics

  datatype Kind = ReceiptKind | StatsKind | RateLimitsKind | OtherKind

  datatype Item = Item(kind: Kind, tenant: Text, payload: Text)

  /** How many items `_collect_batch(max_items)` asks for: a missing or zero argument counts as the batch size. */
  function Limit(maxItems: Option<int>, maxBatchSize: int): int {
    var wanted := if maxItems.None? || maxItems.value == 0 then maxBatchSize else maxItems.value;
    if wanted < maxBatchSize then wanted else maxBatchSize
  }

  /** How many it gets. */
  function Taken(queue: seq<Item>, maxItems: Option<int>, maxBatchSize: int): (n: nat)
    ensures n <= |queue|
  {
    var limit := Limit(maxItems, maxBatchSize);
    if limit <= 0 then 0 else if limit < |queue| then limit else |queue|
  }

  // ----- the buffer used by one task at a time -----

  /** The store's answer to the `n`-th write: accepted, or an exception. */
  type Store = (Item, nat) -> bool

  /** An item of an unknown kind is counted as persisted without asking the store. */
  predicate Succeeds(store: Store, item: Item, n: nat) {
    item.kind.OtherKind? || store(item, n)
  }

  /** How many of the writes of a batch, the first being number `n`, succeed. */
  function Successes(store: Store, batch: seq<Item>, n: nat): (k: nat)
    ensures k <= |batch|
  {
    if batch == [] then 0
    else Successes(store, batch[..|batch| - 1], n) +
         (if Succeeds(store, batch[|batch| - 1], n + |batch| - 1) then 1 else 0)
  }

  class Buffer {
    const store: Store
    const maxBatchSize: int
    var queue: seq<Item>
    var attempted: seq<Item>
    var totalEnqueued: nat
    var totalPersisted: nat
    var flushErrors: nat
    var flushCount: nat

    constructor (store: Store, maxBatchSize: int)
      ensures this.store == store && this.maxBatchSize == maxBatchSize
      ensures queue == [] && attempted == [] && totalEnqueued == totalPersisted == flushErrors == flushCount == 0
    {
      this.store := store;
      this.maxBatchSize := maxBatchSize;
      queue, attempted := [], [];
      totalEnqueued, totalPersisted, flushErrors, flushCount := 0, 0, 0, 0;
    }

    /** Every item is pending, persisted, or failed. */
    predicate Valid()
      reads this
    {
      totalEnqueued == |queue| + totalPersisted + flushErrors && |attempted| == totalPersisted + flushErrors
    }

    method Enqueue(item: Item)
      requires Valid()
      modifies `queue, `totalEnqueued
      ensures Valid() && queue == old(queue) + [item] && totalEnqueued == old(totalEnqueued) + 1
    {
      queue := queue + [item];
      totalEnqueued := totalEnqueued + 1;
    }

    /** `_collect_batch` */
    method CollectBatch(maxItems: Option<int>) returns (batch: seq<Item>)
      modifies `queue
      ensures batch == old(queue)[..Taken(old(queue), maxItems, maxBatchSize)]
      ensures queue == old(queue)[Taken(old(queue), maxItems, maxBatchSize)..]
    {
      var limit := Limit(maxItems, maxBatchSize);
      batch := [];
      var i := 0;
      while i < limit
        invariant 0 <= i && i == |batch| <= |old(queue)| && (limit >= 0 ==> i <= limit) && (limit < 0 ==> i == 0)
        invariant batch == old(queue)[..i] && queue == old(queue)[i..]
      {
        if queue == [] {
          break;
        }
        batch := batch + [queue[0]];
        queue := queue[1..];
        i := i + 1;
      }
    }

    /** `_persist_batch`, undisturbed: every item is tried once, in order. */
    method PersistBatch(batch: seq<Item>)
      modifies `attempted, `totalPersisted, `flushErrors, `flushCount
      ensures attempted == old(attempted) + batch
      ensures totalPersisted == old(totalPersisted) + Successes(store, batch, |old(attempted)|)
      ensures flushErrors == old(flushErrors) + |batch| - Successes(store, batch, |old(attempted)|)
      ensures flushCount == old(flushCount) + 1
    {
      hide Successes, Succeeds;
      SuccessesOfNone(store, |attempted|);
      assert batch[..0] == [];
      for i := 0 to |batch|
        invariant attempted == old(attempted) + batch[..i]
        invariant totalPersisted == old(totalPersisted) + Successes(store, batch[..i], |old(attempted)|)
        invariant flushErrors == old(flushErrors) + i - Successes(store, batch[..i], |old(attempted)|)
        invariant flushCount == old(flushCount)
      {
        SuccessesNext(store, batch, i, |old(attempted)|);
        if Succeeds(store, batch[i], |attempted|) {
          totalPersisted := totalPersisted + 1;
        } else {
          flushErrors := flushErrors + 1;
        }
        attempted := attempted + [batch[i]];
      }
      assert batch[..|batch|] == batch;
      flushCount := flushCount + 1;
    }

    /** `flush` with nobody enqueueing meanwhile: it ends, every pending item has been tried in order, nothing is pending. */
    method Flush() returns (count: nat)
      requires Valid() && maxBatchSize >= 1
      modifies `queue, `attempted, `totalPersisted, `flushErrors, `flushCount
      ensures Valid() && queue == []
      ensures attempted == old(attempted) + old(queue)
      ensures count == |old(queue)|
      ensures totalPersisted == old(totalPersisted) + Successes(store, old(queue), |old(attempted)|)
    {
      hide Successes;
      count := 0;
      assert old(queue)[..0] == [];
      SuccessesOfNone(store, |attempted|);
      while queue != []
        invariant Valid() && count + |queue| == |old(queue)|
        invariant queue == old(queue)[count..] && attempted == old(attempted) + old(queue)[..count]
        invariant totalPersisted == old(totalPersisted) + Successes(store, old(queue)[..count], |old(attempted)|)
        decreases |queue|
      {
        ghost var taken := Taken(queue, Some(|queue|), maxBatchSize);
        var batch := CollectBatch(Some(|queue|));
        assert old(queue)[..count + taken] == old(queue)[..count] + batch;
        SuccessesConcat(store, old(queue)[..count], batch, |old(attempted)|);
        if batch != [] {
          PersistBatch(batch);
          count := count + |batch|;
        }
      }
      assert old(queue)[..count] == old(queue);
    }
  }

  lemma SuccessesOfNone(store: Store, n: nat)
    ensures Successes(store, [], n) == 0
  {
  }

  lemma SuccessesNext(store: Store, batch: seq<Item>, i: nat, n: nat)
    requires i < |batch|
    ensures Successes(store, batch[..i + 1], n) == Successes(store, batch[..i], n) + if Succeeds(store, batch[i], n + i) then 1 else 0
    ensures batch[..i + 1] == batch[..i] + [batch[i]]
  {
    assert batch[..i + 1][..i] == batch[..i];
  }

  lemma {:induction false} SuccessesConcat(store: Store, a: seq<Item>, b: seq<Item>, n: nat)
    ensures Successes(store, a + b, n) == Successes(store, a, n) + Successes(store, b, n + |a|)
    decreases |b|
  {
    if b == [] {
      assert a + b == a;
    } else {
      assert (a + b)[..|a + b| - 1] == a + b[..|b| - 1];
      SuccessesConcat(store, a, b[..|b| - 1], n);
    }
  }

  // ----- tasks interleaved at their awaits -----

  datatype Outcome = Persisted | Failed | Dropped

  datatype Settled = Settled(item: Item, outcome: Outcome)

  /**
   * Slot 0 of `tasks` is the drain loop, the others are calls of `flush`; each holds what is left of
   * the batch it is writing, the item being awaited first. The last two fields only record history:
   * what was enqueued, and what became of the items no longer held, both in order.
   */
  datatype State = State(
    queue: seq<Item>, tasks: seq<seq<Item>>, drainAlive: bool,
    totalEnqueued: nat, totalPersisted: nat, flushErrors: nat,
    enqueued: seq<Item>, settled: seq<Settled>)

  /**
   * What can happen between two awaits. `StartDrain`: `start` on a loop that is not running. `DrainTake`:
   * the drain loop's `get` returns and it collects more. `DrainTimeout`: its `get` times out and it
   * collects what there is. `FlushTake`: a flush goes round its loop. `Write`: the write a task awaits
   * ends, well or with an exception. `Cancel`: a task is cancelled; if it awaits a write, what is left
   * of its batch is lost.
   */
  datatype Step = Enqueue(item: Item) | StartDrain | DrainTake | DrainTimeout | FlushTake(slot: nat) | Write(slot: nat, ok: bool) | Cancel(slot: nat)

  function Start(slots: nat): State
    requires slots >= 1
  {
    State([], seq(slots, _ => []), true, 0, 0, 0, [], [])
  }

  function TakeBatch(s: State, slot: nat, n: nat): State
    requires slot < |s.tasks| && n <= |s.queue|
  {
    s.(queue := s.queue[n..], tasks := s.tasks[slot := s.queue[..n]])
  }

  /** The size of the drain loop's batch: the item it got, and as many more as `_collect_batch(max - 1)` gives. */
  function DrainBatchSize(queue: seq<Item>, maxBatchSize: int): (n: nat)
    requires queue != []
    ensures 1 <= n <= |queue|
  {
    1 + Taken(queue[1..], Some(maxBatchSize - 1), maxBatchSize)
  }

  predicate Idle(s: State, slot: nat) {
    slot < |s.tasks| && s.tasks[slot] == []
  }

  /** The first item of a task's batch is settled. */
  function SettleFirst(s: State, slot: nat, ok: bool): State
    requires slot < |s.tasks| && s.tasks[slot] != []
  {
    var last := Written(s.tasks[slot][0], ok);
    s.(tasks := s.tasks[slot := s.tasks[slot][1..]],
       totalPersisted := s.totalPersisted + (if last.outcome.Persisted? then 1 else 0),
       flushErrors := s.flushErrors + (if last.outcome.Failed? then 1 else 0),
       settled := s.settled + [last])
  }

  /** An item of an unknown kind is not written, and counts as persisted. */
  function Written(item: Item, ok: bool): Settled {
    Settled(item, if ok || item.kind.OtherKind? then Persisted else Failed)
  }

  function AllDropped(batch: seq<Item>): (r: seq<Settled>)
    ensures |r| == |batch| && forall i | 0 <= i < |r| :: r[i] == Settled(batch[i], Dropped)
  {
    seq(|batch|, i requires 0 <= i < |batch| => Settled(batch[i], Dropped))
  }

  function Drop(s: State, slot: nat): State
    requires slot < |s.tasks|
  {
    s.(tasks := s.tasks[slot := []], settled := s.settled + AllDropped(s.tasks[slot]), drainAlive := s.drainAlive && slot != 0)
  }

  /** The next state; None when the step cannot happen. */
  function Next(maxBatchSize: int, s: State, step: Step): Option<State>
    requires |s.tasks| >= 1
  {
    match step
    case Enqueue(item) =>
      Some(s.(queue := s.queue + [item], totalEnqueued := s.totalEnqueued + 1, enqueued := s.enqueued + [item]))
    case StartDrain => Some(s.(drainAlive := true))
    case DrainTake =>
      if s.drainAlive && Idle(s, 0) && s.queue != [] then Some(TakeBatch(s, 0, DrainBatchSize(s.queue, maxBatchSize))) else None
    case DrainTimeout =>
      if s.drainAlive && Idle(s, 0) then Some(TakeBatch(s, 0, Taken(s.queue, None, maxBatchSize))) else None
    case FlushTake(slot) =>
      if slot >= 1 && Idle(s, slot) && s.queue != [] then
        Some(TakeBatch(s, slot, Taken(s.queue, Some(|s.queue|), maxBatchSize)))
      else None
    case Write(slot, ok) => if slot < |s.tasks| && s.tasks[slot] != [] then Some(SettleFirst(s, slot, ok)) else None
    case Cancel(slot) => if slot < |s.tasks| then Some(Drop(s, slot)) else None
  }

  function Run(maxBatchSize: int, slots: nat, steps: seq<Step>): (r: Option<State>)
    requires slots >= 1
    ensures r.Some? ==> |r.value.tasks| == slots
  {
    if steps == [] then Some(Start(slots))
    else
      match Run(maxBatchSize, slots, steps[..|steps| - 1])
      case None => None
      case Some(s) => Next(maxBatchSize, s, steps[|steps| - 1])
  }

  // ----- conservation -----

  /** The items of all batches being written. */
  function InFlight(tasks: seq<seq<Item>>): multiset<Item> {
    if tasks == [] then multiset{} else multiset(tasks[0]) + InFlight(tasks[1..])
  }

  function Items(settled: seq<Settled>): (r: seq<Item>)
    ensures |r| == |settled| && forall i | 0 <= i < |r| :: r[i] == settled[i].item
  {
    seq(|settled|, i requires 0 <= i < |settled| => settled[i].item)
  }

  function Count(settled: seq<Settled>, outcome: Outcome): (k: nat)
    ensures k <= |settled|
  {
    if settled == [] then 0
    else Count(settled[..|settled| - 1], outcome) + (if settled[|settled| - 1].outcome == outcome then 1 else 0)
  }

  lemma AddFirst(m: multiset<Item>, a: multiset<Item>, b: multiset<Item>, c: multiset<Item>, d: multiset<Item>)
    requires a + b == c + d
    ensures (m + a) + b == (m + c) + d
  {
    assert (m + a) + b == m + (a + b);
    assert (m + c) + d == m + (c + d);
  }

  lemma RemoveLast(a: multiset<Item>, b: multiset<Item>, m: multiset<Item>)
    requires a + m == b + m
    ensures a == b
  {
    assert (a + m) - m == a;
    assert (b + m) - m == b;
  }

  lemma {:induction false} InFlightUpdate(tasks: seq<seq<Item>>, slot: nat, batch: seq<Item>)
    requires slot < |tasks|
    ensures InFlight(tasks[slot := batch]) + multiset(tasks[slot]) == InFlight(tasks) + multiset(batch)
  {
    if slot > 0 {
      assert tasks[slot := batch][1..] == tasks[1..][slot - 1 := batch];
      InFlightUpdate(tasks[1..], slot - 1, batch);
      AddFirst(multiset(tasks[0]), InFlight(tasks[1..][slot - 1 := batch]), multiset(tasks[slot]), InFlight(tasks[1..]), multiset(batch));
    } else {
      assert tasks[0 := batch][1..] == tasks[1..];
    }
  }

  lemma {:induction false} NothingInFlight(tasks: seq<seq<Item>>)
    requires forall i | 0 <= i < |tasks| :: tasks[i] == []
    ensures InFlight(tasks) == multiset{}
  {
    if tasks != [] {
      NothingInFlight(tasks[1..]);
    }
  }

  lemma ItemsConcat(a: seq<Settled>, b: seq<Settled>)
    ensures Items(a + b) == Items(a) + Items(b)
  {
  }

  lemma {:induction false} CountConcat(a: seq<Settled>, b: seq<Settled>, outcome: Outcome)
    ensures Count(a + b, outcome) == Count(a, outcome) + Count(b, outcome)
    decreases |b|
  {
    if b == [] {
      assert a + b == a;
    } else {
      assert (a + b)[..|a + b| - 1] == a + b[..|b| - 1];
      CountConcat(a, b[..|b| - 1], outcome);
    }
  }

  lemma {:induction false} CountDropped(batch: seq<Item>, outcome: Outcome)
    ensures Count(AllDropped(batch), outcome) == if outcome.Dropped? then |batch| else 0
    decreases |batch|
  {
    if batch != [] {
      assert AllDropped(batch)[..|batch| - 1] == AllDropped(batch[..|batch| - 1]);
      CountDropped(batch[..|batch| - 1], outcome);
    }
  }

  predicate ItemsConserved(s: State) {
    multiset(s.enqueued) == multiset(s.queue) + InFlight(s.tasks) + multiset(Items(s.settled))
  }

  predicate CountersCount(s: State) {
    && s.totalEnqueued == |s.enqueued|
    && s.totalPersisted == Count(s.settled, Persisted)
    && s.flushErrors == Count(s.settled, Failed)
  }

  lemma Regroup(a: multiset<Item>, b: multiset<Item>, c: multiset<Item>, d: multiset<Item>)
    ensures (a + b) + c + d == b + (c + a) + d && a + (b + c) + d == a + b + (d + c)
  {
  }

  lemma TakeConserves(s: State, slot: nat, n: nat)
    requires Idle(s, slot) && n <= |s.queue| && ItemsConserved(s)
    ensures ItemsConserved(TakeBatch(s, slot, n))
  {
    hide InFlight, Items;
    InFlightUpdate(s.tasks, slot, s.queue[..n]);
    assert s.queue == s.queue[..n] + s.queue[n..];
    assert multiset(s.queue) == multiset(s.queue[..n]) + multiset(s.queue[n..]);
    assert InFlight(TakeBatch(s, slot, n).tasks) + multiset(s.tasks[slot]) == InFlight(TakeBatch(s, slot, n).tasks);
    Regroup(multiset(s.queue[..n]), multiset(s.queue[n..]), InFlight(s.tasks), multiset(Items(s.settled)));
  }

  lemma WriteConserves(s: State, slot: nat, ok: bool)
    requires slot < |s.tasks| && s.tasks[slot] != [] && ItemsConserved(s)
    ensures ItemsConserved(SettleFirst(s, slot, ok))
  {
    hide InFlight, Items;
    var batch := s.tasks[slot];
    InFlightUpdate(s.tasks, slot, batch[1..]);
    assert batch == [batch[0]] + batch[1..];
    assert multiset(batch) == multiset{batch[0]} + multiset(batch[1..]);
    var last := [Written(batch[0], ok)];
    ItemsConcat(s.settled, last);
    assert Items(last) == [batch[0]];
    var held := InFlight(s.tasks[slot := batch[1..]]);
    assert held + multiset(batch) == (held + multiset{batch[0]}) + multiset(batch[1..]);
    RemoveLast(held + multiset{batch[0]}, InFlight(s.tasks), multiset(batch[1..]));
    Regroup(multiset(s.queue), held, multiset{batch[0]}, multiset(Items(s.settled)));
  }

  lemma DropConserves(s: State, slot: nat)
    requires slot < |s.tasks| && ItemsConserved(s)
    ensures ItemsConserved(Drop(s, slot))
  {
    hide InFlight, Items;
    var batch := s.tasks[slot];
    InFlightUpdate(s.tasks, slot, []);
    ItemsConcat(s.settled, AllDropped(batch));
    assert Items(AllDropped(batch)) == batch;
    var held := InFlight(s.tasks[slot := []]);
    assert InFlight(s.tasks) + multiset([]) == InFlight(s.tasks);
    Regroup(multiset(s.queue), held, multiset(batch), multiset(Items(s.settled)));
  }

  lemma StepConserves(maxBatchSize: int, s: State, step: Step)
    requires |s.tasks| >= 1 && ItemsConserved(s) && Next(maxBatchSize, s, step).Some?
    ensures ItemsConserved(Next(maxBatchSize, s, step).value)
  {
    hide InFlight, Taken, DrainBatchSize, TakeBatch, SettleFirst, Drop, Items;
    match step
    case Enqueue(item) =>
    case StartDrain =>
    case DrainTake => TakeConserves(s, 0, DrainBatchSize(s.queue, maxBatchSize));
    case DrainTimeout => TakeConserves(s, 0, Taken(s.queue, None, maxBatchSize));
    case FlushTake(slot) => TakeConserves(s, slot, Taken(s.queue, Some(|s.queue|), maxBatchSize));
    case Write(slot, ok) => WriteConserves(s, slot, ok);
    case Cancel(slot) => DropConserves(s, slot);
  }

  lemma StepCounts(maxBatchSize: int, s: State, step: Step)
    requires |s.tasks| >= 1 && CountersCount(s) && Next(maxBatchSize, s, step).Some?
    ensures CountersCount(Next(maxBatchSize, s, step).value)
  {
    hide Taken, DrainBatchSize;
    if step.Cancel? {
      hide Count, AllDropped;
      var dropped := AllDropped(s.tasks[step.slot]);
      CountConcat(s.settled, dropped, Persisted);
      CountConcat(s.settled, dropped, Failed);
      CountDropped(s.tasks[step.slot], Persisted);
      CountDropped(s.tasks[step.slot], Failed);
    } else if step.Write? {
      var settled := SettleFirst(s, step.slot, step.ok).settled;
      assert settled[..|settled| - 1] == s.settled;
    }
  }

  /**
   * Conservation: over every interleaving, every enqueued item is pending, in a batch being written, or
   * settled (persisted, failed, or dropped by a cancellation), exactly once; and the counters count.
   */
  lemma {:induction false} EvidenceConserved(maxBatchSize: int, slots: nat, steps: seq<Step>)
    requires slots >= 1 && Run(maxBatchSize, slots, steps).Some?
    ensures ItemsConserved(Run(maxBatchSize, slots, steps).value)
    ensures CountersCount(Run(maxBatchSize, slots, steps).value)
    decreases |steps|
  {
    hide ItemsConserved, CountersCount, Next;
    if steps == [] {
      StartConserved(slots);
    } else {
      EvidenceConserved(maxBatchSize, slots, steps[..|steps| - 1]);
      var s := Run(maxBatchSize, slots, steps[..|steps| - 1]).value;
      StepConserves(maxBatchSize, s, steps[|steps| - 1]);
      StepCounts(maxBatchSize, s, steps[|steps| - 1]);
    }
  }

  lemma StartConserved(slots: nat)
    requires slots >= 1
    ensures ItemsConserved(Start(slots)) && CountersCount(Start(slots))
  {
    NothingInFlight(Start(slots).tasks);
  }

  lemma {:induction false} CountsCover(settled: seq<Settled>)
    ensures Count(settled, Persisted) + Count(settled, Failed) + Count(settled, Dropped) == |settled|
    decreases |settled|
  {
    if settled != [] {
      CountsCover(settled[..|settled| - 1]);
    }
  }

  predicate AtRest(s: State) {
    s.queue == [] && forall i | 0 <= i < |s.tasks| :: s.tasks[i] == []
  }

  /** When a run comes to rest, `total_enqueued` exceeds `total_persisted + flush_errors` by exactly what cancellations dropped. */
  lemma CountersAtRest(maxBatchSize: int, slots: nat, steps: seq<Step>)
    requires slots >= 1 && Run(maxBatchSize, slots, steps).Some? && AtRest(Run(maxBatchSize, slots, steps).value)
    ensures var s := Run(maxBatchSize, slots, steps).value;
            && multiset(s.enqueued) == multiset(Items(s.settled))
            && s.totalEnqueued == s.totalPersisted + s.flushErrors + Count(s.settled, Dropped)
  {
    hide Run, Count, Items;
    EvidenceConserved(maxBatchSize, slots, steps);
    var s := Run(maxBatchSize, slots, steps).value;
    NothingInFlight(s.tasks);
    CountsCover(s.settled);
    assert |s.enqueued| == |multiset(s.enqueued)| && |Items(s.settled)| == |multiset(Items(s.settled))|;
  }

  // ----- order -----

  /** With one slot there is only the drain loop: what is settled, held and pending is what was enqueued, in order. */
  predicate InOrder(s: State)
    requires |s.tasks| == 1
  {
    s.enqueued == Items(s.settled) + s.tasks[0] + s.queue
  }

  /** With the drain loop alone, whatever is cancelled and restarted, items are settled in the order of enqueueing. */
  lemma {:induction false} DrainKeepsOrder(maxBatchSize: int, steps: seq<Step>)
    requires Run(maxBatchSize, 1, steps).Some?
    ensures InOrder(Run(maxBatchSize, 1, steps).value)
    decreases |steps|
  {
    hide Next;
    if steps != [] {
      DrainKeepsOrder(maxBatchSize, steps[..|steps| - 1]);
      StepKeepsOrder(maxBatchSize, Run(maxBatchSize, 1, steps[..|steps| - 1]).value, steps[|steps| - 1]);
    }
  }

  lemma StepKeepsOrder(maxBatchSize: int, s: State, step: Step)
    requires |s.tasks| == 1 && InOrder(s) && Next(maxBatchSize, s, step).Some?
    ensures InOrder(Next(maxBatchSize, s, step).value)
  {
    hide Taken, DrainBatchSize, TakeBatch, SettleFirst, Drop, Items;
    match step
    case Enqueue(item) =>
      assert Items(s.settled) + s.tasks[0] + s.queue + [item] == Items(s.settled) + s.tasks[0] + (s.queue + [item]);
    case StartDrain =>
    case DrainTake => TakeKeepsOrder(s, DrainBatchSize(s.queue, maxBatchSize));
    case DrainTimeout => TakeKeepsOrder(s, Taken(s.queue, None, maxBatchSize));
    case FlushTake(slot) =>
    case Write(slot, ok) => WriteKeepsOrder(s, ok);
    case Cancel(slot) => DropKeepsOrder(s);
  }

  lemma TakeKeepsOrder(s: State, n: nat)
    requires |s.tasks| == 1 && InOrder(s) && s.tasks[0] == [] && n <= |s.queue|
    ensures |TakeBatch(s, 0, n).tasks| == 1 && InOrder(TakeBatch(s, 0, n))
  {
    hide Items;
    assert s.queue == s.queue[..n] + s.queue[n..];
  }

  lemma WriteKeepsOrder(s: State, ok: bool)
    requires |s.tasks| == 1 && InOrder(s) && s.tasks[0] != []
    ensures |SettleFirst(s, 0, ok).tasks| == 1 && InOrder(SettleFirst(s, 0, ok))
  {
    hide Items;
    var last := [Written(s.tasks[0][0], ok)];
    ItemsConcat(s.settled, last);
    assert s.tasks[0] == Items(last) + s.tasks[0][1..];
  }

  lemma DropKeepsOrder(s: State)
    requires |s.tasks| == 1 && InOrder(s)
    ensures |Drop(s, 0).tasks| == 1 && InOrder(Drop(s, 0))
  {
    hide Items;
    ItemsConcat(s.settled, AllDropped(s.tasks[0]));
    assert Items(AllDropped(s.tasks[0])) == s.tasks[0];
  }

  /**
   * A flush beside the drain loop can overtake it: in this run `a` is enqueued first, the drain loop
   * holds it, and a flush settles `b` before it.
   */
  lemma FlushCanOvertake(a: Item, b: Item)
    ensures var steps := [Enqueue(a), DrainTake, Enqueue(b), FlushTake(1), Write(1, true), Write(0, true)];
            && Run(10, 2, steps).Some?
            && Run(10, 2, steps).value.enqueued == [a, b]
            && Run(10, 2, steps).value.settled == [Settled(b, Persisted), Settled(a, Persisted)]
  {
    hide Next, Run;
    var steps := [Enqueue(a), DrainTake, Enqueue(b), FlushTake(1), Write(1, true), Write(0, true)];
    var held := State([b], [[a], []], true, 2, 0, 0, [a, b], []);
    TwoEnqueued(a, b);
    OvertakeFrom(held, a, b);
    assert steps[..3] == [Enqueue(a), DrainTake, Enqueue(b)];
    RunOneMore(10, 2, steps, 3);
    RunOneMore(10, 2, steps, 4);
    RunOneMore(10, 2, steps, 5);
    assert steps[..6] == steps;
  }

  lemma RunOneMore(maxBatchSize: int, slots: nat, steps: seq<Step>, n: nat)
    requires slots >= 1 && n < |steps| && Run(maxBatchSize, slots, steps[..n]).Some?
    ensures Run(maxBatchSize, slots, steps[..n + 1]) == Next(maxBatchSize, Run(maxBatchSize, slots, steps[..n]).value, steps[n])
  {
    hide Next;
    assert steps[..n + 1][..n] == steps[..n];
  }

  lemma TwoEnqueued(a: Item, b: Item)
    ensures Run(10, 2, [Enqueue(a), DrainTake, Enqueue(b)]) == Some(State([b], [[a], []], true, 2, 0, 0, [a, b], []))
  {
    hide Run;
    var steps := [Enqueue(a), DrainTake, Enqueue(b)];
    RunNone(10, 2, steps);
    RunOneMore(10, 2, steps, 0);
    RunOneMore(10, 2, steps, 1);
    RunOneMore(10, 2, steps, 2);
    var one := Next(10, Start(2), Enqueue(a)).value;
    assert one.queue == [a] && one.tasks == [[], []] && one.enqueued == [a];
    var two := Next(10, one, DrainTake).value;
    assert two.queue == [] && two.tasks[0] == [a] && two.tasks[1] == [];
    assert two.tasks == [[a], []];
    var three := Next(10, two, Enqueue(b)).value;
    assert three.queue == [b] && three.enqueued == [a, b];
    assert steps[..3] == steps;
  }

  lemma RunNone(maxBatchSize: int, slots: nat, steps: seq<Step>)
    requires slots >= 1
    ensures Run(maxBatchSize, slots, steps[..0]) == Some(Start(slots))
  {
  }

  lemma OvertakeFrom(s: State, a: Item, b: Item)
    requires s == State([b], [[a], []], true, 2, 0, 0, [a, b], [])
    ensures Next(10, s, FlushTake(1)) == Some(State([], [[a], [b]], true, 2, 0, 0, [a, b], []))
    ensures Next(10, State([], [[a], [b]], true, 2, 0, 0, [a, b], []), Write(1, true)) ==
            Some(State([], [[a], []], true, 2, 1, 0, [a, b], [Settled(b, Persisted)]))
    ensures Next(10, State([], [[a], []], true, 2, 1, 0, [a, b], [Settled(b, Persisted)]), Write(0, true)) ==
            Some(State([], [[], []], true, 2, 2, 0, [a, b], [Settled(b, Persisted), Settled(a, Persisted)]))
  {
    var taken := Next(10, s, FlushTake(1)).value;
    assert taken.queue == [] && taken.tasks[0] == [a] && taken.tasks[1] == [b];
    assert taken.tasks == [[a], [b]];
    var first := Next(10, taken, Write(1, true)).value;
    assert first.tasks[0] == [a] && first.tasks[1] == [] && first.settled == [Settled(b, Persisted)];
    var second := Next(10, first, Write(0, true)).value;
    assert second.tasks[0] == [] && second.tasks[1] == [];
    assert first.tasks == [[a], []] && second.tasks == [[], []] && second.settled == [Settled(b, Persisted), Settled(a, Persisted)];
  }

  // ----- batch sizes -----

  /** A batch is as long as it can be: no longer than the queue, than the batch size, or than what is asked for, if anything is. */
  lemma TakenIsMost(queue: seq<Item>, maxItems: Option<int>, maxBatchSize: int, n: nat)
    ensures n <= Taken(queue, maxItems, maxBatchSize) <==>
            n == 0 || (n <= |queue| && n <= maxBatchSize && (maxItems == None || maxItems == Some(0) || n <= maxItems.value))
  {
  }

  /** How many items each way of taking moves from the front of the queue into the task's batch. */
  lemma TakesMove(maxBatchSize: int, s: State, slot: nat)
    requires |s.tasks| >= 1
    ensures var most := if maxBatchSize < |s.queue| then maxBatchSize else |s.queue|;
            var n := if most < 0 then 0 else most;
            var drained := if maxBatchSize >= 2 then n else if maxBatchSize == 1 && |s.queue| >= 2 then 2 else 1;
            && (s.drainAlive && s.tasks[0] == [] && s.queue != [] ==>
                  Next(maxBatchSize, s, DrainTake) == Some(s.(queue := s.queue[drained..], tasks := s.tasks[0 := s.queue[..drained]])))
            && (s.drainAlive && s.tasks[0] == [] ==>
                  Next(maxBatchSize, s, DrainTimeout) == Some(s.(queue := s.queue[n..], tasks := s.tasks[0 := s.queue[..n]])))
            && (0 < slot < |s.tasks| && s.tasks[slot] == [] && s.queue != [] ==>
                  Next(maxBatchSize, s, FlushTake(slot)) == Some(s.(queue := s.queue[n..], tasks := s.tasks[slot := s.queue[..n]])))
  {
  }

  /** A write that ends well, or of an unknown kind, counts one item as persisted; any other counts one error. */
  lemma WriteCounts(maxBatchSize: int, s: State, slot: nat, ok: bool)
    requires |s.tasks| >= 1 && slot < |s.tasks| && s.tasks[slot] != []
    ensures var next := Next(maxBatchSize, s, Write(slot, ok));
            var item := s.tasks[slot][0];
            && next.Some?
            && next.value.settled == s.settled + [Settled(item, if ok || item.kind == OtherKind then Persisted else Failed)]
            && next.value.totalPersisted == s.totalPersisted + (if ok || item.kind == OtherKind then 1 else 0)
            && next.value.flushErrors == s.flushErrors + (if ok || item.kind == OtherKind then 0 else 1)
            && next.value.tasks[slot] == s.tasks[slot][1..]
            && (forall i | 0 <= i < |s.tasks| && i != slot :: next.value.tasks[i] == s.tasks[i]) && next.value.queue == s.queue
  {
  }

  /** The places in a batch of the items that are of an unknown kind or that the store accepts. */
  function Accepted(store: Store, batch: seq<Item>, n: nat): set<nat> {
    set i: nat | i < |batch| && (batch[i].kind == OtherKind || store(batch[i], n + i))
  }

  lemma AcceptedMore(store: Store, batch: seq<Item>, n: nat)
    requires batch != []
    ensures var m := |batch| - 1;
            && m !in Accepted(store, batch[..m], n)
            && Accepted(store, batch, n) == Accepted(store, batch[..m], n) + (if Succeeds(store, batch[m], n + m) then {m} else {})
  {
  }

  lemma NoneAccepted(store: Store, n: nat)
    ensures Accepted(store, [], n) == {}
  {
  }

  /** Undisturbed too: of a batch, as many count as persisted as are accepted. */
  lemma {:induction false} SuccessesAre(store: Store, batch: seq<Item>, n: nat)
    ensures Successes(store, batch, n) == |Accepted(store, batch, n)|
    decreases |batch|
  {
    hide Accepted, Succeeds;
    if batch == [] {
      NoneAccepted(store, n);
    } else {
      SuccessesAre(store, batch[..|batch| - 1], n);
      AcceptedMore(store, batch, n);
    }
  }

  /** The drain loop's batch keeps to the batch size exactly when that is not 1: then `max - 1` is 0, which counts as no limit. */
  lemma DrainBatchBound(queue: seq<Item>, maxBatchSize: int)
    requires maxBatchSize >= 1 && |queue| >= 2
    ensures DrainBatchSize(queue, maxBatchSize) <= maxBatchSize <==> maxBatchSize != 1
  {
  }

  /** A flush takes at least one item per turn exactly when the batch size is positive; otherwise it goes round for ever. */
  lemma FlushProgress(queue: seq<Item>, maxBatchSize: int)
    requires queue != []
    ensures Taken(queue, Some(|queue|), maxBatchSize) >= 1 <==> maxBatchSize >= 1
    ensures Taken(queue, Some(|queue|), maxBatchSize) <= |queue|
  {
  }
}
