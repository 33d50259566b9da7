/** The bounded multi-producer, single-consumer ring of lib/internal_queue.h as a step machine.

    Every load, compare-and-swap and store on a shared cell is one step, so a run is an
    arbitrary interleaving of any number of producers and the consumer. The type of the slots
    and what a push writes into them is a parameter (Codec); CircularQueue.dfy supplies the
    three queues of the profiler.
  */
module InternalQueue {
  import opened Arithmetic

  /** How an item of type I is written into a reused slot of type H, one store at a time, and what the
      consumer hands on (type D). */
  datatype Codec<!H, !I, D> = Codec(
    steps: I -> nat,            // number of stores a push of the item makes
    write: (H, I, nat) -> H,    // the effect of store number n
    read: H -> D,               // what pop passes to its listener
    view: I -> D,               // what the listener should get for the item
    release: H -> H,            // what pop does to the slot before it gives it back
    clean: H -> bool,           // condition of a slot nobody owns
    accepts: I -> bool)         // items the queue is made for

  /** The slot after the first n stores of a push of item. */
  function Written<H, I, D>(c: Codec<H, I, D>, base: H, item: I, n: nat): H
  {
    if n == 0 then base else c.write(Written(c, base, item, n - 1), item, n - 1)
  }

  /** A slot that was clean before the push delivers the item, and is clean again once released. */
  ghost predicate Lawful<H(!new), I(!new), D>(c: Codec<H, I, D>)
  {
    forall base, item :: c.clean(base) && c.accepts(item) ==>
      var h := Written(c, base, item, c.steps(item));
      c.read(h) == c.view(item) && c.clean(c.release(h))
  }

  /** Where a producer is inside a push. `at` is the number of slots acquired by anyone when it loaded
      input, and `ticket` numbers its own acquisition; neither exists in the program. */
  datatype Producer<I> =
    | Attempting(item: I)
    | Loaded(item: I, cur: nat, at: nat)
    | Checked(item: I, cur: nat, at: nat)
    | Writing(item: I, slot: nat, ticket: nat, done: nat)

  datatype Consumer =
    | Waiting
    | LoadedOutput(cur: nat)
    | Found(cur: nat)
    | Reading(cur: nat)
    | Delivered(cur: nat)
    | Released(cur: nat)
    | Uncommitted(cur: nat)

  /** A successful acquisition: who acquired, for which item, and what the slot held then. */
  datatype Acquired<H, I> = Acquired(producer: nat, item: I, base: H)

  /** The shared cells (input, output, committed, holders), the private state of every thread, the
      failure counter, and a history: all acquisitions in order, the number of slots given back,
      everything delivered, and the number of pushes begun. */
  datatype State<H, I, D> = State(
    input: nat, output: nat, committed: seq<bool>, holders: seq<H>,
    producers: map<nat, Producer<I>>, consumer: Consumer, failures: nat,
    log: seq<Acquired<H, I>>, head: nat, delivered: seq<D>, attempts: nat)

  datatype Event<I> =
    | Begin(p: nat, item: I)
    | LoadInput(p: nat)
    | CheckFull(p: nat)
    | CompareAndSwap(p: nat)
    | WriteField(p: nat)
    | CommitWrite(p: nat)
    | LoadOutput
    | CheckEmpty
    | SeeCommitted
    | Deliver
    | Release
    | StoreUncommitted
    | StoreOutput

  /** advance(index) of the source. */
  function Advance(index: nat, capacity: nat): nat
    requires capacity > 0
  {
    (index + 1) % capacity
  }

  function Init<H, I, D>(capacity: nat, blank: H): State<H, I, D>
  {
    State(0, 0, seq(capacity, _ => false), seq(capacity, _ => blank), map[], Waiting, 0, [], 0, [], 0)
  }

  predicate Shaped<H, I, D>(capacity: nat, s: State<H, I, D>)
  {
    && capacity > 0
    && |s.committed| == |s.holders| == capacity
    && s.input < capacity && s.output < capacity
    && (forall p :: p in s.producers && s.producers[p].Writing? ==> s.producers[p].slot < capacity)
    && (s.consumer.Waiting? || s.consumer.cur < capacity)
  }

  /** The step is the next one of its thread. A producer that is not in the map is between pushes. */
  predicate Enabled<H, I, D>(c: Codec<H, I, D>, capacity: nat, s: State<H, I, D>, e: Event<I>)
    requires Shaped(capacity, s)
  {
    match e
    case Begin(p, item) => p !in s.producers && c.accepts(item)
    case LoadInput(p) => p in s.producers && s.producers[p].Attempting?
    case CheckFull(p) => p in s.producers && s.producers[p].Loaded?
    case CompareAndSwap(p) => p in s.producers && s.producers[p].Checked?
    case WriteField(p) =>
      p in s.producers && s.producers[p].Writing? && s.producers[p].done < c.steps(s.producers[p].item)
    case CommitWrite(p) =>
      p in s.producers && s.producers[p].Writing? && s.producers[p].done == c.steps(s.producers[p].item)
    case LoadOutput => s.consumer.Waiting?
    case CheckEmpty => s.consumer.LoadedOutput?
    case SeeCommitted => s.consumer.Found? && s.committed[s.consumer.cur]
    case Deliver => s.consumer.Reading?
    case Release => s.consumer.Delivered?
    case StoreUncommitted => s.consumer.Released?
    case StoreOutput => s.consumer.Uncommitted?
  }

  function Step<H, I, D>(c: Codec<H, I, D>, capacity: nat, s: State<H, I, D>, e: Event<I>): State<H, I, D>
    requires Shaped(capacity, s) && Enabled(c, capacity, s, e)
  {
    match e
    case Begin(p, item) =>
      s.(producers := s.producers[p := Attempting(item)], attempts := s.attempts + 1)
    case LoadInput(p) =>
      s.(producers := s.producers[p := Loaded(s.producers[p].item, s.input, |s.log|)])
    case CheckFull(p) =>
      var q := s.producers[p];
      if s.output == Advance(q.cur, capacity)
      then s.(producers := s.producers - {p}, failures := s.failures + 1)
      else s.(producers := s.producers[p := Checked(q.item, q.cur, q.at)])
    case CompareAndSwap(p) =>
      var q := s.producers[p];
      if s.input == q.cur
      then s.(input := Advance(q.cur, capacity),
              log := s.log + [Acquired(p, q.item, s.holders[q.cur])],
              producers := s.producers[p := Writing(q.item, q.cur, |s.log|, 0)])
      else s.(producers := s.producers[p := Attempting(q.item)])
    case WriteField(p) =>
      var q := s.producers[p];
      s.(holders := s.holders[q.slot := c.write(s.holders[q.slot], q.item, q.done)],
         producers := s.producers[p := q.(done := q.done + 1)])
    case CommitWrite(p) =>
      s.(committed := s.committed[s.producers[p].slot := true], producers := s.producers - {p})
    case LoadOutput =>
      s.(consumer := LoadedOutput(s.output))
    case CheckEmpty =>
      s.(consumer := if s.consumer.cur == s.input then Waiting else Found(s.consumer.cur))
    case SeeCommitted =>
      s.(consumer := Reading(s.consumer.cur))
    case Deliver =>
      s.(delivered := s.delivered + [c.read(s.holders[s.consumer.cur])], consumer := Delivered(s.consumer.cur))
    case Release =>
      s.(holders := s.holders[s.consumer.cur := c.release(s.holders[s.consumer.cur])],
         consumer := Released(s.consumer.cur))
    case StoreUncommitted =>
      s.(committed := s.committed[s.consumer.cur := false], consumer := Uncommitted(s.consumer.cur))
    case StoreOutput =>
      s.(output := Advance(s.consumer.cur, capacity), consumer := Waiting, head := s.head + 1)
  }

  // ---- arithmetic of the ring ----

  /** The slot n places after a. */
  function Shift(a: nat, n: int, capacity: nat): int
  {
    if a + n < capacity then a + n else a + n - capacity
  }

  /** How far slot i is from a, going forward. */
  function Offset(a: nat, i: nat, capacity: nat): int
  {
    if a <= i then i - a else i - a + capacity
  }

  lemma AdvanceIsShift(index: nat, capacity: nat)
    requires index < capacity
    ensures Advance(index, capacity) == Shift(index, 1, capacity) < capacity
  {
    if index + 1 == capacity {
      assert (index + 1) % capacity == 0;
    }
  }

  lemma Quotient(x: nat, m: nat) returns (q: nat)
    requires m > 0
    ensures x == q * m + x % m
  {
    q := x / m;
  }

  /** Two tickets less than a lap apart never share a slot. */
  lemma SameSlotSameTicket(x: nat, y: nat, m: nat)
    requires m > 0 && x <= y < x + m && x % m == y % m
    ensures x == y
  {
    var q := Quotient(x, m);
    var r := Quotient(y, m);
    assert (r - q) * m == y - x by {
      assert (r - q) * m == r * m - q * m;
    }
    MultipleIsLarge(r - q, m);
  }

  lemma NextTicket(x: nat, m: nat)
    requires m > 0
    ensures (x + 1) % m == Advance(x % m, m)
  {
    var q := Quotient(x, m);
    var r := x % m;
    if r + 1 == m {
      assert x + 1 == m * (q + 1);
      UniqueRemainder(x + 1, m, q + 1, 0);
      UniqueRemainder(r + 1, m, 1, 0);
    } else {
      UniqueRemainder(x + 1, m, q, r + 1);
      UniqueRemainder(r + 1, m, 0, r + 1);
    }
  }

  // ---- the invariant ----

  /** The ticket that slot i carries, if it is in use: slots are numbered from output on. */
  function TicketOf<H, I, D>(capacity: nat, s: State<H, I, D>, i: nat): int
  {
    s.head + Offset(s.output, i, capacity)
  }

  predicate InUse<H, I, D>(capacity: nat, s: State<H, I, D>, i: nat)
  {
    TicketOf(capacity, s, i) < |s.log|
  }

  /** The consumer has given up the slot at output, but output has not moved on yet. */
  predicate HeadReleased<H, I, D>(s: State<H, I, D>)
  {
    s.consumer.Released? || s.consumer.Uncommitted?
  }

  ghost predicate Counters<H, I, D>(capacity: nat, s: State<H, I, D>)
    requires capacity > 0
  {
    && s.head <= |s.log| < s.head + capacity
    && s.input == |s.log| % capacity
    && s.output == s.head % capacity
    && s.input == Shift(s.output, |s.log| - s.head, capacity)
  }

  ghost predicate ProducerOk<H, I, D>(c: Codec<H, I, D>, capacity: nat, s: State<H, I, D>, p: nat)
    requires Shaped(capacity, s) && p in s.producers
  {
    match s.producers[p]
    case Attempting(item) => c.accepts(item)
    case Loaded(item, cur, at) => c.accepts(item) && at <= |s.log| && cur == at % capacity
    case Checked(item, cur, at) =>
      c.accepts(item) && at <= |s.log| && cur == at % capacity
      && (at == |s.log| ==> |s.log| + 1 < s.head + capacity)
    case Writing(item, slot, ticket, done) =>
      && s.head <= ticket < |s.log| && ticket == TicketOf(capacity, s, slot)
      && s.log[ticket].producer == p && s.log[ticket].item == item
      && done <= c.steps(item) && !s.committed[slot]
      && !(HeadReleased(s) && ticket == s.head)
      && s.holders[slot] == Written(c, s.log[ticket].base, item, done)
  }

  ghost predicate SlotOk<H, I, D>(c: Codec<H, I, D>, capacity: nat, s: State<H, I, D>, i: nat)
    requires Shaped(capacity, s) && i < capacity && s.head <= |s.log|
  {
    var t := TicketOf(capacity, s, i);
    if t >= |s.log| then
      !s.committed[i] && c.clean(s.holders[i])
    else if t == s.head && HeadReleased(s) then
      (s.committed[i] <==> s.consumer.Released?) && c.clean(s.holders[i])
    else
      && c.clean(s.log[t].base) && c.accepts(s.log[t].item)
      && (s.committed[i] ==> s.holders[i] == Written(c, s.log[t].base, s.log[t].item, c.steps(s.log[t].item)))
      && (!s.committed[i] ==>
            s.log[t].producer in s.producers
            && s.producers[s.log[t].producer].Writing? && s.producers[s.log[t].producer].ticket == t)
  }

  /** How many items the consumer has handed on: one more than it has given back, from Deliver to StoreOutput. */
  function DeliveredCount<H, I, D>(s: State<H, I, D>): nat
  {
    s.head + if s.consumer.Delivered? || HeadReleased(s) then 1 else 0
  }

  ghost predicate ConsumerOk<H, I, D>(c: Codec<H, I, D>, capacity: nat, s: State<H, I, D>)
    requires Shaped(capacity, s)
  {
    && (!s.consumer.Waiting? ==> s.consumer.cur == s.output)
    && (!s.consumer.Waiting? && !s.consumer.LoadedOutput? ==> s.head < |s.log|)
    && (s.consumer.Reading? || s.consumer.Delivered? ==> s.committed[s.output])
    && |s.delivered| == DeliveredCount(s) <= |s.log|
    && (forall n :: 0 <= n < |s.delivered| ==> s.delivered[n] == c.view(s.log[n].item))
  }

  ghost predicate Inv<H, I, D>(c: Codec<H, I, D>, capacity: nat, s: State<H, I, D>)
  {
    && Shaped(capacity, s)
    && Counters(capacity, s)
    && (forall p :: p in s.producers ==> ProducerOk(c, capacity, s, p))
    && (forall i :: 0 <= i < capacity ==> SlotOk(c, capacity, s, i))
    && ConsumerOk(c, capacity, s)
  }

  lemma InitInv<H, I, D>(c: Codec<H, I, D>, capacity: nat, blank: H)
    requires capacity > 0 && c.clean(blank)
    ensures Inv(c, capacity, Init<H, I, D>(capacity, blank))
  {
  }

  /** There is a free slot besides the gap. */
  predicate FreeSlot<H, I, D>(capacity: nat, s: State<H, I, D>)
  {
    |s.log| + 1 < s.head + capacity
  }

  /** The test of the full-check, on the shared cells as they are now. */
  predicate Room<H, I, D>(capacity: nat, s: State<H, I, D>)
    requires capacity > 0
  {
    s.output != Advance(s.input, capacity)
  }

  lemma RoomIsFreeSlot<H, I, D>(c: Codec<H, I, D>, capacity: nat, s: State<H, I, D>)
    requires Inv(c, capacity, s)
    ensures capacity > 0 && (Room(capacity, s) <==> FreeSlot(capacity, s))
  {
    hide SlotOk, ProducerOk, ConsumerOk;
    AdvanceIsShift(s.input, capacity);
  }

  predicate Acquires<H, I, D>(s: State<H, I, D>, e: Event<I>)
  {
    e.CompareAndSwap? && e.p in s.producers && s.producers[e.p].Checked? && s.input == s.producers[e.p].cur
  }

  /** The hypothesis on timing: fewer than Capacity acquisitions happen between a producer's load of
      input and its successful compare-and-swap. */
  predicate NoLap<H, I, D>(capacity: nat, s: State<H, I, D>, e: Event<I>)
  {
    Acquires(s, e) ==> |s.log| - s.producers[e.p].at < capacity
  }

  lemma NoLapMeansRoom<H, I, D>(c: Codec<H, I, D>, capacity: nat, s: State<H, I, D>, e: Event<I>)
    requires Inv(c, capacity, s) && Acquires(s, e) && NoLap(capacity, s, e)
    ensures capacity > 0 && Room(capacity, s)
  {
    assert ProducerOk(c, capacity, s, e.p);
    SameSlotSameTicket(s.producers[e.p].at, |s.log|, capacity);
    RoomIsFreeSlot(c, capacity, s);
  }

  /** The exact hypothesis: a compare-and-swap that succeeds does so while the ring has room. */
  predicate InTime<H, I, D>(capacity: nat, s: State<H, I, D>, e: Event<I>)
    requires capacity > 0
  {
    Acquires(s, e) ==> Room(capacity, s)
  }

  // ---- one step ----

  /** A step that changes one producer's private state only, and never while it owns a slot. */
  ghost predicate PrivateStep<H, I, D>(s: State<H, I, D>, s': State<H, I, D>, p: nat)
  {
    && s' == s.(producers := s'.producers, failures := s'.failures, attempts := s'.attempts)
    && (p in s.producers ==> !s.producers[p].Writing?)
    && (p in s'.producers ==> !s'.producers[p].Writing?)
    && s.producers - {p} == s'.producers - {p}
  }

  lemma PrivateStepSlots<H, I, D>(c: Codec<H, I, D>, capacity: nat, s: State<H, I, D>, s': State<H, I, D>, p: nat,
                                  i: nat)
    requires Shaped(capacity, s) && Shaped(capacity, s') && i < capacity && s.head <= |s.log|
    requires PrivateStep(s, s', p) && SlotOk(c, capacity, s, i)
    ensures SlotOk(c, capacity, s', i)
  {
    var t := TicketOf(capacity, s, i);
    if t < |s.log| {
      var q := s.log[t].producer;
      assert q in s.producers && q != p ==> q in s.producers - {p};
      assert q in s'.producers && q != p ==> q in s'.producers - {p};
      assert q != p && q in s.producers ==> s.producers[q] == (s.producers - {p})[q];
    }
  }

  lemma PrivateStepProducers<H, I, D>(c: Codec<H, I, D>, capacity: nat, s: State<H, I, D>, s': State<H, I, D>,
                                      p: nat, q: nat)
    requires Shaped(capacity, s) && Shaped(capacity, s') && PrivateStep(s, s', p)
    requires q in s'.producers && q != p && (q in s.producers ==> ProducerOk(c, capacity, s, q))
    ensures ProducerOk(c, capacity, s', q)
  {
    assert q in s'.producers - {p};
    assert s'.producers[q] == (s'.producers - {p})[q] == s.producers[q];
  }

  lemma PrivateStepKeepsInv<H, I, D>(c: Codec<H, I, D>, capacity: nat, s: State<H, I, D>, s': State<H, I, D>, p: nat)
    requires Inv(c, capacity, s) && PrivateStep(s, s', p)
    requires p in s'.producers ==> Shaped(capacity, s') && ProducerOk(c, capacity, s', p)
    ensures Inv(c, capacity, s')
  {
    forall q | q in s'.producers ensures s'.producers[q].Writing? ==> s'.producers[q].slot < capacity {
      if q != p {
        assert q in s'.producers - {p};
        assert s'.producers[q] == (s'.producers - {p})[q] == s.producers[q];
      }
    }
    hide SlotOk, ProducerOk;
    forall q | q in s'.producers ensures ProducerOk(c, capacity, s', q) {
      if q != p { PrivateStepProducers(c, capacity, s, s', p, q); }
    }
    forall i | 0 <= i < capacity ensures SlotOk(c, capacity, s', i) {
      PrivateStepSlots(c, capacity, s, s', p, i);
    }
  }

  lemma PrepareStep<H, I, D>(c: Codec<H, I, D>, capacity: nat, s: State<H, I, D>, e: Event<I>)
    requires Inv(c, capacity, s) && Enabled(c, capacity, s, e)
    requires e.Begin? || e.LoadInput? || e.CheckFull? || (e.CompareAndSwap? && !Acquires(s, e))
    ensures Inv(c, capacity, Step(c, capacity, s, e))
  {
    var s' := Step(c, capacity, s, e);
    assert e.p in s.producers ==> ProducerOk(c, capacity, s, e.p);
    AdvanceIsShift(s.input, capacity);
    PrivateStepKeepsInv(c, capacity, s, s', e.p);
  }

  lemma AcquireKeepsSlot<H, I, D>(c: Codec<H, I, D>, capacity: nat, s: State<H, I, D>, e: Event<I>, i: nat)
    requires Shaped(capacity, s) && Counters(capacity, s) && Enabled(c, capacity, s, e)
    requires Acquires(s, e) && FreeSlot(capacity, s) && i < capacity
    requires c.accepts(s.producers[e.p].item) && SlotOk(c, capacity, s, i) && (HeadReleased(s) ==> s.head < |s.log|)
    ensures SlotOk(c, capacity, Step(c, capacity, s, e), i)
  {
    hide Written;
    var t := TicketOf(capacity, s, i);
    assert t == |s.log| <==> i == s.input;
  }

  lemma AcquireKeepsProducer<H, I, D>(c: Codec<H, I, D>, capacity: nat, s: State<H, I, D>, e: Event<I>, p: nat)
    requires Shaped(capacity, s) && Counters(capacity, s) && Enabled(c, capacity, s, e)
    requires Acquires(s, e) && FreeSlot(capacity, s)
    requires p in s.producers && p != e.p && ProducerOk(c, capacity, s, p)
    ensures ProducerOk(c, capacity, Step(c, capacity, s, e), p)
  {
    hide Written;
  }

  lemma AcquireStep<H, I, D>(c: Codec<H, I, D>, capacity: nat, s: State<H, I, D>, e: Event<I>)
    requires Inv(c, capacity, s) && Enabled(c, capacity, s, e)
    requires Acquires(s, e) && FreeSlot(capacity, s)
    ensures Inv(c, capacity, Step(c, capacity, s, e))
  {
    var s' := Step(c, capacity, s, e);
    AdvanceIsShift(s.input, capacity);
    NextTicket(|s.log|, capacity);
    assert SlotOk(c, capacity, s, s.input);
    assert ProducerOk(c, capacity, s, e.p);
    assert ProducerOk(c, capacity, s', e.p);
    hide SlotOk, ProducerOk;
    forall p | p in s'.producers ensures ProducerOk(c, capacity, s', p) {
      if p != e.p { AcquireKeepsProducer(c, capacity, s, e, p); }
    }
    forall i | 0 <= i < capacity ensures SlotOk(c, capacity, s', i) {
      AcquireKeepsSlot(c, capacity, s, e, i);
    }
  }

  lemma WriteFieldKeepsSlot<H, I, D>(c: Codec<H, I, D>, capacity: nat, s: State<H, I, D>, e: Event<I>, i: nat)
    requires Shaped(capacity, s) && Counters(capacity, s) && Enabled(c, capacity, s, e) && e.WriteField?
    requires ProducerOk(c, capacity, s, e.p) && i < capacity && SlotOk(c, capacity, s, i)
    ensures SlotOk(c, capacity, Step(c, capacity, s, e), i)
  {
    hide Written;
  }

  lemma WriteFieldKeepsProducer<H, I, D>(c: Codec<H, I, D>, capacity: nat, s: State<H, I, D>, e: Event<I>, p: nat)
    requires Shaped(capacity, s) && Counters(capacity, s) && Enabled(c, capacity, s, e) && e.WriteField?
    requires ProducerOk(c, capacity, s, e.p) && p in s.producers && ProducerOk(c, capacity, s, p)
    ensures ProducerOk(c, capacity, Step(c, capacity, s, e), p)
  {
  }

  lemma WriteFieldStep<H, I, D>(c: Codec<H, I, D>, capacity: nat, s: State<H, I, D>, e: Event<I>)
    requires Inv(c, capacity, s) && Enabled(c, capacity, s, e)
    requires e.WriteField?
    ensures Inv(c, capacity, Step(c, capacity, s, e))
  {
    hide SlotOk, ProducerOk, Written;
    var s' := Step(c, capacity, s, e);
    forall p | p in s'.producers ensures ProducerOk(c, capacity, s', p) {
      WriteFieldKeepsProducer(c, capacity, s, e, p);
    }
    forall i | 0 <= i < capacity ensures SlotOk(c, capacity, s', i) {
      WriteFieldKeepsSlot(c, capacity, s, e, i);
    }
  }

  lemma CommitKeepsSlot<H, I, D>(c: Codec<H, I, D>, capacity: nat, s: State<H, I, D>, e: Event<I>, i: nat)
    requires Shaped(capacity, s) && Counters(capacity, s) && Enabled(c, capacity, s, e) && e.CommitWrite?
    requires ProducerOk(c, capacity, s, e.p) && i < capacity && SlotOk(c, capacity, s, i)
    ensures SlotOk(c, capacity, Step(c, capacity, s, e), i)
  {
    hide Written;
  }

  lemma CommitKeepsProducer<H, I, D>(c: Codec<H, I, D>, capacity: nat, s: State<H, I, D>, e: Event<I>, p: nat)
    requires Shaped(capacity, s) && Counters(capacity, s) && Enabled(c, capacity, s, e) && e.CommitWrite?
    requires ProducerOk(c, capacity, s, e.p) && p != e.p && p in s.producers && ProducerOk(c, capacity, s, p)
    ensures ProducerOk(c, capacity, Step(c, capacity, s, e), p)
  {
    hide Written;
  }

  lemma CommitWriteStep<H, I, D>(c: Codec<H, I, D>, capacity: nat, s: State<H, I, D>, e: Event<I>)
    requires Inv(c, capacity, s) && Enabled(c, capacity, s, e)
    requires e.CommitWrite?
    ensures Inv(c, capacity, Step(c, capacity, s, e))
  {
    hide SlotOk, ProducerOk, Written;
    var s' := Step(c, capacity, s, e);
    forall p | p in s'.producers ensures ProducerOk(c, capacity, s', p) {
      CommitKeepsProducer(c, capacity, s, e, p);
    }
    forall i | 0 <= i < capacity ensures SlotOk(c, capacity, s', i) {
      CommitKeepsSlot(c, capacity, s, e, i);
    }
  }

  lemma ConsumerLoadStep<H, I, D>(c: Codec<H, I, D>, capacity: nat, s: State<H, I, D>, e: Event<I>)
    requires Inv(c, capacity, s) && Enabled(c, capacity, s, e)
    requires e.LoadOutput? || e.CheckEmpty? || e.SeeCommitted?
    ensures Inv(c, capacity, Step(c, capacity, s, e))
  {
    var s' := Step(c, capacity, s, e);
    forall p | p in s'.producers ensures ProducerOk(c, capacity, s', p) {
      assert p in s.producers ==> ProducerOk(c, capacity, s, p);
    }
    forall i | 0 <= i < capacity ensures SlotOk(c, capacity, s', i) {
      assert SlotOk(c, capacity, s, i);
    }
  }

  lemma DeliverStep<H(!new), I(!new), D>(c: Codec<H, I, D>, capacity: nat, s: State<H, I, D>, e: Event<I>)
    requires Inv(c, capacity, s) && Enabled(c, capacity, s, e) && Lawful(c)
    requires e.Deliver?
    ensures Inv(c, capacity, Step(c, capacity, s, e))
  {
    var s' := Step(c, capacity, s, e);
    assert SlotOk(c, capacity, s, s.output);
    forall p | p in s'.producers ensures ProducerOk(c, capacity, s', p) {
      assert p in s.producers ==> ProducerOk(c, capacity, s, p);
    }
    forall i | 0 <= i < capacity ensures SlotOk(c, capacity, s', i) {
      assert SlotOk(c, capacity, s, i);
    }
  }

  lemma ReleaseStep<H(!new), I(!new), D>(c: Codec<H, I, D>, capacity: nat, s: State<H, I, D>, e: Event<I>)
    requires Inv(c, capacity, s) && Enabled(c, capacity, s, e) && Lawful(c)
    requires e.Release?
    ensures Inv(c, capacity, Step(c, capacity, s, e))
  {
    var s' := Step(c, capacity, s, e);
    assert SlotOk(c, capacity, s, s.output);
    forall p | p in s'.producers ensures ProducerOk(c, capacity, s', p) {
      assert p in s.producers ==> ProducerOk(c, capacity, s, p);
    }
    forall i | 0 <= i < capacity ensures SlotOk(c, capacity, s', i) {
      assert SlotOk(c, capacity, s, i);
    }
  }

  lemma StoreUncommittedStep<H, I, D>(c: Codec<H, I, D>, capacity: nat, s: State<H, I, D>, e: Event<I>)
    requires Inv(c, capacity, s) && Enabled(c, capacity, s, e)
    requires e.StoreUncommitted?
    ensures Inv(c, capacity, Step(c, capacity, s, e))
  {
    var s' := Step(c, capacity, s, e);
    assert SlotOk(c, capacity, s, s.output);
    forall p | p in s'.producers ensures ProducerOk(c, capacity, s', p) {
      assert p in s.producers ==> ProducerOk(c, capacity, s, p);
    }
    forall i | 0 <= i < capacity ensures SlotOk(c, capacity, s', i) {
      assert SlotOk(c, capacity, s, i);
    }
  }

  lemma StoreOutputKeepsSlot<H, I, D>(c: Codec<H, I, D>, capacity: nat, s: State<H, I, D>, e: Event<I>, i: nat)
    requires Shaped(capacity, s) && Counters(capacity, s) && Enabled(c, capacity, s, e) && e.StoreOutput?
    requires ConsumerOk(c, capacity, s) && i < capacity && SlotOk(c, capacity, s, i)
    ensures SlotOk(c, capacity, Step(c, capacity, s, e), i)
  {
    AdvanceIsShift(s.output, capacity);
  }

  lemma StoreOutputStep<H, I, D>(c: Codec<H, I, D>, capacity: nat, s: State<H, I, D>, e: Event<I>)
    requires Inv(c, capacity, s) && Enabled(c, capacity, s, e)
    requires e.StoreOutput?
    ensures Inv(c, capacity, Step(c, capacity, s, e))
  {
    hide SlotOk, Written;
    var s' := Step(c, capacity, s, e);
    AdvanceIsShift(s.output, capacity);
    NextTicket(s.head, capacity);
    forall p | p in s'.producers ensures ProducerOk(c, capacity, s', p) {
      assert p in s.producers ==> ProducerOk(c, capacity, s, p);
    }
    forall i | 0 <= i < capacity ensures SlotOk(c, capacity, s', i) {
      StoreOutputKeepsSlot(c, capacity, s, e, i);
    }
  }

  /** Every step keeps the invariant, if an acquiring compare-and-swap finds room. */
  lemma StepKeepsInv<H(!new), I(!new), D>(c: Codec<H, I, D>, capacity: nat, s: State<H, I, D>, e: Event<I>)
    requires Inv(c, capacity, s) && Enabled(c, capacity, s, e) && Lawful(c) && InTime(capacity, s, e)
    ensures Inv(c, capacity, Step(c, capacity, s, e))
  {
    hide Inv, Step, Enabled, Room;
    match e
    case Begin(_, _) => PrepareStep(c, capacity, s, e);
    case LoadInput(_) => PrepareStep(c, capacity, s, e);
    case CheckFull(_) => PrepareStep(c, capacity, s, e);
    case CompareAndSwap(_) =>
      if Acquires(s, e) {
        RoomIsFreeSlot(c, capacity, s);
        AcquireStep(c, capacity, s, e);
      } else {
        PrepareStep(c, capacity, s, e);
      }
    case WriteField(_) => WriteFieldStep(c, capacity, s, e);
    case CommitWrite(_) => CommitWriteStep(c, capacity, s, e);
    case LoadOutput => ConsumerLoadStep(c, capacity, s, e);
    case CheckEmpty => ConsumerLoadStep(c, capacity, s, e);
    case SeeCommitted => ConsumerLoadStep(c, capacity, s, e);
    case Deliver => DeliverStep(c, capacity, s, e);
    case Release => ReleaseStep(c, capacity, s, e);
    case StoreUncommitted => StoreUncommittedStep(c, capacity, s, e);
    case StoreOutput => StoreOutputStep(c, capacity, s, e);
  }

  // ---- runs ----

  /** A finite interleaving from the empty ring in which every step is the next one of its thread. */
  ghost predicate Interleaving<H, I, D>(c: Codec<H, I, D>, capacity: nat, blank: H, events: seq<Event<I>>)
    decreases |events|, 0
  {
    events == []
    || (var n := |events| - 1;
        && Interleaving(c, capacity, blank, events[..n])
        && var s := After(c, capacity, blank, events[..n]);
           Shaped(capacity, s) && Enabled(c, capacity, s, events[n]))
  }

  ghost function After<H, I, D>(c: Codec<H, I, D>, capacity: nat, blank: H, events: seq<Event<I>>): State<H, I, D>
    requires Interleaving(c, capacity, blank, events)
    decreases |events|, 1
  {
    if events == [] then Init(capacity, blank)
    else
      var n := |events| - 1;
      Step(c, capacity, After(c, capacity, blank, events[..n]), events[n])
  }

  /** An interleaving in which every compare-and-swap that succeeds finds room. */
  ghost predicate Possible<H, I, D>(c: Codec<H, I, D>, capacity: nat, blank: H, events: seq<Event<I>>)
    requires capacity > 0
    decreases |events|
  {
    && Interleaving(c, capacity, blank, events)
    && (events == []
        || (var n := |events| - 1;
            && Possible(c, capacity, blank, events[..n])
            && InTime(capacity, After(c, capacity, blank, events[..n]), events[n])))
  }

  /** An interleaving in which fewer than capacity acquisitions happen between any producer's load of input
      and its compare-and-swap. */
  ghost predicate Timely<H, I, D>(c: Codec<H, I, D>, capacity: nat, blank: H, events: seq<Event<I>>)
    decreases |events|
  {
    && Interleaving(c, capacity, blank, events)
    && (events == []
        || (var n := |events| - 1;
            && Timely(c, capacity, blank, events[..n])
            && NoLap(capacity, After(c, capacity, blank, events[..n]), events[n])))
  }

  /** The hypothesis on timing is enough for room. */
  lemma {:induction false} TimelyIsPossible<H(!new), I(!new), D>(c: Codec<H, I, D>, capacity: nat, blank: H,
                                                                 events: seq<Event<I>>)
    requires capacity > 0 && Lawful(c) && c.clean(blank) && Timely(c, capacity, blank, events)
    ensures Possible(c, capacity, blank, events)
    decreases |events|
  {
    hide Inv, Step, Enabled, Room, Lawful;
    if events == [] {
    } else {
      var n := |events| - 1;
      TimelyIsPossible(c, capacity, blank, events[..n]);
      RunKeepsInv(c, capacity, blank, events[..n]);
      var s := After(c, capacity, blank, events[..n]);
      if Acquires(s, events[n]) {
        NoLapMeansRoom(c, capacity, s, events[n]);
      }
    }
  }

  /** What has been acquired and not yet delivered, oldest first, as the listener will see it. */
  ghost function Contents<H, I, D>(c: Codec<H, I, D>, s: State<H, I, D>): (q: seq<D>)
    requires |s.delivered| <= |s.log|
  {
    seq(|s.log| - |s.delivered|, i requires 0 <= i < |s.log| - |s.delivered| => c.view(s.log[|s.delivered| + i].item))
  }

  /** The ring is a FIFO queue of bounded size: a successful compare-and-swap appends its item, Deliver
      takes the oldest one, and no other step of any thread changes the queue. */
  lemma StepRefinesFifo<H(!new), I(!new), D>(c: Codec<H, I, D>, capacity: nat, s: State<H, I, D>, e: Event<I>)
    requires Inv(c, capacity, s) && Enabled(c, capacity, s, e) && Lawful(c) && InTime(capacity, s, e)
    ensures var s' := Step(c, capacity, s, e);
      && |s'.delivered| <= |s'.log|
      && |Contents(c, s')| < capacity
      && (Acquires(s, e) ==>
            s'.delivered == s.delivered && Contents(c, s') == Contents(c, s) + [c.view(s.producers[e.p].item)])
      && (e.Deliver? ==>
            && Contents(c, s) != [] && s'.delivered == s.delivered + [Contents(c, s)[0]]
            && Contents(c, s') == Contents(c, s)[1..])
      && (!Acquires(s, e) && !e.Deliver? ==> s'.delivered == s.delivered && Contents(c, s') == Contents(c, s))
  {
    hide Inv, Step, Enabled, Shaped, Lawful, InTime, Room;
    StepKeepsInv(c, capacity, s, e);
    InvBounds(c, capacity, s);
    StepMoves(c, capacity, s, e);
    InvBounds(c, capacity, Step(c, capacity, s, e));
  }

  lemma InvBounds<H, I, D>(c: Codec<H, I, D>, capacity: nat, s: State<H, I, D>)
    requires Inv(c, capacity, s)
    ensures Shaped(capacity, s) && |s.delivered| <= |s.log| < |s.delivered| + capacity
    ensures forall n :: 0 <= n < |s.delivered| ==> s.delivered[n] == c.view(s.log[n].item)
  {
    hide SlotOk, ProducerOk;
  }

  /** What a step does to the acquired and the delivered items. */
  lemma StepMoves<H, I, D>(c: Codec<H, I, D>, capacity: nat, s: State<H, I, D>, e: Event<I>)
    requires Shaped(capacity, s) && Enabled(c, capacity, s, e)
    ensures var s' := Step(c, capacity, s, e);
      && (Acquires(s, e) ==>
            && s'.delivered == s.delivered && |s'.log| == |s.log| + 1 && s'.log[..|s.log|] == s.log
            && s'.log[|s.log|].item == s.producers[e.p].item)
      && (!Acquires(s, e) ==> s'.log == s.log)
      && (e.Deliver? ==> |s'.delivered| == |s.delivered| + 1 && s'.delivered[..|s.delivered|] == s.delivered)
      && (!e.Deliver? ==> s'.delivered == s.delivered)
  {
  }

  lemma {:induction false} RunKeepsInv<H(!new), I(!new), D>(c: Codec<H, I, D>, capacity: nat, blank: H,
                                                            events: seq<Event<I>>)
    requires capacity > 0 && Lawful(c) && c.clean(blank) && Possible(c, capacity, blank, events)
    ensures Inv(c, capacity, After(c, capacity, blank, events))
  {
    hide Inv, Step, Enabled, Room, Lawful;
    if events == [] {
      InitInv(c, capacity, blank);
    } else {
      var n := |events| - 1;
      RunKeepsInv(c, capacity, blank, events[..n]);
      StepKeepsInv(c, capacity, After(c, capacity, blank, events[..n]), events[n]);
    }
  }

  predicate Owns<H, I, D>(s: State<H, I, D>, p: nat)
  {
    p in s.producers && s.producers[p].Writing?
  }

  /** After any run: items have been delivered exactly once, in the order of acquisition, as they were
      pushed; at most capacity - 1 are in the ring; no slot has two owners; and a slot outside
      [output, input) is uncommitted and clean. */
  lemma RunIsSafe<H(!new), I(!new), D>(c: Codec<H, I, D>, capacity: nat, blank: H, events: seq<Event<I>>)
    requires capacity > 0 && Lawful(c) && c.clean(blank) && Possible(c, capacity, blank, events)
    ensures var s := After(c, capacity, blank, events);
      && |s.delivered| <= |s.log| < s.head + capacity
      && (forall n :: 0 <= n < |s.delivered| ==> s.delivered[n] == c.view(s.log[n].item))
      && (forall p, q :: Owns(s, p) && Owns(s, q) && s.producers[p].slot == s.producers[q].slot ==> p == q)
      && |s.committed| == |s.holders| == capacity
      && (forall i: nat :: i < capacity && !InUse(capacity, s, i) ==> !s.committed[i] && c.clean(s.holders[i]))
  {
    RunKeepsInv(c, capacity, blank, events);
    var s := After(c, capacity, blank, events);
    forall p, q | Owns(s, p) && Owns(s, q) && s.producers[p].slot == s.producers[q].slot
      ensures p == q
    {
      assert ProducerOk(c, capacity, s, p) && ProducerOk(c, capacity, s, q);
    }
    forall i: nat | i < capacity && !InUse(capacity, s, i) ensures !s.committed[i] && c.clean(s.holders[i]) {
      assert SlotOk(c, capacity, s, i);
    }
  }

  // ---- when a push succeeds, and what the timing hypothesis buys ----

  /** A push whose load of input is still current is refused exactly when the ring holds capacity - 1 items. */
  lemma FreshPushRefusedIffFull<H, I, D>(c: Codec<H, I, D>, capacity: nat, s: State<H, I, D>, p: nat)
    requires Inv(c, capacity, s) && p in s.producers && s.producers[p].Loaded? && s.producers[p].at == |s.log|
    ensures p !in Step(c, capacity, s, CheckFull(p)).producers <==> |s.log| - s.head == capacity - 1
  {
    assert ProducerOk(c, capacity, s, p);
    AdvanceIsShift(s.input, capacity);
  }

  /** A compare-and-swap that succeeds is sound if and only if the ring has room at that moment. */
  lemma AcquisitionSoundIffRoom<H, I, D>(c: Codec<H, I, D>, capacity: nat, s: State<H, I, D>, e: Event<I>)
    requires Inv(c, capacity, s) && Enabled(c, capacity, s, e) && Acquires(s, e)
    ensures capacity > 0 && (Inv(c, capacity, Step(c, capacity, s, e)) <==> Room(capacity, s))
  {
    hide Written, SlotOk, ProducerOk, ConsumerOk;
    RoomIsFreeSlot(c, capacity, s);
    if FreeSlot(capacity, s) {
      AcquireStep(c, capacity, s, e);
    }
  }

  // ---- when a pop finds something ----

  /** A pop whose load of output has been made finds the queue empty if and only if it is. */
  lemma PopRefusedIffEmpty<H, I, D>(c: Codec<H, I, D>, capacity: nat, s: State<H, I, D>)
    requires Inv(c, capacity, s) && s.consumer.LoadedOutput?
    ensures var s' := Step(c, capacity, s, CheckEmpty);
      && (s'.consumer == Waiting <==> |s.log| == s.head)
      && (s'.consumer == Found(s.output) <==> |s.log| > s.head)
  {
    hide SlotOk, ProducerOk;
  }

  /** The step that the consumer takes next, wherever it is. */
  function NextOfConsumer<I>(consumer: Consumer): Event<I>
  {
    match consumer
    case Waiting => LoadOutput
    case LoadedOutput(_) => CheckEmpty
    case Found(_) => SeeCommitted
    case Reading(_) => Deliver
    case Delivered(_) => Release
    case Released(_) => StoreUncommitted
    case Uncommitted(_) => StoreOutput
  }

  predicate AwaitsCommit<H, I, D>(s: State<H, I, D>)
  {
    s.consumer.Found? && s.consumer.cur < |s.committed| && !s.committed[s.consumer.cur]
  }

  /** The consumer is never stuck: its next step is possible, or it waits for the owner of the oldest item, who
      can go on writing or commit. */
  lemma ConsumerIsNotStuck<H, I, D>(c: Codec<H, I, D>, capacity: nat, s: State<H, I, D>)
    requires Inv(c, capacity, s)
    ensures !AwaitsCommit(s) ==> Enabled(c, capacity, s, NextOfConsumer(s.consumer))
    ensures AwaitsCommit(s) ==>
      && s.head < |s.log| && var p := s.log[s.head].producer;
      && Owns(s, p) && s.producers[p].slot == s.output
      && (Enabled(c, capacity, s, WriteField(p)) || Enabled(c, capacity, s, CommitWrite(p)))
  {
    assert SlotOk(c, capacity, s, s.output);
    if AwaitsCommit(s) {
      assert ProducerOk(c, capacity, s, s.log[s.head].producer);
    }
  }

  /** The states that the consumer's own steps lead to, as long as they are possible. */
  ghost function ConsumerAlone<H, I, D>(c: Codec<H, I, D>, capacity: nat, s: State<H, I, D>, n: nat): State<H, I, D>
    requires capacity > 0
    decreases n
  {
    if n == 0 || !Shaped(capacity, s) || !Enabled(c, capacity, s, NextOfConsumer(s.consumer)) then s
    else ConsumerAlone(c, capacity, Step(c, capacity, s, NextOfConsumer(s.consumer)), n - 1)
  }

  lemma ConsumerStep<H(!new), I(!new), D>(c: Codec<H, I, D>, capacity: nat, s: State<H, I, D>, n: nat)
    requires Inv(c, capacity, s) && Lawful(c) && !AwaitsCommit(s)
    ensures capacity > 0 && Shaped(capacity, s) && Enabled(c, capacity, s, NextOfConsumer(s.consumer))
    ensures var s' := Step(c, capacity, s, NextOfConsumer(s.consumer));
      Inv(c, capacity, s') && ConsumerAlone(c, capacity, s, n + 1) == ConsumerAlone(c, capacity, s', n)
  {
    hide Inv, Step, Enabled, Lawful, Room;
    InvBounds(c, capacity, s);
    ConsumerIsNotStuck(c, capacity, s);
    StepKeepsInv(c, capacity, s, NextOfConsumer(s.consumer));
  }

  /** What one step of the consumer changes, besides its own state. */
  lemma ConsumerMoves<H, I, D>(c: Codec<H, I, D>, capacity: nat, s: State<H, I, D>)
    requires Inv(c, capacity, s) && Enabled(c, capacity, s, NextOfConsumer(s.consumer))
    ensures var s' := Step(c, capacity, s, NextOfConsumer(s.consumer));
      && s'.log == s.log && s'.input == s.input
      && s'.head == s.head + (if s.consumer.Uncommitted? then 1 else 0)
      && (s.consumer.Waiting? ==> s'.consumer == LoadedOutput(s.output) && s'.committed == s.committed)
      && (s.consumer.LoadedOutput? && s.head < |s.log| ==>
            s'.consumer == Found(s.output) && s'.committed == s.committed)
      && (s.consumer.Found? ==> s'.consumer == Reading(s.output))
      && (s.consumer.Reading? ==> s'.consumer == Delivered(s.output))
      && (s.consumer.Delivered? ==> s'.consumer == Released(s.output))
      && (s.consumer.Released? ==> s'.consumer == Uncommitted(s.output))
      && (s.consumer.Uncommitted? ==> s'.consumer == Waiting)
      && (!s.consumer.Uncommitted? ==> s'.output == s.output)
      && (!s.consumer.Released? ==> s'.committed == s.committed)
      && (s.consumer.Released? ==> s'.committed == s.committed[s.output := false])
  {
    hide SlotOk, ProducerOk;
  }

  lemma DeliveredIs<H, I, D>(c: Codec<H, I, D>, capacity: nat, s: State<H, I, D>)
    requires Inv(c, capacity, s)
    ensures |s.delivered| == s.head + (if s.consumer.Delivered? || HeadReleased(s) then 1 else 0) <= |s.log|
    ensures forall n :: 0 <= n < |s.delivered| ==> s.delivered[n] == c.view(s.log[n].item)
    ensures capacity > 0 && s.output == s.head % capacity && s.output < capacity == |s.committed|
  {
    hide SlotOk, ProducerOk;
  }

  /** One step of the consumer on its own, which is possible here, and what it changes. */
  lemma Alone<H(!new), I(!new), D>(c: Codec<H, I, D>, capacity: nat, s: State<H, I, D>, n: nat)
    returns (s': State<H, I, D>)
    requires Inv(c, capacity, s) && Lawful(c) && !AwaitsCommit(s)
    ensures Inv(c, capacity, s') && capacity > 0
    ensures ConsumerAlone(c, capacity, s, n + 1) == ConsumerAlone(c, capacity, s', n)
    ensures Shaped(capacity, s) && Enabled(c, capacity, s, NextOfConsumer(s.consumer))
    ensures s' == Step(c, capacity, s, NextOfConsumer(s.consumer))
  {
    hide Inv, Step, Enabled, Lawful;
    ConsumerStep(c, capacity, s, n);
    s' := Step(c, capacity, s, NextOfConsumer(s.consumer));
  }

  lemma NoSteps<H, I, D>(c: Codec<H, I, D>, capacity: nat, s: State<H, I, D>)
    requires capacity > 0
    ensures ConsumerAlone(c, capacity, s, 0) == s
  {
  }

  /** A pop of a committed item: with nobody else running, four steps deliver it and three more give its slot
      back. */
  lemma PopDelivers<H(!new), I(!new), D>(c: Codec<H, I, D>, capacity: nat, s: State<H, I, D>, n: nat)
    returns (s': State<H, I, D>)
    requires Inv(c, capacity, s) && Lawful(c) && s.consumer == Waiting && s.head < |s.log|
    requires s.output < |s.committed| && s.committed[s.output]
    ensures capacity > 0 && Inv(c, capacity, s')
    ensures ConsumerAlone(c, capacity, s, 4).delivered == s.delivered + [c.view(s.log[s.head].item)]
    ensures ConsumerAlone(c, capacity, s, n + 7) == ConsumerAlone(c, capacity, s', n)
    ensures s'.consumer == Waiting && s'.log == s.log && s'.head == s.head + 1
    ensures s'.committed == s.committed[s.output := false]
  {
    hide Inv, Step, Enabled, Lawful, Shaped, ConsumerAlone;
    var s1 := Alone(c, capacity, s, n + 6);
    ConsumerMoves(c, capacity, s);
    var s2 := Alone(c, capacity, s1, n + 5);
    ConsumerMoves(c, capacity, s1);
    var s3 := Alone(c, capacity, s2, n + 4);
    ConsumerMoves(c, capacity, s2);
    var s4 := Alone(c, capacity, s3, n + 3);
    ConsumerMoves(c, capacity, s3);
    assert ConsumerAlone(c, capacity, s, 4) == s4 by {
      var _ := Alone(c, capacity, s, 3);
      var _ := Alone(c, capacity, s1, 2);
      var _ := Alone(c, capacity, s2, 1);
      var _ := Alone(c, capacity, s3, 0);
      NoSteps(c, capacity, s4);
    }
    var s5 := Alone(c, capacity, s4, n + 2);
    ConsumerMoves(c, capacity, s4);
    var s6 := Alone(c, capacity, s5, n + 1);
    ConsumerMoves(c, capacity, s5);
    s' := Alone(c, capacity, s6, n);
    ConsumerMoves(c, capacity, s6);
    DeliveredIs(c, capacity, s);
    DeliveredIs(c, capacity, s4);
  }

  /** Every item in the ring has been committed. */
  predicate AllCommitted<H, I, D>(capacity: nat, s: State<H, I, D>)
    requires capacity > 0
  {
    |s.committed| == capacity && forall t: nat :: s.head <= t < |s.log| ==> s.committed[t % capacity]
  }

  /** A consumer that goes on popping delivers everything that has been committed, also around the end of the
      buffer, and then finds the ring empty. */
  lemma {:induction false} PopsDrainTheRing<H(!new), I(!new), D>(c: Codec<H, I, D>, capacity: nat, s: State<H, I, D>)
    requires Inv(c, capacity, s) && Lawful(c) && s.consumer == Waiting
    requires capacity > 0 && AllCommitted(capacity, s)
    ensures s.head <= |s.log|
    ensures var s' := ConsumerAlone(c, capacity, s, 7 * (|s.log| - s.head));
      && Inv(c, capacity, s') && s'.consumer == Waiting && s'.log == s.log && s'.head == |s.log|
      && |s'.delivered| == |s.log|
      && forall n :: 0 <= n < |s.log| ==> s'.delivered[n] == c.view(s.log[n].item)
    decreases |s.log| - s.head
  {
    hide Inv, Lawful;
    DeliveredIs(c, capacity, s);
    if s.head < |s.log| {
      var s' := PopDelivers(c, capacity, s, 7 * (|s.log| - s.head) - 7);
      forall t: nat | s'.head <= t < |s'.log| ensures s'.committed[t % capacity] {
        InvLog(c, capacity, s);
        if t % capacity == s.head % capacity {
          SameSlotSameTicket(s.head, t, capacity);
        }
      }
      PopsDrainTheRing(c, capacity, s');
    }
  }

  lemma InvLog<H, I, D>(c: Codec<H, I, D>, capacity: nat, s: State<H, I, D>)
    requires Inv(c, capacity, s)
    ensures |s.log| < s.head + capacity
  {
    hide SlotOk, ProducerOk, ConsumerOk;
  }

  /** A compare-and-swap fails only if somebody else has acquired a slot since the load; then the push starts
      again with the same item, and nothing else has changed. */
  lemma LostRaceRetries<H, I, D>(c: Codec<H, I, D>, capacity: nat, s: State<H, I, D>, e: Event<I>)
    requires Inv(c, capacity, s) && e.CompareAndSwap? && Enabled(c, capacity, s, e) && !Acquires(s, e)
    ensures s.producers[e.p].at < |s.log|
    ensures Step(c, capacity, s, e) == s.(producers := s.producers[e.p := Attempting(s.producers[e.p].item)])
  {
    hide SlotOk, ConsumerOk;
    assert ProducerOk(c, capacity, s, e.p);
  }

  /** A push that runs on its own while the ring has room gets the next slot. */
  lemma PushGetsSlot<H, I, D>(c: Codec<H, I, D>, capacity: nat, s: State<H, I, D>, p: nat)
    requires Inv(c, capacity, s) && p in s.producers && s.producers[p].Attempting?
    ensures capacity > 0 && Shaped(capacity, s) && Enabled(c, capacity, s, LoadInput(p))
    ensures var s1 := Step(c, capacity, s, LoadInput(p));
      && Shaped(capacity, s1) && Enabled(c, capacity, s1, CheckFull(p))
      && var s2 := Step(c, capacity, s1, CheckFull(p));
      && (!Room(capacity, s) ==> p !in s2.producers && s2.log == s.log && s2.failures == s.failures + 1)
      && (Room(capacity, s) ==>
            && Shaped(capacity, s2) && Enabled(c, capacity, s2, CompareAndSwap(p))
            && var s3 := Step(c, capacity, s2, CompareAndSwap(p));
            && s3.producers == s.producers[p := Writing(s.producers[p].item, s.input, |s.log|, 0)]
            && |s3.log| == |s.log| + 1 && s3.log[..|s.log|] == s.log && s3.log[|s.log|].item == s.producers[p].item
            && s3.failures == s.failures && s3.input == Advance(s.input, capacity))
  {
    hide SlotOk, ProducerOk, ConsumerOk;
  }

  lemma Extend<H, I, D>(c: Codec<H, I, D>, capacity: nat, blank: H, events: seq<Event<I>>, s: State<H, I, D>,
                        e: Event<I>)
    returns (events': seq<Event<I>>, s': State<H, I, D>)
    requires capacity > 0 && Possible(c, capacity, blank, events) && s == After(c, capacity, blank, events)
    requires Shaped(capacity, s) && Enabled(c, capacity, s, e) && InTime(capacity, s, e)
    ensures Possible(c, capacity, blank, events') && s' == After(c, capacity, blank, events')
    ensures s' == Step(c, capacity, s, e)
  {
    events', s' := events + [e], Step(c, capacity, s, e);
    assert events'[..|events|] == events;
  }

  /** A slot that is one number, written by one store. */
  function OneField(): Codec<int, int, int>
  {
    Codec(_ => 1, (h, item, n) => item, h => h, item => item, h => h, _ => true, _ => true)
  }

  /** Without the timing hypothesis the property is false: in a ring of size 1, producer 0 loads input and
      checks, producer 1 takes both slots in turn, and producer 0's compare-and-swap still succeeds,
      because the wrapped index has come round. The ring then holds two items and looks empty. */
  lemma LapLateAcquisitionOverfills()
    returns (events: seq<Event<int>>, s: State<int, int, int>)
    ensures Possible(OneField(), 2, 0, events) && s == After(OneField(), 2, 0, events)
    ensures Shaped(2, s) && Enabled(OneField(), 2, s, CompareAndSwap(0)) && Acquires(s, CompareAndSwap(0))
    ensures var s' := Step(OneField(), 2, s, CompareAndSwap(0));
      |s'.log| - s'.head == 2 && s'.input == s'.output
  {
    events, s := ZeroChecks();
    events, s := OtherTakesFirst(events, s);
    events, s := ConsumerReadsFirst(events, s);
    events, s := ConsumerReleasesFirst(events, s);
    events, s := OtherTakesSecond(events, s);
    hide Interleaving, Possible, After;
    assert Advance(0, 2) == 1;
  }

  lemma ZeroChecks() returns (events: seq<Event<int>>, s: State<int, int, int>)
    ensures Possible(OneField(), 2, 0, events) && s == After(OneField(), 2, 0, events) == ZeroChecked()
  {
    events, s := Start(OneField(), 2, 0);
    hide Interleaving, Possible, After;
    events, s := Extend(OneField(), 2, 0, events, s, Begin(0, 10));
    events, s := Extend(OneField(), 2, 0, events, s, LoadInput(0));
    assert Advance(0, 2) == 1;
    events, s := Extend(OneField(), 2, 0, events, s, CheckFull(0));
  }

  /** The empty ring of size 1, with producer 0 about to make its compare-and-swap. */
  function ZeroChecked(): State<int, int, int>
  {
    State(0, 0, [false, false], [0, 0], map[0 := Checked(10, 0, 0)], Waiting, 0, [], 0, [], 1)
  }

  lemma OtherAcquiresFirst(events0: seq<Event<int>>, s0: State<int, int, int>)
    returns (events: seq<Event<int>>, s: State<int, int, int>)
    requires Possible(OneField(), 2, 0, events0) && s0 == After(OneField(), 2, 0, events0) == ZeroChecked()
    ensures Possible(OneField(), 2, 0, events) && s == After(OneField(), 2, 0, events)
    ensures s == s0.(input := 1, log := [Acquired(1, 20, 0)], attempts := 2,
                     producers := map[0 := Checked(10, 0, 0), 1 := Writing(20, 0, 0, 0)])
  {
    hide Interleaving, Possible, After;
    var c := OneField();
    events, s := Extend(c, 2, 0, events0, s0, Begin(1, 20));
    events, s := Extend(c, 2, 0, events, s, LoadInput(1));
    events, s := Extend(c, 2, 0, events, s, CheckFull(1));
    events, s := Extend(c, 2, 0, events, s, CompareAndSwap(1));
  }

  lemma OtherTakesFirst(events0: seq<Event<int>>, s0: State<int, int, int>)
    returns (events: seq<Event<int>>, s: State<int, int, int>)
    requires Possible(OneField(), 2, 0, events0) && s0 == After(OneField(), 2, 0, events0) == ZeroChecked()
    ensures Possible(OneField(), 2, 0, events) && s == After(OneField(), 2, 0, events)
    ensures s == s0.(input := 1, committed := [true, false], holders := [20, 0],
                     log := [Acquired(1, 20, 0)], attempts := 2)
  {
    hide Interleaving, Possible, After;
    var c := OneField();
    events, s := OtherAcquiresFirst(events0, s0);
    events, s := Extend(c, 2, 0, events, s, WriteField(1));
    events, s := Extend(c, 2, 0, events, s, CommitWrite(1));
    assert s.producers == map[0 := Checked(10, 0, 0)];
  }

  lemma ConsumerReadsFirst(events0: seq<Event<int>>, s0: State<int, int, int>)
    returns (events: seq<Event<int>>, s: State<int, int, int>)
    requires Possible(OneField(), 2, 0, events0) && s0 == After(OneField(), 2, 0, events0)
    requires s0 == ZeroChecked().(input := 1, committed := [true, false], holders := [20, 0],
                                  log := [Acquired(1, 20, 0)], attempts := 2)
    ensures Possible(OneField(), 2, 0, events) && s == After(OneField(), 2, 0, events)
    ensures s == s0.(delivered := [20], consumer := Delivered(0))
  {
    hide Interleaving, Possible, After;
    var c := OneField();
    events, s := Extend(c, 2, 0, events0, s0, LoadOutput);
    events, s := Extend(c, 2, 0, events, s, CheckEmpty);
    events, s := Extend(c, 2, 0, events, s, SeeCommitted);
    events, s := Extend(c, 2, 0, events, s, Deliver);
  }

  lemma ConsumerReleasesFirst(events0: seq<Event<int>>, s0: State<int, int, int>)
    returns (events: seq<Event<int>>, s: State<int, int, int>)
    requires Possible(OneField(), 2, 0, events0) && s0 == After(OneField(), 2, 0, events0)
    requires s0 == ZeroChecked().(input := 1, committed := [true, false], holders := [20, 0],
                                  log := [Acquired(1, 20, 0)], delivered := [20], consumer := Delivered(0),
                                  attempts := 2)
    ensures Possible(OneField(), 2, 0, events) && s == After(OneField(), 2, 0, events)
    ensures s == s0.(output := 1, committed := [false, false], head := 1, consumer := Waiting)
  {
    hide Interleaving, Possible, After;
    var c := OneField();
    events, s := Extend(c, 2, 0, events0, s0, Release);
    events, s := Extend(c, 2, 0, events, s, StoreUncommitted);
    assert Advance(0, 2) == 1;
    events, s := Extend(c, 2, 0, events, s, StoreOutput);
  }

  lemma OtherTakesSecond(events0: seq<Event<int>>, s0: State<int, int, int>)
    returns (events: seq<Event<int>>, s: State<int, int, int>)
    requires Possible(OneField(), 2, 0, events0) && s0 == After(OneField(), 2, 0, events0)
    requires s0 == ZeroChecked().(input := 1, output := 1, holders := [20, 0], log := [Acquired(1, 20, 0)],
                                  head := 1, delivered := [20], attempts := 2)
    ensures Possible(OneField(), 2, 0, events) && s == After(OneField(), 2, 0, events)
    ensures s == s0.(input := 0, log := [Acquired(1, 20, 0), Acquired(1, 30, 0)], attempts := 3,
                     producers := map[0 := Checked(10, 0, 0), 1 := Writing(30, 1, 1, 0)])
  {
    hide Interleaving, Possible, After;
    var c := OneField();
    assert Advance(1, 2) == 0;
    events, s := Extend(c, 2, 0, events0, s0, Begin(1, 30));
    events, s := Extend(c, 2, 0, events, s, LoadInput(1));
    events, s := Extend(c, 2, 0, events, s, CheckFull(1));
    events, s := Extend(c, 2, 0, events, s, CompareAndSwap(1));
  }

  lemma Start<H, I, D>(c: Codec<H, I, D>, capacity: nat, blank: H)
    returns (events: seq<Event<I>>, s: State<H, I, D>)
    requires capacity > 0
    ensures Possible(c, capacity, blank, events) && s == After(c, capacity, blank, events)
    ensures s == Init(capacity, blank)
  {
    events, s := [], Init(capacity, blank);
  }

  // ---- accounting ----

  ghost function Trying<H, I, D>(s: State<H, I, D>): set<nat>
  {
    set p | p in s.producers && !s.producers[p].Writing?
  }

  /** Every push begun has acquired a slot, has been counted as a failure, or is still trying. */
  ghost predicate Accounted<H, I, D>(s: State<H, I, D>)
  {
    s.attempts == |s.log| + s.failures + |Trying(s)|
  }

  /** Whether the step ends the producer's attempt, by refusal or by success. */
  predicate EndsAttempt<H, I, D>(capacity: nat, s: State<H, I, D>, e: Event<I>)
    requires Shaped(capacity, s)
  {
    || (e.CheckFull? && e.p in s.producers && s.producers[e.p].Loaded?
        && s.output == Advance(s.producers[e.p].cur, capacity))
    || Acquires(s, e)
  }

  lemma TryingAfter<H, I, D>(c: Codec<H, I, D>, capacity: nat, s: State<H, I, D>, e: Event<I>)
    requires Shaped(capacity, s) && Enabled(c, capacity, s, e)
    ensures e.Begin? ==> e.p !in Trying(s)
    ensures EndsAttempt(capacity, s, e) ==> e.p in Trying(s)
    ensures Trying(Step(c, capacity, s, e)) ==
      if e.Begin? then Trying(s) + {e.p} else if EndsAttempt(capacity, s, e) then Trying(s) - {e.p} else Trying(s)
  {
  }

  lemma StepKeepsAccount<H, I, D>(c: Codec<H, I, D>, capacity: nat, s: State<H, I, D>, e: Event<I>)
    requires Shaped(capacity, s) && Enabled(c, capacity, s, e) && Accounted(s)
    ensures Accounted(Step(c, capacity, s, e))
  {
    TryingAfter(c, capacity, s, e);
    hide Trying;
  }

  /** attempts = delivered + in flight + counted failures, after any run. */
  lemma {:induction false} RunIsAccounted<H, I, D>(c: Codec<H, I, D>, capacity: nat, blank: H, events: seq<Event<I>>)
    requires Interleaving(c, capacity, blank, events)
    ensures var s := After(c, capacity, blank, events);
      s.attempts == |s.delivered| + (|s.log| - |s.delivered| + |Trying(s)|) + s.failures
  {
    if events == [] {
      assert Trying(After(c, capacity, blank, events)) == {};
    } else {
      var n := |events| - 1;
      RunIsAccounted(c, capacity, blank, events[..n]);
      StepKeepsAccount(c, capacity, After(c, capacity, blank, events[..n]), events[n]);
    }
  }
}
