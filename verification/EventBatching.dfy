/** The batches of one poll of the runtime's event ring (lib/events.enabled.cpp): entries are handed on one
    millisecond at a time, with the number of lost events added to the next batch, and the durations of
    phases are taken from their begin and end events. */
module EventBatching {
  import opened MetricTypes

  const NS_IN_MS: nat := 1000000
  const WORD_SIZE: nat := 4
  const TWO_TO_THE_63: nat := 0x8000_0000_0000_0000
  const TWO_TO_THE_64: nat := 0x1_0000_0000_0000_0000

  type Word = x: nat | x < TWO_TO_THE_64

  /** The conversion of a 64-bit word to a signed number. */
  function Signed(w: Word): (r: int)
    ensures 0 <= r + TWO_TO_THE_63 < TWO_TO_THE_64 && (r == w || r + TWO_TO_THE_64 == w)
  {
    if w < TWO_TO_THE_63 then w else w - TWO_TO_THE_64
  }

  datatype Phase = EV_MINOR | EV_MAJOR | OtherPhase(number: int)
  datatype Counter =
    | EV_C_FORCE_MINOR_ALLOC_SMALL | EV_C_FORCE_MINOR_MAKE_VECT | EV_C_FORCE_MINOR_SET_MINOR_HEAP_SIZE
    | EV_C_FORCE_MINOR_WEAK | EV_C_FORCE_MINOR_MEMPROF | EV_C_MINOR_PROMOTED | EV_C_MINOR_ALLOCATED
    | OtherCounter(number: int)

  datatype RingEvent =
    | Begin(phase: Phase, timestamp: Word)
    | End(phase: Phase, timestamp: Word)
    | Count(counter: Counter, timestamp: Word, value: Word)
    | Lost(count: nat)

  const LOST_EVENTS_NAME := "ocaml.eventring.lost_events"

  predicate RequiredPhase(phase: Phase) { !phase.OtherPhase? }

  predicate RequiredCounter(counter: Counter) { !counter.OtherCounter? }

  function PhaseName(phase: Phase): string {
    if phase == EV_MINOR then "ocaml.eventring.EV_MINOR" else "ocaml.eventring.EV_MAJOR"
  }

  function CounterName(counter: Counter): string {
    match counter
    case EV_C_FORCE_MINOR_ALLOC_SMALL => "ocaml.eventring.EV_C_FORCE_MINOR_ALLOC_SMALL"
    case EV_C_FORCE_MINOR_MAKE_VECT => "ocaml.eventring.EV_C_FORCE_MINOR_MAKE_VECT"
    case EV_C_FORCE_MINOR_SET_MINOR_HEAP_SIZE => "ocaml.eventring.EV_C_FORCE_MINOR_SET_MINOR_HEAP_SIZE"
    case EV_C_FORCE_MINOR_WEAK => "ocaml.eventring.EV_C_FORCE_MINOR_WEAK"
    case EV_C_FORCE_MINOR_MEMPROF => "ocaml.eventring.EV_C_FORCE_MINOR_MEMPROF"
    case EV_C_MINOR_PROMOTED => "ocaml.eventring.EV_C_MINOR_PROMOTED"
    case _ => "ocaml.eventring.EV_C_MINOR_ALLOCATED"
  }

  // ----- One poll: what is added and lost, and the groups that come out of it

  datatype Timed = Timed(entry: Entry, ms: nat)
  datatype Input = Add(timed: Timed) | Lose(count: nat)
  datatype Group = Group(items: seq<Timed>, lost: nat, stamp: nat)
  datatype Poll = Poll(groups: seq<Group>, current: seq<Timed>, lost: nat, last: nat)

  const START := Poll([], [], 0, 0)

  function Pushed(p: Poll): Poll {
    if p.current == [] then p else Poll(p.groups + [Group(p.current, p.lost, p.last)], [], 0, p.last)
  }

  function Adding(p: Poll, t: Timed): Poll {
    var q := if p.last != 0 && p.last != t.ms then Pushed(p) else p;
    q.(last := t.ms, current := q.current + [t])
  }

  function Next(p: Poll, i: Input): Poll {
    match i
    case Add(t) => Adding(p, t)
    case Lose(n) => p.(lost := p.lost + n)
  }

  function After(inputs: seq<Input>): Poll {
    if inputs == [] then START else Next(After(inputs[..|inputs| - 1]), inputs[|inputs| - 1])
  }

  /** The groups of a whole poll. */
  function Groups(inputs: seq<Input>): seq<Group> {
    Pushed(After(inputs)).groups
  }

  function Added(inputs: seq<Input>): seq<Timed> {
    if inputs == [] then []
    else Added(inputs[..|inputs| - 1])
         + if inputs[|inputs| - 1].Add? then [inputs[|inputs| - 1].timed] else []
  }

  function LostIn(inputs: seq<Input>): nat {
    if inputs == [] then 0
    else LostIn(inputs[..|inputs| - 1]) + if inputs[|inputs| - 1].Lose? then inputs[|inputs| - 1].count else 0
  }

  function Items(groups: seq<Group>): seq<Timed> {
    if groups == [] then [] else Items(groups[..|groups| - 1]) + groups[|groups| - 1].items
  }

  function Reported(groups: seq<Group>): nat {
    if groups == [] then 0 else Reported(groups[..|groups| - 1]) + groups[|groups| - 1].lost
  }

  lemma PushKeeps(p: Poll)
    ensures Items(Pushed(p).groups) + Pushed(p).current == Items(p.groups) + p.current
    ensures Reported(Pushed(p).groups) + Pushed(p).lost == Reported(p.groups) + p.lost
  {
    if p.current != [] {
      assert Pushed(p).groups[..|p.groups|] == p.groups;
    }
  }

  lemma {:induction false} NothingIsLost(inputs: seq<Input>)
    ensures Items(After(inputs).groups) + After(inputs).current == Added(inputs)
    ensures Reported(After(inputs).groups) + After(inputs).lost == LostIn(inputs)
    ensures Added(inputs) == [] ==> After(inputs).groups == []
    ensures Added(inputs) != [] ==> After(inputs).current != []
  {
    if inputs == [] {
    } else {
      var before, i := inputs[..|inputs| - 1], inputs[|inputs| - 1];
      var p := After(before);
      NothingIsLost(before);
      PushKeeps(p);
      if i.Add? {
        var q := if p.last != 0 && p.last != i.timed.ms then Pushed(p) else p;
        assert Items(q.groups) + (q.current + [i.timed]) == Items(q.groups) + q.current + [i.timed];
      }
    }
  }

  /** The batches of a poll hold what was added, in order and each once, and the lost events that they
      report add up to those that were lost, unless nothing at all was added. */
  lemma PollConserves(inputs: seq<Input>)
    ensures Items(Groups(inputs)) == Added(inputs)
    ensures Reported(Groups(inputs)) == if Added(inputs) == [] then 0 else LostIn(inputs)
  {
    NothingIsLost(inputs);
    PushKeeps(After(inputs));
    assert Items(Groups(inputs)) + [] == Items(Groups(inputs));
    assert After(inputs).groups == [] ==> Reported(After(inputs).groups) == 0;
  }

  predicate SameMillisecond(items: seq<Timed>) {
    forall i, j :: 0 <= i < |items| && 0 <= j < |items| ==> items[i].ms == items[j].ms
  }

  /** An entry of millisecond 0 comes right before one of another millisecond: 0 is also the mark for no
      entry yet. */
  predicate ZeroStep(items: seq<Timed>) {
    exists k :: 0 <= k < |items| - 1 && items[k].ms == 0 && items[k + 1].ms != 0
  }

  predicate Sorted(groups: seq<Group>) {
    && (forall i :: 0 <= i < |groups| ==> groups[i].items != [] && StampedSame(groups[i].items, groups[i].stamp))
    && (forall i :: 0 <= i < |groups| - 1 ==> groups[i].stamp != groups[i + 1].stamp)
  }

  predicate StampedSame(items: seq<Timed>, stamp: nat) {
    forall i :: 0 <= i < |items| ==> items[i].ms == stamp
  }

  predicate SomeMixed(groups: seq<Group>) {
    exists i :: 0 <= i < |groups| && !SameMillisecond(groups[i].items)
  }

  /** The entry added last is the last of the current batch, and the batch has its millisecond. */
  predicate UpToDate(p: Poll, added: seq<Timed>) {
    if added == [] then p == Poll([], [], p.lost, 0)
    else p.current != [] && p.current[|p.current| - 1] == added[|added| - 1] && p.last == added[|added| - 1].ms
  }

  lemma ZeroStepGrows(added: seq<Timed>, t: Timed)
    ensures ZeroStep(added + [t]) <==>
              ZeroStep(added) || (added != [] && added[|added| - 1].ms == 0 && t.ms != 0)
  {
    var more := added + [t];
    if ZeroStep(added) {
      var k :| 0 <= k < |added| - 1 && added[k].ms == 0 && added[k + 1].ms != 0;
      assert more[k].ms == 0 && more[k + 1].ms != 0;
    }
    if added != [] && added[|added| - 1].ms == 0 && t.ms != 0 {
      assert more[|added| - 1].ms == 0 && more[|added| - 1 + 1].ms != 0;
    }
    if ZeroStep(more) {
      var k :| 0 <= k < |more| - 1 && more[k].ms == 0 && more[k + 1].ms != 0;
      assert k < |added| - 1 ==> added[k].ms == 0 && added[k + 1].ms != 0;
    }
  }

  lemma PushSorts(p: Poll)
    requires Sorted(p.groups) && StampedSame(p.current, p.last)
    requires p.current != [] && p.groups != [] ==> p.groups[|p.groups| - 1].stamp != p.last
    ensures Sorted(Pushed(p).groups)
  {
  }

  lemma PushKeepsMixed(p: Poll)
    requires SomeMixed(p.groups) || !SameMillisecond(p.current)
    ensures SomeMixed(Pushed(p).groups) || !SameMillisecond(Pushed(p).current)
  {
    var groups := Pushed(p).groups;
    if SomeMixed(p.groups) {
      var i :| 0 <= i < |p.groups| && !SameMillisecond(p.groups[i].items);
      assert groups[i] == p.groups[i];
    } else {
      assert !SameMillisecond(groups[|p.groups|].items);
    }
  }

  /** The groups so far and the current batch have one millisecond each, and neighbours differ. */
  predicate InOrder(p: Poll) {
    && Sorted(p.groups) && StampedSame(p.current, p.last)
    && (p.current != [] && p.groups != [] ==> p.groups[|p.groups| - 1].stamp != p.last)
  }

  lemma AddingKeepsOrder(p: Poll, t: Timed)
    requires InOrder(p) && (p.current == [] ==> p.groups == [] && p.last == 0)
    requires p.current != [] && p.last == 0 ==> t.ms == 0
    ensures InOrder(Adding(p, t))
  {
    PushSorts(p);
  }

  lemma {:induction false} OrderSoFar(inputs: seq<Input>)
    ensures UpToDate(After(inputs), Added(inputs))
    ensures !ZeroStep(Added(inputs)) ==> InOrder(After(inputs))
  {
    hide InOrder, ZeroStep;
    if inputs == [] {
      OrderAtStart();
    } else {
      var before, i := inputs[..|inputs| - 1], inputs[|inputs| - 1];
      OrderSoFar(before);
      if i.Lose? {
        assert Added(inputs) == Added(before);
        if !ZeroStep(Added(before)) {
          OrderIgnoresLosses(After(before), i.count);
        }
      } else {
        ZeroStepGrows(Added(before), i.timed);
        if !ZeroStep(Added(inputs)) {
          AddingKeepsOrder(After(before), i.timed);
        }
      }
    }
  }

  lemma OrderAtStart()
    ensures InOrder(START)
  {
  }

  lemma OrderIgnoresLosses(p: Poll, n: nat)
    requires InOrder(p)
    ensures InOrder(p.(lost := p.lost + n))
  {
  }

  /** With a step from millisecond 0 some batch has two milliseconds. */
  lemma {:induction false} MixedSoFar(inputs: seq<Input>)
    requires ZeroStep(Added(inputs))
    ensures SomeMixed(After(inputs).groups) || !SameMillisecond(After(inputs).current)
  {
    assert inputs != [];
    var before, i := inputs[..|inputs| - 1], inputs[|inputs| - 1];
    var p := After(before);
    OrderSoFar(before);
    if i.Lose? {
      MixedSoFar(before);
    } else {
      ZeroStepGrows(Added(before), i.timed);
      var q := if p.last != 0 && p.last != i.timed.ms then Pushed(p) else p;
      var current := q.current + [i.timed];
      if ZeroStep(Added(before)) {
        MixedSoFar(before);
        PushKeepsMixed(p);
        if !SameMillisecond(q.current) {
          var j, k :| 0 <= j < |q.current| && 0 <= k < |q.current| && q.current[j].ms != q.current[k].ms;
          assert current[j].ms != current[k].ms;
        }
      } else {
        assert current[|p.current| - 1].ms != current[|p.current|].ms;
      }
    }
  }

  lemma SortedIsNotMixed(groups: seq<Group>)
    requires Sorted(groups)
    ensures !SomeMixed(groups)
  {
    forall i | 0 <= i < |groups| ensures SameMillisecond(groups[i].items) {
      assert StampedSame(groups[i].items, groups[i].stamp);
    }
  }

  /** Every batch has one millisecond if and only if no entry of millisecond 0 comes right before one of
      another. Then the batches are stamped with it, and neighbouring batches differ. */
  lemma BatchesAreMilliseconds(inputs: seq<Input>)
    ensures !SomeMixed(Groups(inputs)) <==> !ZeroStep(Added(inputs))
    ensures !ZeroStep(Added(inputs)) ==> Sorted(Groups(inputs))
  {
    var p := After(inputs);
    OrderSoFar(inputs);
    if ZeroStep(Added(inputs)) {
      MixedSoFar(inputs);
      PushKeepsMixed(p);
      assert SameMillisecond([]);
    } else {
      PushSorts(p);
      SortedIsNotMixed(Groups(inputs));
    }
  }

  /** Timestamps of at least one millisecond have no such step. */
  lemma PositiveTimesAreSorted(inputs: seq<Input>)
    requires forall k :: 0 <= k < |Added(inputs)| ==> Added(inputs)[k].ms > 0
    ensures Sorted(Groups(inputs))
  {
    BatchesAreMilliseconds(inputs);
  }

  // ----- What the events of the ring add

  type Phases = map<Phase, Word>

  function Duration(begin: Word, end: Word): Word {
    (end - begin) % TWO_TO_THE_64
  }

  function Bytes(counter: Counter, value: Word): Word {
    if counter == EV_C_MINOR_PROMOTED || counter == EV_C_MINOR_ALLOCATED then value * WORD_SIZE % TWO_TO_THE_64
    else value
  }

  function CounterUnit(counter: Counter): Unit {
    if counter == EV_C_MINOR_PROMOTED || counter == EV_C_MINOR_ALLOCATED then BYTES else EVENTS
  }

  function PhasesAfter(phases: Phases, events: seq<RingEvent>): Phases {
    if events == [] then phases
    else
      var before := PhasesAfter(phases, events[..|events| - 1]);
      match events[|events| - 1]
      case Begin(phase, t) => if RequiredPhase(phase) then before[phase := t] else before
      case End(phase, _) => if RequiredPhase(phase) then before - {phase} else before
      case _ => before
  }

  /** What an event adds to the poll, given the phases that have begun before it. */
  function InputOf(phases: Phases, event: RingEvent): seq<Input> {
    match event
    case Begin(_, _) => []
    case End(phase, t) =>
      if RequiredPhase(phase) && phase in phases then
        [Add(Timed(LongVar(PhaseName(phase), NANOSECONDS, Signed(Duration(phases[phase], t))), t / NS_IN_MS))]
      else []
    case Count(counter, t, value) =>
      if RequiredCounter(counter) then
        [Add(Timed(LongVar(CounterName(counter), CounterUnit(counter), Signed(Bytes(counter, value))), t / NS_IN_MS))]
      else []
    case Lost(n) => [Lose(n)]
  }

  function Inputs(phases: Phases, events: seq<RingEvent>): seq<Input> {
    if events == [] then []
    else
      var before := events[..|events| - 1];
      Inputs(phases, before) + InputOf(PhasesAfter(phases, before), events[|events| - 1])
  }

  predicate Marks(event: RingEvent, phase: Phase) {
    (event.Begin? || event.End?) && event.phase == phase
  }

  /** The last mark of the phase is a begin at the given time: in these events or, when they have no mark of
      it, before them. */
  ghost predicate BeganAt(phases: Phases, events: seq<RingEvent>, phase: Phase, begin: Word) {
    || (&& (forall j :: 0 <= j < |events| ==> !Marks(events[j], phase))
        && phase in phases && phases[phase] == begin)
    || exists i :: LastBegin(events, phase, begin, i)
  }

  predicate LastBegin(events: seq<RingEvent>, phase: Phase, begin: Word, i: int) {
    && 0 <= i < |events| && events[i] == Begin(phase, begin)
    && forall j :: i < j < |events| ==> !Marks(events[j], phase)
  }

  /** A phase has a begin time if and only if its last mark is a begin, and the time is that one's. */
  lemma {:induction false} PhasesAreLastBegins(phases: Phases, events: seq<RingEvent>, phase: Phase, begin: Word)
    requires RequiredPhase(phase)
    ensures (phase in PhasesAfter(phases, events) && PhasesAfter(phases, events)[phase] == begin)
       <==> BeganAt(phases, events, phase, begin)
  {
    if events == [] {
    } else {
      var before, event := events[..|events| - 1], events[|events| - 1];
      if Marks(event, phase) {
        assert LastBegin(events, phase, begin, |events| - 1) <==> event == Begin(phase, begin);
      } else {
        PhasesAreLastBegins(phases, before, phase, begin);
        BeganBefore(phases, before, event, phase, begin);
        assert before + [event] == events;
      }
    }
  }

  /** An event that does not mark the phase does not change when it began. */
  lemma BeganBefore(phases: Phases, before: seq<RingEvent>, event: RingEvent, phase: Phase, begin: Word)
    requires !Marks(event, phase)
    ensures BeganAt(phases, before + [event], phase, begin) <==> BeganAt(phases, before, phase, begin)
  {
    var events := before + [event];
    assert forall j :: 0 <= j < |before| ==> events[j] == before[j];
    if i :| LastBegin(before, phase, begin, i) {
      assert LastBegin(events, phase, begin, i);
    }
    if i :| LastBegin(events, phase, begin, i) {
      assert events[i] == Begin(phase, begin) && i < |before|;
      assert LastBegin(before, phase, begin, i);
    }
  }

  /** The end of a phase adds the time since its last begin, and nothing if its last mark is not a begin. */
  lemma EndAddsItsDuration(phases: Phases, events: seq<RingEvent>, phase: Phase, begin: Word, end: Word)
    requires RequiredPhase(phase)
    ensures begin <= end ==> Duration(begin, end) == end - begin
    ensures BeganAt(phases, events, phase, begin) ==>
              Inputs(phases, events + [End(phase, end)]) == Inputs(phases, events)
                + [Add(Timed(LongVar(PhaseName(phase), NANOSECONDS, Signed(Duration(begin, end))), end / NS_IN_MS))]
    ensures (forall b: Word :: !BeganAt(phases, events, phase, b)) ==>
              Inputs(phases, events + [End(phase, end)]) == Inputs(phases, events)
  {
    var more := events + [End(phase, end)];
    assert more[..|events|] == events;
    PhasesAreLastBegins(phases, events, phase, begin);
    if phase in PhasesAfter(phases, events) {
      PhasesAreLastBegins(phases, events, phase, PhasesAfter(phases, events)[phase]);
    }
    assert Inputs(phases, more) == Inputs(phases, events) + InputOf(PhasesAfter(phases, events), End(phase, end));
  }

  /** A counter adds its value at its time, words taken to bytes; one that is not required adds nothing. */
  lemma CounterAddsItsValue(phases: Phases, events: seq<RingEvent>, counter: Counter, t: Word, value: Word)
    ensures Inputs(phases, events + [Count(counter, t, value)]) ==
      Inputs(phases, events) +
      if counter.OtherCounter? then []
      else if counter == EV_C_MINOR_PROMOTED || counter == EV_C_MINOR_ALLOCATED then
        [Add(Timed(Entry(CounterName(counter), VARIABLE, BYTES,
                         Data(LONG, "", Signed(4 * value % 0x1_0000_0000_0000_0000))), t / 1000000))]
      else
        [Add(Timed(Entry(CounterName(counter), VARIABLE, EVENTS, Data(LONG, "", Signed(value))), t / 1000000))]
  {
    var more := events + [Count(counter, t, value)];
    assert more[..|events|] == events && more[|events|] == Count(counter, t, value);
    assert value * 4 == 4 * value;
  }

  // ----- The poll itself

  /** A batch as it is handed on: the lost events go last. */
  function Emitted(group: Group, adjustment: int): Batch {
    var own := Entries(group.items);
    Batch(if group.lost > 0 then own + [LostEntry(group.lost)] else own, adjustment + group.stamp)
  }

  function LostEntry(n: nat): Entry {
    LongVar(LOST_EVENTS_NAME, NONE, n)
  }

  function Entries(items: seq<Timed>): seq<Entry> {
    seq(|items|, i requires 0 <= i < |items| => items[i].entry)
  }

  function EmittedAll(groups: seq<Group>, adjustment: int): seq<Batch> {
    seq(|groups|, i requires 0 <= i < |groups| => Emitted(groups[i], adjustment))
  }

  lemma EmitOneMore(groups: seq<Group>, group: Group, adjustment: int)
    ensures EmittedAll(groups + [group], adjustment) == EmittedAll(groups, adjustment) + [Emitted(group, adjustment)]
  {
  }

  /** A batch holds its group's entries in order, then the report of lost events if there are any, and has the
      time of its last entry, moved to the real-time clock. */
  lemma BatchIsItsGroup(inputs: seq<Input>, adjustment: int, g: nat)
    requires g < |Groups(inputs)|
    ensures var group, batch := Groups(inputs)[g], EmittedAll(Groups(inputs), adjustment)[g];
      && group.items != [] && batch.millis == adjustment + group.items[|group.items| - 1].ms
      && |batch.entries| == |group.items| + (if group.lost > 0 then 1 else 0)
      && (forall k :: 0 <= k < |group.items| ==> batch.entries[k] == group.items[k].entry)
      && (group.lost > 0 ==>
            batch.entries[|group.items|] == Entry("ocaml.eventring.lost_events", VARIABLE, NONE,
                                                  Data(LONG, "", group.lost)))
  {
    LastStamped(inputs);
  }

  lemma {:induction false} LastStamped(inputs: seq<Input>)
    ensures forall g :: 0 <= g < |Groups(inputs)| ==>
      Groups(inputs)[g].items != [] && Groups(inputs)[g].stamp == LastMs(Groups(inputs)[g].items)
    ensures After(inputs).current != [] ==> After(inputs).last == LastMs(After(inputs).current)
    ensures forall g :: 0 <= g < |After(inputs).groups| ==>
      After(inputs).groups[g].items != [] && After(inputs).groups[g].stamp == LastMs(After(inputs).groups[g].items)
  {
    if inputs != [] {
      LastStamped(inputs[..|inputs| - 1]);
    }
  }

  function LastMs(items: seq<Timed>): nat {
    if items == [] then 0 else items[|items| - 1].ms
  }

  /** Every entry is handed on with its event's time if and only if no entry of millisecond 0 comes right before
      one of another. */
  lemma EntriesHaveTheirTimes(inputs: seq<Input>, adjustment: int)
    ensures (forall g, k :: 0 <= g < |Groups(inputs)| && 0 <= k < |Groups(inputs)[g].items| ==>
               EmittedAll(Groups(inputs), adjustment)[g].millis == adjustment + Groups(inputs)[g].items[k].ms)
       <==> !ZeroStep(Added(inputs))
  {
    hide ZeroStep;
    BatchesAreMilliseconds(inputs);
    var groups := Groups(inputs);
    forall g | 0 <= g < |groups|
      ensures EmittedAll(groups, adjustment)[g].millis == adjustment + LastMs(groups[g].items) && groups[g].items != []
    {
      BatchIsItsGroup(inputs, adjustment, g);
    }
    if ZeroStep(Added(inputs)) {
      var g :| 0 <= g < |groups| && !SameMillisecond(groups[g].items);
      var j, k :| 0 <= j < |groups[g].items| && 0 <= k < |groups[g].items|
                  && groups[g].items[j].ms != groups[g].items[k].ms;
    }
  }

  /** The entries of some batches, without those that report lost events. */
  function Own(batches: seq<Batch>): seq<Entry> {
    if batches == [] then [] else Own(batches[..|batches| - 1]) + WithoutLost(batches[|batches| - 1].entries)
  }

  function WithoutLost(entries: seq<Entry>): seq<Entry> {
    if entries == [] then []
    else WithoutLost(entries[..|entries| - 1])
         + if entries[|entries| - 1].name == LOST_EVENTS_NAME then [] else [entries[|entries| - 1]]
  }

  predicate NoneLost(items: seq<Timed>) {
    forall i :: 0 <= i < |items| ==> items[i].entry.name != LOST_EVENTS_NAME
  }

  lemma {:induction false} WithoutLostIsAll(items: seq<Timed>)
    requires NoneLost(items)
    ensures WithoutLost(Entries(items)) == Entries(items)
  {
    if items == [] {
    } else {
      WithoutLostIsAll(items[..|items| - 1]);
      assert Entries(items)[..|items| - 1] == Entries(items[..|items| - 1]);
      assert items[|items| - 1].entry.name != LOST_EVENTS_NAME;
    }
  }

  lemma OwnOfGroup(group: Group, adjustment: int)
    requires NoneLost(group.items)
    ensures WithoutLost(Emitted(group, adjustment).entries) == Entries(group.items)
  {
    WithoutLostIsAll(group.items);
    var own := Entries(group.items);
    assert (own + [LostEntry(group.lost)])[..|own|] == own;
  }

  lemma OwnOfNothing(adjustment: int)
    ensures Own(EmittedAll([], adjustment)) == Entries([]) == []
  {
  }

  lemma OwnOneMore(batches: seq<Batch>, batch: Batch)
    ensures Own(batches + [batch]) == Own(batches) + WithoutLost(batch.entries)
  {
    assert (batches + [batch])[..|batches|] == batches;
  }

  lemma EntriesTogether(a: seq<Timed>, b: seq<Timed>)
    ensures Entries(a + b) == Entries(a) + Entries(b)
  {
  }

  lemma NoneLostApart(a: seq<Timed>, b: seq<Timed>)
    requires NoneLost(a + b)
    ensures NoneLost(a) && NoneLost(b)
  {
    assert forall i :: 0 <= i < |a| ==> (a + b)[i] == a[i];
    assert forall i :: 0 <= i < |b| ==> (a + b)[|a| + i] == b[i];
  }

  lemma {:induction false} OwnOfGroups(groups: seq<Group>, adjustment: int)
    requires NoneLost(Items(groups))
    ensures Own(EmittedAll(groups, adjustment)) == Entries(Items(groups))
  {
    hide Emitted, EmittedAll, WithoutLost, Own, NoneLost, Entries;
    if groups == [] {
      OwnOfNothing(adjustment);
    } else {
      var rest, group := groups[..|groups| - 1], groups[|groups| - 1];
      assert rest + [group] == groups;
      NoneLostApart(Items(rest), group.items);
      OwnOfGroups(rest, adjustment);
      OwnOfGroup(group, adjustment);
      EmitOneMore(rest, group, adjustment);
      OwnOneMore(EmittedAll(rest, adjustment), Emitted(group, adjustment));
      EntriesTogether(Items(rest), group.items);
    }
  }

  /** What a poll hands on, without its reports of lost events, is what its events added, in order. */
  lemma BatchesAreWhatWasAdded(phases: Phases, events: seq<RingEvent>, adjustment: int)
    ensures Own(EmittedAll(Groups(Inputs(phases, events)), adjustment)) == Entries(Added(Inputs(phases, events)))
  {
    var inputs := Inputs(phases, events);
    NeverLostEvents(phases, events);
    PollConserves(inputs);
    OwnOfGroups(Groups(inputs), adjustment);
  }

  lemma {:induction false} NeverLostEvents(phases: Phases, events: seq<RingEvent>)
    ensures NoneLost(Added(Inputs(phases, events)))
  {
    if events == [] {
    } else {
      var before, event := events[..|events| - 1], events[|events| - 1];
      var inputs, more := Inputs(phases, before), InputOf(PhasesAfter(phases, before), event);
      NeverLostEvents(phases, before);
      if more == [] {
        assert inputs + more == inputs;
      } else {
        assert (inputs + more)[..|inputs|] == inputs && (inputs + more)[|inputs|] == more[0];
        NamesDiffer();
      }
    }
  }

  lemma NamesDiffer()
    ensures forall phase :: PhaseName(phase) != LOST_EVENTS_NAME
    ensures forall counter :: CounterName(counter) != LOST_EVENTS_NAME
  {
    forall phase ensures PhaseName(phase) != LOST_EVENTS_NAME {
      assert PhaseName(phase)[16] == 'E' && LOST_EVENTS_NAME[16] == 'l';
    }
    forall counter ensures CounterName(counter) != LOST_EVENTS_NAME {
      assert CounterName(counter)[16] == 'E' && LOST_EVENTS_NAME[16] == 'l';
    }
  }

  class Listener {
    var batches: seq<Batch>

    constructor ()
      ensures batches == []
    {
      batches := [];
    }

    method RecordEntries(entries: seq<Entry>, millis: int)
      modifies this
      ensures batches == old(batches) + [Batch(entries, millis)]
    {
      batches := batches + [Batch(entries, millis)];
    }
  }

  class PollState {
    const listener: Listener
    const adjustment: int
    var entries: seq<Entry>
    var lostEvents: nat
    var lastTimestampInMs: nat
    ghost const before: seq<Batch>
    ghost var poll: Poll

    ghost predicate Valid()
      reads this, listener
    {
      && entries == Entries(poll.current) && lostEvents == poll.lost && lastTimestampInMs == poll.last
      && listener.batches == before + EmittedAll(poll.groups, adjustment)
    }

    constructor (listener: Listener, adjustment: int)
      ensures Valid() && poll == START && this.listener == listener && this.adjustment == adjustment
      ensures before == listener.batches
    {
      this.listener, this.adjustment := listener, adjustment;
      entries, lostEvents, lastTimestampInMs := [], 0, 0;
      before, poll := listener.batches, START;
    }

    method AddEntry(entry: Entry, timestampInNs: Word)
      requires Valid()
      modifies this, listener
      ensures Valid() && poll == Next(old(poll), Add(Timed(entry, timestampInNs / NS_IN_MS)))
    {
      var timestampInMs := timestampInNs / NS_IN_MS;
      if lastTimestampInMs == 0 {
        lastTimestampInMs := timestampInMs;
      } else if lastTimestampInMs != timestampInMs {
        Push();
        lastTimestampInMs := timestampInMs;
      }
      entries := entries + [entry];
      poll := poll.(last := timestampInMs, current := poll.current + [Timed(entry, timestampInMs)]);
    }

    method LoseEvents(n: nat)
      requires Valid()
      modifies this
      ensures Valid() && poll == Next(old(poll), Lose(n))
    {
      lostEvents := lostEvents + n;
      poll := poll.(lost := poll.lost + n);
    }

    method Push()
      requires Valid()
      modifies this, listener
      ensures Valid() && poll == Pushed(old(poll))
    {
      assert |entries| == |poll.current|;
      if entries != [] {
        if lostEvents > 0 {
          entries := entries + [LostEntry(lostEvents)];
          lostEvents := 0;
        }
        assert Entries([]) == [];
        assert Batch(entries, adjustment + lastTimestampInMs)
            == Emitted(Group(poll.current, poll.lost, poll.last), adjustment);
        listener.RecordEntries(entries, adjustment + lastTimestampInMs);
        entries := [];
        EmitOneMore(poll.groups, Group(poll.current, poll.lost, poll.last), adjustment);
        poll := Pushed(poll);
      }
    }
  }

  class EventRing {
    var phaseToEventState: Phases

    constructor ()
      ensures phaseToEventState == map[]
    {
      phaseToEventState := map[];
    }

    method EventRingBegin(timestamp: Word, phase: Phase)
      modifies this
      ensures phaseToEventState == PhasesAfter(old(phaseToEventState), [Begin(phase, timestamp)])
    {
      if RequiredPhase(phase) {
        phaseToEventState := phaseToEventState[phase := timestamp];
      }
    }

    method EventRingEnd(pollState: PollState, timestamp: Word, phase: Phase)
      requires pollState.Valid()
      modifies this, pollState, pollState.listener
      ensures pollState.Valid()
      ensures phaseToEventState == PhasesAfter(old(phaseToEventState), [End(phase, timestamp)])
      ensures pollState.poll == AfterInputs(old(pollState.poll), InputOf(old(phaseToEventState), End(phase, timestamp)))
    {
      if RequiredPhase(phase) && phase in phaseToEventState {
        var duration := Duration(phaseToEventState[phase], timestamp);
        pollState.AddEntry(LongVar(PhaseName(phase), NANOSECONDS, Signed(duration)), timestamp);
        phaseToEventState := phaseToEventState - {phase};
      }
    }

    method EventRingCounter(pollState: PollState, timestamp: Word, counter: Counter, value: Word)
      requires pollState.Valid()
      modifies pollState, pollState.listener
      ensures pollState.Valid()
      ensures pollState.poll
           == AfterInputs(old(pollState.poll), InputOf(phaseToEventState, Count(counter, timestamp, value)))
    {
      if RequiredCounter(counter) {
        var entry := LongVar(CounterName(counter), CounterUnit(counter), Signed(Bytes(counter, value)));
        pollState.AddEntry(entry, timestamp);
      }
    }

    /** One poll hands on the groups of what its events add, after whatever was handed on before. */
    method ReadRuntimeEvents(listener: Listener, adjustment: int, events: seq<RingEvent>)
      modifies this, listener
      ensures phaseToEventState == PhasesAfter(old(phaseToEventState), events)
      ensures listener.batches
           == old(listener.batches) + EmittedAll(Groups(Inputs(old(phaseToEventState), events)), adjustment)
    {
      ghost var phases := phaseToEventState;
      var pollState := new PollState(listener, adjustment);
      for i := 0 to |events|
        invariant pollState.Valid() && fresh(pollState) && pollState.listener == listener
        invariant pollState.adjustment == adjustment && pollState.before == old(listener.batches)
        invariant phaseToEventState == PhasesAfter(phases, events[..i])
        invariant pollState.poll == After(Inputs(phases, events[..i]))
      {
        OneMoreEvent(phases, events, i);
        match events[i] {
          case Begin(phase, timestamp) =>
            EventRingBegin(timestamp, phase);
          case End(phase, timestamp) =>
            EventRingEnd(pollState, timestamp, phase);
          case Count(counter, timestamp, value) =>
            EventRingCounter(pollState, timestamp, counter, value);
          case Lost(n) =>
            pollState.LoseEvents(n);
        }
      }
      assert events[..|events|] == events;
      pollState.Push();
    }
  }

  function AfterInputs(p: Poll, inputs: seq<Input>): Poll
    requires |inputs| <= 1
  {
    if inputs == [] then p else Next(p, inputs[0])
  }

  lemma OneMoreEvent(phases: Phases, events: seq<RingEvent>, i: nat)
    requires i < |events|
    ensures var now := PhasesAfter(phases, events[..i]);
            && PhasesAfter(phases, events[..i + 1]) == PhasesAfter(now, [events[i]])
            && After(Inputs(phases, events[..i + 1]))
               == AfterInputs(After(Inputs(phases, events[..i])), InputOf(now, events[i]))
  {
    hide InputOf, After, AfterInputs, PhasesAfter;
    assert events[..i + 1][..i] == events[..i];
    var now := PhasesAfter(phases, events[..i]);
    PhasesOneMore(phases, events[..i], events[..i + 1]);
    AtMostOneInput(now, events[i]);
    AfterOneMore(Inputs(phases, events[..i]), InputOf(now, events[i]));
  }

  lemma PhasesOneMore(phases: Phases, events: seq<RingEvent>, more: seq<RingEvent>)
    requires more != [] && more[..|more| - 1] == events
    ensures PhasesAfter(phases, more) == PhasesAfter(PhasesAfter(phases, events), [more[|more| - 1]])
  {
    var now := PhasesAfter(phases, events);
    assert PhasesAfter(now, [more[|more| - 1]][..0]) == now;
  }

  lemma AtMostOneInput(phases: Phases, event: RingEvent)
    ensures |InputOf(phases, event)| <= 1
  {
  }

  lemma AfterOneMore(inputs: seq<Input>, more: seq<Input>)
    requires |more| <= 1
    ensures After(inputs + more) == AfterInputs(After(inputs), more)
  {
    if more == [] {
      assert inputs + more == inputs;
    } else {
      assert (inputs + more)[..|inputs|] == inputs;
    }
  }
}
