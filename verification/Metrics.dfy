/** Metric names and ids (lib/metrics.cpp): the metrics thread names each metric on the queue before it
    sends samples of it, takes back an id whose name did not fit into the queue, and keeps the constants
    that could not be named for its next attempt. */
module Metrics {
  import opened Dictionaries
  import opened MetricTypes

  datatype Info = Info(name: string, id: nat, variability: Variability, dataType: DataType, unit: Unit)
  datatype Sample = Sample(id: nat, data: Data)

  datatype Message = Information(info: Info) | Samples(samples: seq<Sample>, millis: int) | ConstantsComplete

  const DURATION_NAME := "opsian.metrics.read_duration"
  const DURATION_ID: nat := 1
  const DURATION_INFO := Info(DURATION_NAME, DURATION_ID, VARIABLE, LONG, NANOSECONDS)

  function InfoOf(entry: Entry, id: nat): Info {
    Info(entry.name, id, entry.variability, entry.data.dataType, entry.unit)
  }

  /** The names on the queue, in order. */
  function Infos(stream: seq<Message>): seq<Info> {
    if stream == [] then []
    else Infos(stream[..|stream| - 1])
         + if stream[|stream| - 1].Information? then [stream[|stream| - 1].info] else []
  }

  function Completions(stream: seq<Message>): nat {
    if stream == [] then 0
    else Completions(stream[..|stream| - 1]) + if stream[|stream| - 1].ConstantsComplete? then 1 else 0
  }

  /** The messages with samples on the queue, in order. */
  function Sampled(stream: seq<Message>): seq<Message> {
    if stream == [] then []
    else Sampled(stream[..|stream| - 1]) + if stream[|stream| - 1].Samples? then [stream[|stream| - 1]] else []
  }

  lemma SampledOneMoreMessage(stream: seq<Message>, m: Message)
    ensures Sampled(stream + [m]) == Sampled(stream) + if m.Samples? then [m] else []
  {
    assert (stream + [m])[..|stream|] == stream;
  }

  /** The map and the names on the queue are the same dictionary, numbered 1, 2, ... in order. */
  ghost predicate Dictionary(ids: map<string, nat>, infos: seq<Info>) {
    && |ids| == |infos|
    && (forall k :: 0 <= k < |infos| ==>
          infos[k].id == k + 1 && infos[k].name in ids && ids[infos[k].name] == k + 1)
    && (forall name :: name in ids ==> 1 <= ids[name] <= |infos| && infos[ids[name] - 1].name == name)
  }

  /** The ids of a dictionary are exactly 1 to its size, and no two names share one. */
  lemma IdsAreExact(ids: map<string, nat>, infos: seq<Info>)
    requires Dictionary(ids, infos)
    ensures forall m, n :: m in ids && n in ids && ids[m] == ids[n] ==> m == n
    ensures forall id :: 1 <= id <= |ids| <==> id in ids.Values
  {
    forall id ensures 1 <= id <= |ids| <==> id in ids.Values {
      if 1 <= id <= |ids| {
        assert infos[id - 1].name in ids && ids[infos[id - 1].name] == id;
      }
    }
  }

  lemma IdIsPositive(ids: map<string, nat>, infos: seq<Info>, name: string)
    requires Dictionary(ids, infos) && name in ids
    ensures ids[name] > 0
  {
  }

  lemma DictionaryGrows(ids: map<string, nat>, infos: seq<Info>, info: Info)
    requires Dictionary(ids, infos) && info.name !in ids && info.id == |ids| + 1
    ensures Dictionary(ids[info.name := info.id], infos + [info])
  {
  }

  /** What inserting the duration metric does to the map: nothing if it is there already. */
  function WithDuration(ids: map<string, nat>): map<string, nat> {
    if DURATION_NAME in ids then ids else ids[DURATION_NAME := DURATION_ID]
  }

  predicate OnlyDuration(ids: map<string, nat>) {
    ids == map[DURATION_NAME := DURATION_ID]
  }

  /** The duration metric is announced under the fixed id 1 whatever the map holds. The dictionary survives
      that exactly if the map is still empty. */
  lemma DurationMustComeFirst(ids: map<string, nat>, infos: seq<Info>)
    requires Dictionary(ids, infos)
    ensures Dictionary(WithDuration(ids), infos + [DURATION_INFO]) <==> ids == map[]
  {
    if ids == map[] {
      assert infos == [];
      DictionaryGrows(ids, infos, DURATION_INFO);
    } else {
      assert |infos| > 0;
      assert (infos + [DURATION_INFO])[|infos|] == DURATION_INFO;
    }
  }

  /** An enable that runs after the metrics thread has looked for one and before it reads lets an entry
      take id 1, which the duration metric is then given too. */
  lemma LateEnableSharesAnId(entry: Entry)
    requires entry.name != DURATION_NAME
    ensures var ids, infos := map[][entry.name := 1], [InfoOf(entry, 1)];
            && Dictionary(ids, infos)
            && WithDuration(ids)[entry.name] == WithDuration(ids)[DURATION_NAME]
            && !Dictionary(WithDuration(ids), infos + [DURATION_INFO])
  {
    var ids: map<string, nat>, infos := map[][entry.name := 1], [InfoOf(entry, 1)];
    assert Dictionary(ids, infos) by {
      DictionaryGrows(map[], [], infos[0]);
      assert [] + infos == infos;
    }
    assert entry.name in ids;
    DurationMustComeFirst(ids, infos);
  }

  ghost predicate Named(samples: seq<Sample>, count: nat) {
    forall s :: s in samples ==> 1 <= s.id <= count
  }

  /** Every sample carries an id that was named earlier in the stream. */
  ghost predicate SamplesNamed(stream: seq<Message>) {
    forall i {:trigger stream[i].samples} :: 0 <= i < |stream| && stream[i].Samples? ==>
      Named(stream[i].samples, |Infos(stream[..i])|)
  }

  lemma NamedTogether(a: seq<Sample>, b: seq<Sample>, count: nat)
    requires Named(a, count) && Named(b, count)
    ensures Named(a + b, count)
  {
  }

  lemma SamplesStayNamed(stream: seq<Message>, m: Message)
    requires SamplesNamed(stream)
    ensures SamplesNamed(stream + [m]) <==> (m.Samples? ==> Named(m.samples, |Infos(stream)|))
  {
    var more := stream + [m];
    assert more[..|stream|] == stream;
    forall i | 0 <= i < |stream| && more[i].Samples? ensures Named(more[i].samples, |Infos(more[..i])|) {
      assert more[..i] == stream[..i] && more[i].samples == stream[i].samples;
    }
    if m.Samples? {
      assert more[|stream|].samples == m.samples;
    }
  }

  lemma OneMore(stream: seq<Message>, m: Message)
    ensures Infos(stream + [m]) == Infos(stream) + if m.Information? then [m.info] else []
    ensures Completions(stream + [m]) == Completions(stream) + if m.ConstantsComplete? then 1 else 0
  {
    assert (stream + [m])[..|stream|] == stream;
  }

  function Constants(entries: seq<Entry>): set<Entry> {
    set e | e in entries && e.variability == CONSTANT
  }

  /** The entries that were named have ids. */
  ghost predicate HaveIds(entries: seq<Entry>, named: seq<bool>, ids: map<string, nat>) {
    |named| == |entries| && forall k :: 0 <= k < |entries| && named[k] ==> entries[k].name in ids
  }

  /** The samples of the entries that have been named, each under its own id. */
  ghost function SamplesOf(entries: seq<Entry>, named: seq<bool>, ids: map<string, nat>): seq<Sample>
    requires HaveIds(entries, named, ids)
  {
    if entries == [] then []
    else
      var last := |entries| - 1;
      SamplesOf(entries[..last], named[..last], ids)
      + if named[last] then [Sample(ids[entries[last].name], entries[last].data)] else []
  }

  /** How many entries were refused. */
  ghost function Refusals(named: seq<bool>): nat {
    if named == [] then 0 else Refusals(named[..|named| - 1]) + if named[|named| - 1] then 0 else 1
  }

  lemma RefusalsOneMore(named: seq<bool>, last: bool)
    ensures Refusals(named + [last]) == Refusals(named) + if last then 0 else 1
  {
    assert (named + [last])[..|named|] == named;
  }

  lemma {:induction false} NoRefusals(entries: seq<Entry>, named: seq<bool>)
    requires |named| == |entries| && Refusals(named) == 0
    ensures (forall k :: 0 <= k < |named| ==> named[k]) && Refused(entries, named) == []
  {
    if entries == [] {
    } else {
      NoRefusals(entries[..|entries| - 1], named[..|entries| - 1]);
    }
  }

  /** The constants among the entries that have not been named. */
  ghost function Refused(entries: seq<Entry>, named: seq<bool>): seq<Entry>
    requires |named| == |entries|
  {
    if entries == [] then []
    else
      var last := |entries| - 1;
      Refused(entries[..last], named[..last])
      + if !named[last] && entries[last].variability == CONSTANT then [entries[last]] else []
  }

  /** An entry that is named gives a sample under its id, and a constant that is not is kept. */
  lemma {:induction false} NamedOrRefused(entries: seq<Entry>, named: seq<bool>, ids: map<string, nat>, k: nat)
    requires HaveIds(entries, named, ids)
    requires k < |entries|
    ensures named[k] ==> Sample(ids[entries[k].name], entries[k].data) in SamplesOf(entries, named, ids)
    ensures !named[k] && entries[k].variability == CONSTANT ==> entries[k] in Refused(entries, named)
  {
    var last := |entries| - 1;
    if k == last {
    } else {
      NamedOrRefused(entries[..last], named[..last], ids, k);
    }
  }

  /** Only constants that were not named are kept. */
  lemma {:induction false} OnlyConstantsAreKept(entries: seq<Entry>, named: seq<bool>, e: Entry)
    requires |named| == |entries| && e in Refused(entries, named)
    ensures e.variability == CONSTANT && exists k :: 0 <= k < |entries| && entries[k] == e && !named[k]
  {
    var n := |entries| - 1;
    if e in Refused(entries[..n], named[..n]) {
      OnlyConstantsAreKept(entries[..n], named[..n], e);
      var k :| 0 <= k < n && entries[..n][k] == e && !named[..n][k];
      assert entries[k] == e && !named[k];
    } else {
      assert entries[n] == e && !named[n];
    }
  }

  lemma {:induction false} SamplesOfAreNamed(entries: seq<Entry>, named: seq<bool>, ids: map<string, nat>,
                                             infos: seq<Info>)
    requires HaveIds(entries, named, ids)
    requires Dictionary(ids, infos)
    ensures Named(SamplesOf(entries, named, ids), |infos|)
  {
    if entries == [] {
    } else {
      SamplesOfAreNamed(entries[..|entries| - 1], named[..|entries| - 1], ids, infos);
    }
  }

  lemma {:induction false} SamplesOfExtends(entries: seq<Entry>, named: seq<bool>, ids: map<string, nat>,
                                            more: map<string, nat>)
    requires HaveIds(entries, named, ids)
    requires Extends(ids, more)
    ensures HaveIds(entries, named, more) && SamplesOf(entries, named, more) == SamplesOf(entries, named, ids)
  {
    if entries == [] {
    } else {
      SamplesOfExtends(entries[..|entries| - 1], named[..|entries| - 1], ids, more);
    }
  }

  lemma NothingSampled(ids: map<string, nat>)
    ensures HaveIds([], [], ids) && SamplesOf([], [], ids) == [] && Refused([], []) == [] && Extends(ids, ids)
    ensures Refusals([]) == 0
  {
  }

  /** One more entry, for which the map may have grown. */
  lemma SampledOneMore(entries: seq<Entry>, named: seq<bool>, ids: map<string, nat>, more: map<string, nat>,
                       entry: Entry, id: nat)
    requires HaveIds(entries, named, ids) && Extends(ids, more)
    requires id != 0 ==> entry.name in more && more[entry.name] == id
    ensures HaveIds(entries, named, more) && HaveIds(entries + [entry], named + [id != 0], more)
    ensures SamplesOf(entries + [entry], named + [id != 0], more)
         == if id == 0 then SamplesOf(entries, named, ids)
            else SamplesOf(entries, named, ids) + [Sample(id, entry.data)]
    ensures Refused(entries + [entry], named + [id != 0])
         == if id == 0 && entry.variability == CONSTANT then Refused(entries, named) + [entry]
            else Refused(entries, named)
  {
    assert (entries + [entry])[..|entries|] == entries && (named + [id != 0])[..|named|] == named;
    SamplesOfExtends(entries, named, ids, more);
  }

  /** Every constant has an id or is kept for the next attempt. */
  ghost predicate Kept(constants: set<Entry>, ids: map<string, nat>, retry: seq<Entry>) {
    forall e :: e in constants ==> e.variability == CONSTANT && (e.name in ids || e in retry)
  }

  lemma RefusedAreKept(entries: seq<Entry>, named: seq<bool>, ids: map<string, nat>)
    requires HaveIds(entries, named, ids)
    ensures Kept(Constants(entries), ids, Refused(entries, named))
  {
    forall e | e in Constants(entries) ensures e.name in ids || e in Refused(entries, named) {
      var k :| 0 <= k < |entries| && entries[k] == e;
      NamedOrRefused(entries, named, ids, k);
    }
  }

  lemma AllAreNamed(constants: set<Entry>, ids: map<string, nat>)
    requires Kept(constants, ids, [])
    ensures forall e :: e in constants ==> e.name in ids
  {
  }

  /** Constants stay kept when new ones and those left over are attempted and what is refused is kept. */
  lemma KeptOn(constants: set<Entry>, ids: map<string, nat>, entries: seq<Entry>, named: seq<bool>,
               retry: seq<Entry>, retried: seq<bool>, more: map<string, nat>)
    requires Kept(constants, ids, retry) && Extends(ids, more)
    requires HaveIds(entries, named, more) && HaveIds(retry, retried, more)
    ensures Kept(constants + Constants(entries), more, Refused(entries, named) + Refused(retry, retried))
  {
    RefusedAreKept(entries, named, more);
    RefusedAreKept(retry, retried, more);
    forall e | e in constants && e in retry ensures e in Constants(retry) {
    }
  }

  predicate HasDuration(ids: map<string, nat>) {
    DURATION_NAME in ids && ids[DURATION_NAME] == DURATION_ID
  }

  /** Inserting the duration metric into a dictionary leaves it alone in the map exactly if that was empty. */
  lemma InsertedAlone(ids: map<string, nat>, infos: seq<Info>)
    ensures ids == map[] || OnlyDuration(ids) ==> OnlyDuration(WithDuration(ids))
    ensures Dictionary(ids, infos) ==>
              (OnlyDuration(WithDuration(ids)) && infos == [] <==> ids == map[])
  {
    if infos == [] && Dictionary(ids, infos) {
      assert |ids| == 0;
    }
  }

  lemma DurationIsAlone(ids: map<string, nat>, infos: seq<Info>)
    requires OnlyDuration(ids) && infos == []
    ensures HasDuration(ids) && Dictionary(ids, infos + [DURATION_INFO])
  {
    DictionaryGrows(map[], [], DURATION_INFO);
    assert map[][DURATION_NAME := DURATION_ID] == ids;
  }

  /** A map without names on the queue is the empty one. */
  lemma OnlyEmptyIsEmpty(ids: map<string, nat>)
    ensures Dictionary(ids, []) <==> ids == map[]
    ensures !HasDuration(map[])
  {
  }

  lemma WithDurationExtends(ids: map<string, nat>)
    ensures Extends(ids, WithDuration(ids))
  {
  }

  lemma EmptySession()
    ensures Infos([]) == [] && SamplesNamed([]) && Completions([]) == 0
  {
  }

  lemma KeptWithMore(constants: set<Entry>, ids: map<string, nat>, more: map<string, nat>, retry: seq<Entry>)
    requires Kept(constants, ids, retry) && Extends(ids, more)
    ensures Kept(constants, more, retry)
  {
  }

  /** A duration sample is named as soon as there is any name. */
  lemma DurationSampleIsNamed(ids: map<string, nat>, infos: seq<Info>, s: Sample)
    requires Dictionary(ids, infos) && s.id == DURATION_ID
    ensures Named([s], |infos|) <==> ids != map[]
  {
    assert [s][0] in [s];
    assert |ids| == 0 <==> ids == map[];
  }

  lemma HasDurationGrows(ids: map<string, nat>, more: map<string, nat>)
    requires HasDuration(ids) && Extends(ids, more)
    ensures HasDuration(more)
  {
  }

  lemma HasDurationIsSome(ids: map<string, nat>)
    requires HasDuration(ids)
    ensures ids != map[]
  {
  }

  /** The names that some entries, or some batches of entries, may add to the map. */
  ghost function Names(entries: seq<Entry>): set<string> {
    set e | e in entries :: e.name
  }

  ghost function BatchNames(batches: seq<Batch>): set<string> {
    set b, e | b in batches && e in b.entries :: e.name
  }

  lemma NamesOneMore(entries: seq<Entry>, entry: Entry)
    ensures Names(entries + [entry]) == Names(entries) + {entry.name}
  {
  }

  lemma NamesTogether(a: seq<Entry>, b: seq<Entry>)
    ensures Names(a + b) == Names(a) + Names(b)
  {
  }

  lemma AllNamed(entries: seq<Entry>, named: seq<bool>, ids: map<string, nat>)
    requires HaveIds(entries, named, ids) && forall k :: 0 <= k < |named| ==> named[k]
    ensures Names(entries) <= ids.Keys
  {
    forall e | e in entries ensures e.name in ids {
      var k :| 0 <= k < |entries| && entries[k] == e;
    }
  }

  lemma {:induction false} RefusedNames(entries: seq<Entry>, named: seq<bool>)
    requires |named| == |entries|
    ensures Names(Refused(entries, named)) <= Names(entries)
  {
    if entries == [] {
    } else {
      var n := |entries| - 1;
      RefusedNames(entries[..n], named[..n]);
      assert entries == entries[..n] + [entries[n]];
      NamesOneMore(entries[..n], entries[n]);
      NamesOneMore(Refused(entries[..n], named[..n]), entries[n]);
    }
  }

  /** How a batch was recorded: which of its entries, and of the constants left over before it, were named,
      and whether its samples were pushed. */
  datatype Recording = Recording(batch: Batch, named: seq<bool>, retry: seq<Entry>, retried: seq<bool>, pushed: bool)

  ghost predicate Recorded(rs: seq<Recording>, ids: map<string, nat>) {
    forall i :: 0 <= i < |rs| ==>
      HaveIds(rs[i].batch.entries, rs[i].named, ids) && HaveIds(rs[i].retry, rs[i].retried, ids)
  }

  /** One message for each batch whose push was not refused: the samples of its own entries that were named and
      then of the constants left over, with the batch's time. */
  ghost function MessagesOf(rs: seq<Recording>, ids: map<string, nat>): seq<Message>
    requires Recorded(rs, ids)
  {
    if rs == [] then []
    else
      var r := rs[|rs| - 1];
      MessagesOf(rs[..|rs| - 1], ids)
        + if r.pushed then [Samples(SamplesOf(r.batch.entries, r.named, ids) + SamplesOf(r.retry, r.retried, ids),
                                    r.batch.millis)] else []
  }

  /** The constants left over after some batches, if these were left over before. */
  ghost function LeftOver(rs: seq<Recording>, retry: seq<Entry>): seq<Entry>
  {
    if rs == [] then retry else LeftAfter(rs[|rs| - 1])
  }

  ghost function LeftAfter(r: Recording): seq<Entry> {
    if |r.named| != |r.batch.entries| || |r.retried| != |r.retry| then []
    else Refused(r.batch.entries, r.named) + Refused(r.retry, r.retried)
  }

  /** These batches were recorded one after another, each with what was left over before it. */
  ghost predicate RecordsAll(rs: seq<Recording>, batches: seq<Batch>, retry: seq<Entry>) {
    && |rs| == |batches|
    && forall i :: 0 <= i < |rs| ==> rs[i].batch == batches[i] && rs[i].retry == LeftOver(rs[..i], retry)
  }

  predicate AllTrue(flags: seq<bool>) {
    forall k :: 0 <= k < |flags| ==> flags[k]
  }

  predicate NothingRefused(rs: seq<Recording>) {
    forall r <- rs :: r.pushed && AllTrue(r.named) && AllTrue(r.retried)
  }

  lemma {:induction false} MessagesExtend(rs: seq<Recording>, ids: map<string, nat>, more: map<string, nat>)
    requires Recorded(rs, ids) && Extends(ids, more)
    ensures Recorded(rs, more) && MessagesOf(rs, more) == MessagesOf(rs, ids)
  {
    hide SamplesOf, HaveIds, Extends;
    forall i | 0 <= i < |rs|
      ensures HaveIds(rs[i].batch.entries, rs[i].named, more) && HaveIds(rs[i].retry, rs[i].retried, more)
    {
      SamplesOfExtends(rs[i].batch.entries, rs[i].named, ids, more);
      SamplesOfExtends(rs[i].retry, rs[i].retried, ids, more);
    }
    if rs != [] {
      var r := rs[|rs| - 1];
      MessagesExtend(rs[..|rs| - 1], ids, more);
      SamplesOfExtends(r.batch.entries, r.named, ids, more);
      SamplesOfExtends(r.retry, r.retried, ids, more);
    }
  }

  lemma MessagesOneMore(rs: seq<Recording>, r: Recording, ids: map<string, nat>, more: map<string, nat>)
    requires Recorded(rs, ids) && Extends(ids, more)
    requires HaveIds(r.batch.entries, r.named, more) && HaveIds(r.retry, r.retried, more)
    ensures Recorded(rs + [r], more)
    ensures MessagesOf(rs + [r], more) ==
      MessagesOf(rs, ids)
      + if r.pushed then [Samples(SamplesOf(r.batch.entries, r.named, more) + SamplesOf(r.retry, r.retried, more),
                                  r.batch.millis)] else []
  {
    hide SamplesOf, HaveIds, Extends;
    MessagesExtend(rs, ids, more);
    assert (rs + [r])[..|rs|] == rs;
  }

  lemma RecordsOneMore(rs: seq<Recording>, r: Recording, batches: seq<Batch>, i: nat, retry: seq<Entry>)
    requires i < |batches| && RecordsAll(rs, batches[..i], retry) && r.batch == batches[i]
    requires r.retry == LeftOver(rs, retry)
    ensures RecordsAll(rs + [r], batches[..i + 1], retry)
    ensures LeftOver(rs + [r], retry) == LeftAfter(r)
  {
    hide LeftAfter, LeftOver;
    var more := rs + [r];
    forall k | 0 <= k < |more| ensures more[k].batch == batches[k] && more[k].retry == LeftOver(more[..k], retry) {
      assert more[..k] == rs[..k];
      assert rs[..|rs|] == rs;
    }
    LastLeftOver(rs, r, retry);
  }

  lemma LastLeftOver(rs: seq<Recording>, r: Recording, retry: seq<Entry>)
    ensures LeftOver(rs + [r], retry) == LeftAfter(r)
  {
    hide LeftAfter;
  }

  lemma RecordedLengths(r: Recording, ids: map<string, nat>)
    requires HaveIds(r.batch.entries, r.named, ids) && HaveIds(r.retry, r.retried, ids)
    ensures LeftAfter(r) == Refused(r.batch.entries, r.named) + Refused(r.retry, r.retried)
  {
  }

  lemma {:induction false} AllSampled(entries: seq<Entry>, named: seq<bool>, ids: map<string, nat>)
    requires HaveIds(entries, named, ids) && AllTrue(named)
    ensures |SamplesOf(entries, named, ids)| == |entries|
    ensures forall k :: 0 <= k < |entries| ==>
      entries[k].name in ids && SamplesOf(entries, named, ids)[k] == Sample(ids[entries[k].name], entries[k].data)
  {
    if entries != [] {
      AllSampled(entries[..|entries| - 1], named[..|entries| - 1], ids);
    }
  }

  /** If nothing is refused there is one message for each batch, with its time and a sample of each entry. */
  lemma {:induction false} OneMessageForEachBatch(rs: seq<Recording>, ids: map<string, nat>, i: nat)
    requires Recorded(rs, ids) && NothingRefused(rs) && i < |rs|
    ensures |MessagesOf(rs, ids)| == |rs|
    ensures var m, batch := MessagesOf(rs, ids)[i], rs[i].batch;
      && m.Samples? && m.millis == batch.millis && |m.samples| == |batch.entries| + |rs[i].retry|
      && forall k :: 0 <= k < |batch.entries| ==>
           batch.entries[k].name in ids
           && m.samples[k] == Sample(ids[batch.entries[k].name], batch.entries[k].data)
    decreases |rs|
  {
    hide SamplesOf, HaveIds, AllTrue;
    var n := |rs| - 1;
    var r := rs[n];
    assert HaveIds(r.batch.entries, r.named, ids) && HaveIds(r.retry, r.retried, ids);
    AllSampled(r.batch.entries, r.named, ids);
    AllSampled(r.retry, r.retried, ids);
    if n > 0 {
      OneMessageForEachBatch(rs[..n], ids, if i < n then i else 0);
    }
  }

  lemma NothingRecorded(ids: map<string, nat>, retry: seq<Entry>)
    ensures Recorded([], ids) && MessagesOf([], ids) == [] && RecordsAll([], [], retry) && LeftOver([], retry) == retry
  {
  }

  /** A queue that takes a message or, when it is full, refuses it. Whether there is room is up to the
      consumer: room is what the next pushes will find, and after that there is always room. */
  class Queue {
    var sent: seq<Message>
    var metricFailures: nat
    var room: seq<bool>

    constructor (room: seq<bool>)
      ensures sent == [] && metricFailures == 0 && this.room == room
    {
      sent, metricFailures := [], 0;
      this.room := room;
    }

    /** The next push will find room, or it will not. */
    method Expect(fits: bool)
      modifies this`room
      ensures room == [fits] + old(room)
    {
      room := [fits] + room;
    }

    method Push(m: Message) returns (ok: bool)
      modifies this
      ensures ok == (old(room) == [] || old(room)[0])
      ensures room == if old(room) == [] then [] else old(room)[1..]
      ensures sent == if ok then old(sent) + [m] else old(sent)
      ensures metricFailures == old(metricFailures) + if ok then 0 else 1
    {
      ok := room == [] || room[0];
      if room != [] {
        room := room[1..];
      }
      if ok {
        sent := sent + [m];
      } else {
        metricFailures := metricFailures + 1;
      }
    }
  }

  datatype Command = ENABLE | DISABLE

  /** Where the metrics thread is: outside the announcement of the duration metric, or past its load of the
      flag, its insertion into the map, or its push. The announcement takes no lock. */
  datatype Phase = IDLE | FOUND | INSERTED | PUSHED

  /** What happens next: the metrics thread takes a step, or the processor thread gives a command. A duty
      cycle is an announcement of the duration metric, step by step with an attempt for each time the queue
      is full, then a read, more reads of events, and a duration sample, with any commands in between. A step
      that the metrics thread cannot take where it is changes nothing. */
  datatype Step =
    | LoadFlag
    | InsertDuration
    | AttemptDuration(fits: bool)
    | ClearFlag
    | Read(batches: seq<Batch>, readersEmittedConstants: bool)
    | Poll(batches: seq<Batch>)
    | SendDuration(duration: int, millis: int)
    | Processor(command: Command)

  datatype Status = Status(enabled: bool, mustSendDuration: bool, phase: Phase)

  function StatusAfter(s: Status, step: Step): Status {
    match step
    case LoadFlag => if s.phase == IDLE && s.mustSendDuration then s.(phase := FOUND) else s
    case InsertDuration => if s.phase == FOUND then s.(phase := INSERTED) else s
    case AttemptDuration(fits) => if s.phase == INSERTED && fits then s.(phase := PUSHED) else s
    case ClearFlag => if s.phase == PUSHED then s.(mustSendDuration := false, phase := IDLE) else s
    case Processor(ENABLE) => s.(enabled := true, mustSendDuration := !s.enabled || s.mustSendDuration)
    case Processor(DISABLE) => s.(enabled := false, mustSendDuration := false)
    case _ => s
  }

  /** No read and no duration sample falls between an enable and the end of the announcement, and no disable
      falls into an announcement. */
  predicate QuietStep(s: Status, step: Step)
  {
    && (step.Read? || step.Poll? || step.SendDuration? ==> s.phase == IDLE && !(s.enabled && s.mustSendDuration))
    && (step == Processor(DISABLE) ==> s.phase == IDLE)
  }

  predicate Quiet(s: Status, steps: seq<Step>)
    decreases |steps|
  {
    steps == [] || (QuietStep(s, steps[0]) && Quiet(StatusAfter(s, steps[0]), steps[1..]))
  }

  class Metrics {
    const queue: Queue
    var mustSendDurationMetric: bool
    var enabled: bool
    var needsToSendConstantMetrics: bool
    var phase: Phase
    var metricNameToId: map<string, nat>
    var retryEntries: seq<Entry>
    ghost var start: nat
    ghost var submitted: set<Entry>

    ghost function Session(): seq<Message>
      reads this`start, queue`sent
      requires start <= |queue.sent|
    {
      queue.sent[start..]
    }

    function CurrentStatus(): Status
      reads this`enabled, this`mustSendDurationMetric, this`phase
    {
      Status(enabled, mustSendDurationMetric, phase)
    }

    /** The ids are those named in this session, in order, and no sample was sent before its name. */
    ghost predicate IdsValid()
      reads this`start, this`metricNameToId, queue`sent
    {
      && start <= |queue.sent|
      && Dictionary(metricNameToId, Infos(Session()))
      && SamplesNamed(Session())
    }

    /** Every constant submitted in this session has been named, or is kept for the next attempt. */
    ghost predicate ConstantsKept()
      reads this`submitted, this`metricNameToId, this`retryEntries
    {
      Kept(submitted, metricNameToId, retryEntries)
    }

    /** The map and the names on the queue agree, wherever the announcement of the duration metric is: only
        between its insertion and its push is it in the map alone, and then nothing else is. */
    ghost predicate SessionOk()
      reads this, queue`sent
      requires start <= |queue.sent|
    {
      match phase
      case IDLE => IdsValid() && (mustSendDurationMetric || HasDuration(metricNameToId))
      case FOUND => IdsValid() && mustSendDurationMetric
      case INSERTED =>
        && OnlyDuration(metricNameToId) && mustSendDurationMetric
        && Infos(Session()) == [] && SamplesNamed(Session())
      case PUSHED => IdsValid() && HasDuration(metricNameToId) && mustSendDurationMetric
    }

    /** What holds as long as no announcement has gone wrong. */
    ghost predicate Core()
      reads this, queue`sent
    {
      && start <= |queue.sent|
      && (if enabled then SessionOk()
          else submitted == {} && (metricNameToId == map[] || OnlyDuration(metricNameToId)))
      && (mustSendDurationMetric ==> enabled)
      && ConstantsKept()
      && (if needsToSendConstantMetrics then Completions(Session()) == 0 else Completions(Session()) <= 1)
    }

    /** No name has been given an id before the duration metric, and nothing is left over from a session. */
    predicate OnTime()
      reads this
    {
      && (phase == FOUND || (phase == IDLE && mustSendDurationMetric) ==> metricNameToId == map[])
      && (!enabled ==> metricNameToId == map[] && phase == IDLE)
    }

    ghost predicate Valid()
      reads this, queue`sent
    {
      Core() && OnTime()
    }

    lemma CoreIds() returns (infos: seq<Info>)
      requires Core() && (enabled || mustSendDurationMetric) && phase == IDLE
      ensures start <= |queue.sent| && enabled && infos == Infos(Session()) && Dictionary(metricNameToId, infos)
    {
      infos := Infos(Session());
    }

    constructor (queue: Queue)
      ensures Valid() && CurrentStatus() == Status(false, false, IDLE) && this.queue == queue
      ensures metricNameToId == map[] && retryEntries == [] && start == |queue.sent|
    {
      this.queue := queue;
      mustSendDurationMetric, enabled, needsToSendConstantMetrics, phase := false, false, false, IDLE;
      metricNameToId, retryEntries := map[], [];
      start, submitted := |queue.sent|, {};
    }

    /** A message that is pushed adds to the session what it says and nothing else. */
    method Push(m: Message) returns (ok: bool)
      requires start <= |queue.sent|
      modifies queue
      ensures start <= |queue.sent|
      ensures queue.sent == if ok then old(queue.sent) + [m] else old(queue.sent)
      ensures queue.metricFailures == old(queue.metricFailures) + if ok then 0 else 1
      ensures ok == (old(queue.room) == [] || old(queue.room)[0])
      ensures queue.room == if old(queue.room) == [] then [] else old(queue.room)[1..]
      ensures Session() == if ok then old(Session()) + [m] else old(Session())
      ensures Infos(Session()) == if ok && m.Information? then old(Infos(Session())) + [m.info]
                                  else old(Infos(Session()))
      ensures Completions(Session()) == old(Completions(Session())) + if ok && m.ConstantsComplete? then 1 else 0
      ensures old(SamplesNamed(Session())) ==>
                (SamplesNamed(Session()) <==>
                 (ok && m.Samples? ==> Named(m.samples, |old(Infos(Session()))|)))
      ensures Sampled(queue.sent) == old(Sampled(queue.sent)) + if ok && m.Samples? then [m] else []
    {
      ok := queue.Push(m);
      if ok {
        SampledOneMoreMessage(old(queue.sent), m);
        OneMore(old(Session()), m);
        assert Session() == old(Session()) + [m];
        if old(SamplesNamed(Session())) {
          SamplesStayNamed(old(Session()), m);
        }
      }
    }

    /** The id of the entry's name, or 0 if it is new and there was no room to announce it: then the map is
        as it was. */
    method FindOrCreateMetricId(entry: Entry) returns (id: nat)
      requires start <= |queue.sent|
      modifies this`metricNameToId, queue
      ensures start <= |queue.sent|
      ensures old(IdsValid()) ==> IdsValid() && (id == 0 <==> entry.name !in metricNameToId)
      ensures entry.name in old(metricNameToId) ==>
                metricNameToId == old(metricNameToId) && id == metricNameToId[entry.name]
      ensures entry.name !in old(metricNameToId) && id == 0 ==> metricNameToId == old(metricNameToId)
      ensures entry.name !in old(metricNameToId) && id != 0 ==>
                id == |old(metricNameToId)| + 1 && metricNameToId == old(metricNameToId)[entry.name := id]
      ensures Extends(old(metricNameToId), metricNameToId)
      ensures var named := entry.name !in old(metricNameToId) && entry.name in metricNameToId;
              && queue.sent == old(queue.sent) + (if !named then [] else
                   [Information(Info(entry.name, id, entry.variability, entry.data.dataType, entry.unit))])
              && Infos(Session()) == old(Infos(Session())) + if named then [InfoOf(entry, id)] else []
      ensures queue.metricFailures == old(queue.metricFailures) + if entry.name in metricNameToId then 0 else 1
      ensures |queue.room| <= |old(queue.room)|
           && (entry.name in metricNameToId || |queue.room| < |old(queue.room)|)
      ensures old(queue.room) == [] || old(queue.room)[0] ==> entry.name in metricNameToId
      ensures Sampled(queue.sent) == old(Sampled(queue.sent))
      ensures Completions(Session()) == old(Completions(Session()))
    {
      hide Dictionary, Infos, Completions, SamplesNamed, Session, Sampled;
      ghost var ids := metricNameToId;
      if entry.name in metricNameToId {
        id := metricNameToId[entry.name];
        if IdsValid() {
          IdIsPositive(metricNameToId, Infos(Session()), entry.name);
        }
      } else {
        id := |metricNameToId| + 1;
        if IdsValid() {
          DictionaryGrows(metricNameToId, Infos(Session()), InfoOf(entry, id));
        }
        metricNameToId := metricNameToId[entry.name := id];
        var ok := Push(Information(InfoOf(entry, id)));
        if !ok {
          metricNameToId := metricNameToId - {entry.name};
          assert metricNameToId == ids;
          id := 0;
        }
      }
    }

    /** Every entry is sampled under its own id, in order, or was refused; the refused constants are
        returned. */
    method AttemptRecordEntries(entries: seq<Entry>)
      returns (samples: seq<Sample>, failed: seq<Entry>, ghost named: seq<bool>)
      requires start <= |queue.sent| && IdsValid()
      modifies this`metricNameToId, queue
      ensures IdsValid() && Extends(old(metricNameToId), metricNameToId)
      ensures metricNameToId.Keys <= old(metricNameToId.Keys) + Names(entries)
      ensures |queue.room| <= |old(queue.room)| - Refusals(named)
      ensures |named| == |entries| && HaveIds(entries, named, metricNameToId)
      ensures samples == SamplesOf(entries, named, metricNameToId)
      ensures failed == Refused(entries, named)
      ensures queue.metricFailures == old(queue.metricFailures) + Refusals(named)
      ensures Sampled(queue.sent) == old(Sampled(queue.sent))
      ensures Completions(Session()) == old(Completions(Session()))
    {
      hide IdsValid, Dictionary, Infos, SamplesNamed, Completions, Session, Sampled;
      hide SamplesOf, Refused, Refusals, Extends, HaveIds, Names;
      samples, failed, named := [], [], [];
      ghost var first, done := metricNameToId, [];
      NothingSampled(first);
      for i := 0 to |entries|
        invariant done == entries[..i]
        invariant IdsValid() && Extends(first, metricNameToId)
        invariant metricNameToId.Keys <= first.Keys + Names(done)
        invariant |queue.room| <= |old(queue.room)| - Refusals(named)
        invariant HaveIds(done, named, metricNameToId) && samples == SamplesOf(done, named, metricNameToId)
        invariant |named| == |done| && failed == Refused(done, named)
        invariant queue.metricFailures == old(queue.metricFailures) + Refusals(named)
        invariant Sampled(queue.sent) == old(Sampled(queue.sent))
        invariant start <= |queue.sent| && Completions(Session()) == old(Completions(Session()))
      {
        ghost var ids := metricNameToId;
        var entry := entries[i];
        var metricId := FindOrCreateMetricId(entry);
        ExtendsFurther(first, ids, metricNameToId);
        RefusalsOneMore(named, metricId != 0);
        SampledOneMore(done, named, ids, metricNameToId, entry, metricId);
        NamesOneMore(done, entry);
        done, named := done + [entry], named + [metricId != 0];
        if metricId == 0 {
          if entry.variability == CONSTANT {
            failed := failed + [entry];
          }
        } else {
          samples := samples + [Sample(metricId, entry.data)];
        }
      }
      assert done == entries;
    }

    /** The entries of a batch are recorded, and the constants left over from earlier ones are tried again. */
    method RecordEntries(batch: Batch) returns (ghost named: seq<bool>, ghost retried: seq<bool>, ghost pushed: bool)
      requires Core() && enabled && phase == IDLE
      modifies this`metricNameToId, this`retryEntries, this`submitted, queue
      ensures Core() && Extends(old(metricNameToId), metricNameToId)
      ensures metricNameToId.Keys <= old(metricNameToId.Keys) + Names(batch.entries) + Names(old(retryEntries))
      ensures Names(retryEntries) <= Names(batch.entries) + Names(old(retryEntries))
      ensures queue.metricFailures - old(queue.metricFailures) <= |old(queue.room)| - |queue.room|
      ensures queue.metricFailures == old(queue.metricFailures) ==> Names(batch.entries) <= metricNameToId.Keys
      ensures submitted == old(submitted) + Constants(batch.entries)
      ensures HaveIds(batch.entries, named, metricNameToId) && HaveIds(old(retryEntries), retried, metricNameToId)
      ensures retryEntries == Refused(batch.entries, named) + Refused(old(retryEntries), retried)
      ensures queue.metricFailures == old(queue.metricFailures) + Refusals(named) + Refusals(retried)
                                      + if pushed then 0 else 1
      ensures queue.metricFailures == old(queue.metricFailures) ==> retryEntries == []
      ensures old(queue.room) == [] ==> pushed && AllTrue(named) && AllTrue(retried)
      ensures Sampled(queue.sent) ==
        old(Sampled(queue.sent))
        + if pushed then [Samples(SamplesOf(batch.entries, named, metricNameToId)
                                  + SamplesOf(old(retryEntries), retried, metricNameToId), batch.millis)] else []
    {
      hide HasDuration, Infos, Completions, Named, SamplesNamed, Dictionary, HaveIds, SamplesOf, Refused, Extends;
      hide Refusals, Kept, Constants, Session, Names, Sampled;
      var samples, failed, moreSamples, moreFailed;
      ghost var first, retry := metricNameToId, retryEntries;
      samples, failed, named := AttemptRecordEntries(batch.entries);
      ghost var ids := metricNameToId;
      moreSamples, moreFailed, retried := AttemptRecordEntries(retryEntries);
      SamplesOfExtends(batch.entries, named, ids, metricNameToId);
      ExtendsFurther(first, ids, metricNameToId);
      SamplesOfAreNamed(batch.entries, named, metricNameToId, Infos(Session()));
      SamplesOfAreNamed(retryEntries, retried, metricNameToId, Infos(Session()));
      NamedTogether(samples, moreSamples, |Infos(Session())|);
      pushed := Push(Samples(samples + moreSamples, batch.millis));
      retryEntries := failed + moreFailed;
      submitted := submitted + Constants(batch.entries);
      if Refusals(named) + Refusals(retried) == 0 {
        NoRefusals(batch.entries, named);
        NoRefusals(retry, retried);
        AllNamed(batch.entries, named, metricNameToId);
      }
      RefusedNames(batch.entries, named);
      RefusedNames(retry, retried);
      NamesTogether(failed, moreFailed);
      if HasDuration(first) {
        HasDurationGrows(first, metricNameToId);
      }
      KeptOn(old(submitted), first, batch.entries, named, retry, retried, metricNameToId);
    }

    // The announcement of the duration metric, one load, insertion, attempt or store at a time.

    method LoadFlag()
      requires start <= |queue.sent| && phase == IDLE
      modifies this`phase
      ensures phase == if mustSendDurationMetric then FOUND else IDLE
      ensures old(Core()) ==> Core()
    {
      if mustSendDurationMetric {
        phase := FOUND;
      }
    }

    /** The duration metric goes into the map under its fixed id, whatever the map holds: that is right in a
        session exactly if the map is empty. */
    method InsertDuration()
      requires start <= |queue.sent| && phase == FOUND
      modifies this`phase, this`metricNameToId
      ensures phase == INSERTED && metricNameToId == WithDuration(old(metricNameToId))
      ensures old(Core()) ==> (Core() <==> !enabled || old(metricNameToId) == map[])
    {
      hide Dictionary, Infos, SamplesNamed, Completions, HasDuration, Kept, Session;
      ghost var ids := metricNameToId;
      metricNameToId := WithDuration(metricNameToId);
      phase := INSERTED;
      if old(Core()) {
        InsertedAlone(ids, if enabled then Infos(Session()) else []);
        WithDurationExtends(ids);
        KeptWithMore(submitted, ids, metricNameToId, retryEntries);
      }
    }

    /** One attempt to push its name; a refused one changes nothing but the count of failures. */
    method AttemptDuration() returns (ok: bool)
      requires start <= |queue.sent| && phase == INSERTED
      modifies this`phase, queue
      ensures start <= |queue.sent| && ok == (old(queue.room) == [] || old(queue.room)[0])
      ensures phase == if ok then PUSHED else INSERTED
      ensures queue.sent == if ok then old(queue.sent) + [Information(DURATION_INFO)] else old(queue.sent)
      ensures queue.room == if old(queue.room) == [] then [] else old(queue.room)[1..]
      ensures Infos(Session()) == old(Infos(Session())) + if ok then [DURATION_INFO] else []
      ensures old(Core()) ==> Core()
    {
      hide Dictionary, Infos, SamplesNamed, Completions, HasDuration, Kept, Session, Sampled;
      hide Metrics.ConstantsKept, OnlyDuration;
      ghost var sound, infos := Core() && enabled, Infos(Session());
      if sound {
        DurationIsAlone(metricNameToId, infos);
      }
      ok := Push(Information(DURATION_INFO));
      if ok {
        phase := PUSHED;
        if sound {
          assert Infos(Session()) == infos + [DURATION_INFO];
          assert IdsValid();
        }
      }
    }

    method ClearFlag()
      requires start <= |queue.sent| && phase == PUSHED
      modifies this`phase, this`mustSendDurationMetric
      ensures phase == IDLE && !mustSendDurationMetric
      ensures old(Core()) ==> Core()
    {
      mustSendDurationMetric := false;
      phase := IDLE;
    }

    method RecordAll(batches: seq<Batch>) returns (ghost records: seq<Recording>)
      requires Core() && enabled && phase == IDLE
      modifies this`metricNameToId, this`retryEntries, this`submitted, queue
      ensures Core()
      ensures forall b :: b in batches ==> Constants(b.entries) <= submitted
      ensures 0 <= queue.metricFailures - old(queue.metricFailures) <= |old(queue.room)| - |queue.room|
      ensures queue.metricFailures == old(queue.metricFailures) ==> BatchNames(batches) <= metricNameToId.Keys
      ensures queue.metricFailures == old(queue.metricFailures) && batches != [] ==> retryEntries == []
      ensures RecordsAll(records, batches, old(retryEntries)) && Recorded(records, metricNameToId)
      ensures retryEntries == LeftOver(records, old(retryEntries))
      ensures Sampled(queue.sent) == old(Sampled(queue.sent)) + MessagesOf(records, metricNameToId)
      ensures old(queue.room) == [] ==> NothingRefused(records)
      ensures metricNameToId.Keys <= old(metricNameToId.Keys) + BatchNames(batches) + Names(old(retryEntries))
    {
      hide Core, Constants, Names, BatchNames, Extends, Sampled, MessagesOf, Recorded, RecordsAll, LeftOver, HaveIds;
      hide SamplesOf, Refused, Refusals, LeftAfter;
      NoBatchNames();
      NothingRecorded(metricNameToId, retryEntries);
      records := [];
      assert batches[..0] == [];
      ghost var first := metricNameToId;
      ExtendsItself(first);
      for i := 0 to |batches|
        invariant Core() && metricNameToId.Keys >= first.Keys
        invariant forall k :: 0 <= k < i ==> Constants(batches[k].entries) <= submitted
        invariant 0 <= queue.metricFailures - old(queue.metricFailures) <= |old(queue.room)| - |queue.room|
        invariant queue.metricFailures == old(queue.metricFailures) ==>
                    BatchNames(batches[..i]) <= metricNameToId.Keys
        invariant queue.metricFailures == old(queue.metricFailures) && i > 0 ==> retryEntries == []
        invariant metricNameToId.Keys + Names(retryEntries)
               <= old(metricNameToId.Keys) + BatchNames(batches[..i]) + Names(old(retryEntries))
        invariant RecordsAll(records, batches[..i], old(retryEntries)) && Recorded(records, metricNameToId)
        invariant retryEntries == LeftOver(records, old(retryEntries))
        invariant Sampled(queue.sent) == old(Sampled(queue.sent)) + MessagesOf(records, metricNameToId)
        invariant old(queue.room) == [] ==> queue.room == [] && NothingRefused(records)
      {
        ghost var named, retried, pushed;
        ghost var retry := retryEntries;
        ghost var ids := metricNameToId;
        named, retried, pushed := RecordEntries(batches[i]);
        ghost var r := Recording(batches[i], named, retry, retried, pushed);
        RecordedLengths(r, metricNameToId);
        MessagesOneMore(records, r, ids, metricNameToId);
        RecordsOneMore(records, r, batches, i, old(retryEntries));
        records := records + [r];
        KeysExtend(ids, metricNameToId);
        BatchNamesOneMore(batches, i);
      }
      assert batches[..|batches|] == batches;
    }

    /** One read under the lock. The completion marker is sent once, when the readers have submitted their
        constants and none is kept back: by then every constant of the session has been named. */
    method ReadUnderLock(batches: seq<Batch>, readersEmittedConstants: bool) returns (ghost records: seq<Recording>)
      requires Core() && phase == IDLE
      modifies this`metricNameToId, this`retryEntries, this`submitted, this`needsToSendConstantMetrics, queue
      ensures Core()
      ensures enabled ==> forall b :: b in batches ==> Constants(b.entries) <= submitted
      ensures enabled && |old(queue.room)| == 0 ==> BatchNames(batches) <= metricNameToId.Keys
      ensures metricNameToId.Keys <= old(metricNameToId.Keys) + BatchNames(batches) + Names(old(retryEntries))
      ensures enabled ==>
        && RecordsAll(records, batches, old(retryEntries)) && Recorded(records, metricNameToId)
        && retryEntries == LeftOver(records, old(retryEntries))
        && Sampled(queue.sent) == old(Sampled(queue.sent)) + MessagesOf(records, metricNameToId)
        && (old(queue.room) == [] ==> NothingRefused(records))
      ensures !enabled ==> queue.sent == old(queue.sent) && retryEntries == old(retryEntries)
      ensures |queue.room| <= |old(queue.room)|
      ensures !enabled ==> metricNameToId == old(metricNameToId)
      ensures needsToSendConstantMetrics ==> old(needsToSendConstantMetrics)
      ensures !enabled || !readersEmittedConstants ==> needsToSendConstantMetrics == old(needsToSendConstantMetrics)
      ensures enabled && readersEmittedConstants && batches != [] ==>
                queue.metricFailures > old(queue.metricFailures) || !needsToSendConstantMetrics
      ensures old(needsToSendConstantMetrics) && !needsToSendConstantMetrics ==>
                && queue.sent != [] && queue.sent[|queue.sent| - 1] == ConstantsComplete
                && forall e :: e in submitted ==> e.name in metricNameToId
    {
      hide Dictionary, Infos, SamplesNamed, Completions, Named, Constants, HasDuration, Names, BatchNames;
      hide Kept, Metrics.Session, Sampled, MessagesOf, Recorded, RecordsAll, LeftOver;
      records := [];
      if enabled {
        records := RecordAll(batches);
        if needsToSendConstantMetrics && readersEmittedConstants && retryEntries == [] {
          AllAreNamed(submitted, metricNameToId);
          var ok := Push(ConstantsComplete);
          needsToSendConstantMetrics := !ok;
          assert IdsValid();
        }
      }
    }

    /** The duration sample is sent whether or not metrics are enabled. It is named if and only if some name
        has been announced in the session, or there is no session. */
    method SendDuration(duration: int, millis: int) returns (ok: bool)
      requires Core() && phase == IDLE
      modifies queue
      ensures ok == (old(queue.room) == [] || old(queue.room)[0])
      ensures queue.sent ==
        old(queue.sent)
        + if ok then [Samples([Sample(DURATION_ID, Data(LONG, "", duration))], millis)] else []
      ensures Core() <==> !(ok && enabled && metricNameToId == map[])
      ensures enabled && !mustSendDurationMetric ==> metricNameToId != map[]
    {
      hide Dictionary, Infos, SamplesNamed, Named, HasDuration, Kept, Session;
      ghost var infos := if enabled then Infos(Session()) else [];
      ok := Push(Samples([DurationSample(duration)], millis));
      if enabled && !mustSendDurationMetric {
        HasDurationIsSome(metricNameToId);
      }
      if enabled {
        DurationSampleIsNamed(metricNameToId, infos, DurationSample(duration));
      }
    }

    /** A session can start where the announcement is: before an insertion with nothing in the map, before a
        push with the duration metric there, and not between a push and the store that clears the flag. */
    predicate CanStart()
      reads this
    {
      match phase
      case IDLE => metricNameToId == map[]
      case FOUND => metricNameToId == map[]
      case INSERTED => OnlyDuration(metricNameToId)
      case PUSHED => false
    }

    /** The processor thread switches metrics on: a new session starts. */
    method Enable()
      requires start <= |queue.sent|
      modifies this`enabled, this`mustSendDurationMetric, this`needsToSendConstantMetrics, this`start
      ensures start <= |queue.sent|
      ensures CurrentStatus() == StatusAfter(old(CurrentStatus()), Processor(ENABLE))
      ensures Infos(Session()) == if old(enabled) then old(Infos(Session())) else []
      ensures !old(enabled) ==> start == |queue.sent| && needsToSendConstantMetrics
      ensures old(Core()) ==> (Core() <==> old(enabled || CanStart()))
    {
      hide Dictionary, Infos, SamplesNamed, Completions, HasDuration, Kept;
      if !enabled {
        mustSendDurationMetric := true;
        needsToSendConstantMetrics := true;
        start := |queue.sent|;
        EmptySession();
        OnlyEmptyIsEmpty(metricNameToId);
        assert Session() == [];
      }
      enabled := true;
    }

    method Disable()
      requires start <= |queue.sent|
      modifies this`enabled, this`mustSendDurationMetric, this`metricNameToId, this`submitted
      ensures CurrentStatus() == StatusAfter(old(CurrentStatus()), Processor(DISABLE))
      ensures metricNameToId == if old(enabled) then map[] else old(metricNameToId)
      ensures Infos(Session()) == old(Infos(Session()))
      ensures old(Core()) ==> Core()
    {
      hide Dictionary, Infos, SamplesNamed, Completions, HasDuration;
      if enabled {
        metricNameToId := map[];
        submitted := {};
      }
      mustSendDurationMetric := false;
      enabled := false;
    }
  }

  lemma NoBatchNames()
    ensures BatchNames([]) == {} && Names([]) == {}
  {
  }

  lemma BatchNamesOneMore(batches: seq<Batch>, i: nat)
    requires i < |batches|
    ensures BatchNames(batches[..i + 1]) == BatchNames(batches[..i]) + Names(batches[i].entries)
  {
    assert batches[..i + 1] == batches[..i] + [batches[i]];
  }

  function DurationSample(duration: int): (s: Sample)
    ensures s.id == DURATION_ID
  {
    Sample(DURATION_ID, Data(LONG, "", duration))
  }

  /** The steps of the metrics thread and the commands of the processor thread, in any order, up to the first
      that breaks the session: an insertion after another name, a session that starts where it cannot, or a
      duration sample before any name. Up to there the dictionary, the constants and the single completion
      marker are kept. None of this happens in a quiet run. */
  method Run(metrics: Metrics, steps: seq<Step>) returns (broken: bool)
    requires metrics.Core()
    modifies metrics, metrics.queue
    ensures broken <==> !metrics.Core()
    ensures old(metrics.Valid()) && Quiet(old(metrics.CurrentStatus()), steps) ==> !broken && metrics.Valid()
    decreases |steps|
  {
    hide Metrics.Core, WithDuration;
    broken := false;
    if steps != [] {
      ghost var records;
      broken, records := Take(metrics, steps[0]);
      if !broken {
        broken := Run(metrics, steps[1..]);
      }
    }
  }

  method Take(metrics: Metrics, step: Step) returns (broken: bool, ghost records: seq<Recording>)
    requires metrics.Core()
    modifies metrics, metrics.queue
    ensures broken <==> !metrics.Core()
    ensures metrics.CurrentStatus() == StatusAfter(old(metrics.CurrentStatus()), step)
    ensures old(metrics.Valid()) && QuietStep(old(metrics.CurrentStatus()), step) ==> !broken && metrics.Valid()
    ensures broken ==> step.InsertDuration? || step.SendDuration? || step == Processor(ENABLE)
    ensures step.InsertDuration? && old(metrics.phase) == FOUND ==>
              metrics.metricNameToId == WithDuration(old(metrics.metricNameToId))
    ensures step.AttemptDuration? && old(metrics.phase) == INSERTED && step.fits ==>
              metrics.queue.sent == old(metrics.queue.sent) + [Information(DURATION_INFO)]
    ensures (step.Read? || step.Poll?) && old(metrics.phase) == IDLE && metrics.enabled ==>
      && RecordsAll(records, step.batches, old(metrics.retryEntries)) && Recorded(records, metrics.metricNameToId)
      && Sampled(metrics.queue.sent) == old(Sampled(metrics.queue.sent)) + MessagesOf(records, metrics.metricNameToId)
    ensures step.SendDuration? && old(metrics.phase) == IDLE && old(metrics.queue.room) == [] ==>
      metrics.queue.sent ==
        old(metrics.queue.sent) + [Samples([Sample(DURATION_ID, Data(LONG, "", step.duration))], step.millis)]
  {
    hide Sampled, MessagesOf, Recorded, RecordsAll, LeftOver, DurationSample;
    hide Metrics.SessionOk, Metrics.ConstantsKept, WithDuration, Completions, Metrics.Session;
    broken, records := false, [];
    match step {
      case LoadFlag =>
        if metrics.phase == IDLE {
          metrics.LoadFlag();
        }
      case InsertDuration =>
        if metrics.phase == FOUND {
          broken := metrics.enabled && metrics.metricNameToId != map[];
          metrics.InsertDuration();
        }
      case AttemptDuration(fits) =>
        if metrics.phase == INSERTED {
          metrics.queue.Expect(fits);
          var _ := metrics.AttemptDuration();
        }
      case ClearFlag =>
        if metrics.phase == PUSHED {
          metrics.ClearFlag();
        }
      case Read(batches, readersEmittedConstants) =>
        if metrics.phase == IDLE {
          records := metrics.ReadUnderLock(batches, readersEmittedConstants);
        }
      case Poll(batches) =>
        if metrics.phase == IDLE {
          records := metrics.ReadUnderLock(batches, false);
        }
      case SendDuration(duration, millis) =>
        if metrics.phase == IDLE {
          var ok := metrics.SendDuration(duration, millis);
          broken := ok && metrics.enabled && metrics.metricNameToId == map[];
        }
      case Processor(command) =>
        if command == ENABLE {
          broken := !metrics.enabled && !metrics.CanStart();
          metrics.Enable();
        } else {
          metrics.Disable();
        }
    }
  }

  /** What can happen between two steps of an announcement. */
  datatype Happening = Refusal | Command(command: Command)

  /** Whether metrics are on afterwards, and whether they were switched off or on in between. */
  predicate OnAfter(on: bool, hs: seq<Happening>) {
    if hs == [] then on
    else if hs[|hs| - 1] == Refusal then OnAfter(on, hs[..|hs| - 1])
    else hs[|hs| - 1] == Command(ENABLE)
  }

  predicate Stopped(on: bool, hs: seq<Happening>) {
    hs != [] &&
    (Stopped(on, hs[..|hs| - 1]) || (OnAfter(on, hs[..|hs| - 1]) && hs[|hs| - 1] == Command(DISABLE)))
  }

  predicate Started(on: bool, hs: seq<Happening>) {
    hs != [] &&
    (Started(on, hs[..|hs| - 1]) || (!OnAfter(on, hs[..|hs| - 1]) && hs[|hs| - 1] == Command(ENABLE)))
  }

  lemma {:induction false} StopsAndStarts(on: bool, hs: seq<Happening>)
    ensures on && !Stopped(on, hs) ==> OnAfter(on, hs) && !Started(on, hs)
    ensures !on && !Started(on, hs) ==> !OnAfter(on, hs) && !Stopped(on, hs)
    ensures on && Stopped(on, hs) && OnAfter(on, hs) ==> Started(on, hs)
  {
    if hs != [] {
      StopsAndStarts(on, hs[..|hs| - 1]);
      match hs[|hs| - 1]
      case Refusal =>
      case Command(ENABLE) =>
      case Command(DISABLE) =>
    }
  }

  lemma OneMoreHappens(on: bool, hs: seq<Happening>, i: nat)
    requires i < |hs|
    ensures OnAfter(on, hs[..i + 1]) == if hs[i] == Refusal then OnAfter(on, hs[..i]) else hs[i] == Command(ENABLE)
    ensures Stopped(on, hs[..i + 1])
       <==> Stopped(on, hs[..i]) || (OnAfter(on, hs[..i]) && hs[i] == Command(DISABLE))
    ensures Started(on, hs[..i + 1])
       <==> Started(on, hs[..i]) || (!OnAfter(on, hs[..i]) && hs[i] == Command(ENABLE))
  {
    assert hs[..i + 1][..i] == hs[..i];
  }

  lemma NothingHappens(on: bool)
    ensures OnAfter(on, []) == on && !Stopped(on, []) && !Started(on, [])
  {
  }

  /** What a map is, and what the names of a session are, unless that has been cleared in between. */
  function MapUnless(cleared: bool, ids: map<string, nat>): map<string, nat> {
    if cleared then map[] else ids
  }

  function InfosUnless(cleared: bool, infos: seq<Info>): seq<Info> {
    if cleared then [] else infos
  }

  method Happen(metrics: Metrics, hs: seq<Happening>)
    requires metrics.start <= |metrics.queue.sent| && metrics.phase != IDLE
    modifies metrics, metrics.queue
    ensures metrics.start <= |metrics.queue.sent| && metrics.phase == old(metrics.phase)
    ensures metrics.enabled == OnAfter(old(metrics.enabled), hs)
    ensures metrics.metricNameToId == MapUnless(Stopped(old(metrics.enabled), hs), old(metrics.metricNameToId))
    ensures Infos(metrics.Session()) == InfosUnless(Started(old(metrics.enabled), hs), old(Infos(metrics.Session())))
  {
    hide Metrics.Core, Infos, Metrics.Session, OnAfter, Stopped, Started;
    NothingHappens(metrics.enabled);
    assert hs[..0] == [];
    for i := 0 to |hs|
      invariant metrics.start <= |metrics.queue.sent| && metrics.phase == old(metrics.phase)
      invariant metrics.enabled == OnAfter(old(metrics.enabled), hs[..i])
      invariant metrics.metricNameToId
             == MapUnless(Stopped(old(metrics.enabled), hs[..i]), old(metrics.metricNameToId))
      invariant Infos(metrics.Session())
             == InfosUnless(Started(old(metrics.enabled), hs[..i]), old(Infos(metrics.Session())))
    {
      OneMoreHappens(old(metrics.enabled), hs, i);
      match hs[i]
      case Command(ENABLE) => metrics.Enable();
      case Command(DISABLE) => metrics.Disable();
      case Refusal =>
        if metrics.phase == INSERTED {
          metrics.queue.Expect(false);
          var _ := metrics.AttemptDuration();
        }
    }
    assert hs[..|hs|] == hs;
  }

  /** The announcement up to its push. */
  method InsertAndPush(metrics: Metrics, found: seq<Happening>, inserted: seq<Happening>)
    returns (ghost atInsertion: map<string, nat>, ghost onAtInsertion: bool)
    requires metrics.start <= |metrics.queue.sent| && metrics.phase == FOUND
    modifies metrics, metrics.queue
    ensures metrics.start <= |metrics.queue.sent| && metrics.phase == PUSHED
    ensures onAtInsertion == OnAfter(old(metrics.enabled), found)
    ensures metrics.enabled == OnAfter(onAtInsertion, inserted)
    ensures atInsertion == MapUnless(Stopped(old(metrics.enabled), found), old(metrics.metricNameToId))
    ensures metrics.metricNameToId == MapUnless(Stopped(onAtInsertion, inserted), WithDuration(atInsertion))
    ensures Infos(metrics.Session())
         == InfosUnless(Started(onAtInsertion, inserted),
                        InfosUnless(Started(old(metrics.enabled), found), old(Infos(metrics.Session()))))
            + [DURATION_INFO]
  {
    hide Metrics.Core, Infos, Metrics.Session, WithDuration, OnAfter, Stopped, Started, MapUnless, InfosUnless;
    Happen(metrics, found);
    atInsertion, onAtInsertion := metrics.metricNameToId, metrics.enabled;
    metrics.InsertDuration();
    Happen(metrics, inserted);
    metrics.queue.Expect(true);
    var _ := metrics.AttemptDuration();
  }

  /** One announcement with anything in between its steps: it ends with a session whose map is the dictionary
      on the queue, with the duration metric in it, if and only if the map was empty at the insertion, metrics
      were on at the push, and they were not switched off between the insertion and the end. If metrics are
      off at the end, nothing is left in the map if and only if they were switched off in between. */
  method Announcement(metrics: Metrics, found: seq<Happening>, inserted: seq<Happening>, pushed: seq<Happening>)
    returns (ghost atInsertion: map<string, nat>, ghost onAtInsertion: bool, ghost onAtPush: bool)
    requires metrics.Core() && metrics.phase == IDLE && metrics.mustSendDurationMetric
    modifies metrics, metrics.queue
    ensures metrics.start <= |metrics.queue.sent| && metrics.phase == IDLE && !metrics.mustSendDurationMetric
    ensures onAtInsertion == OnAfter(true, found) && onAtPush == OnAfter(onAtInsertion, inserted)
    ensures atInsertion == MapUnless(Stopped(true, found), old(metrics.metricNameToId))
    ensures metrics.enabled == OnAfter(onAtPush, pushed)
    ensures metrics.metricNameToId
         == MapUnless(Stopped(onAtPush, pushed), MapUnless(Stopped(onAtInsertion, inserted), WithDuration(atInsertion)))
    ensures Infos(metrics.Session())
         == InfosUnless(Started(onAtPush, pushed),
              InfosUnless(Started(onAtInsertion, inserted),
                InfosUnless(Started(true, found), old(Infos(metrics.Session())))) + [DURATION_INFO])
    ensures metrics.enabled ==>
      (HasDuration(metrics.metricNameToId) && Dictionary(metrics.metricNameToId, Infos(metrics.Session()))
       <==> atInsertion == map[] && onAtPush && !Stopped(onAtInsertion, inserted) && !Stopped(onAtPush, pushed))
    ensures !metrics.enabled ==>
      (metrics.metricNameToId == map[] <==> Stopped(onAtInsertion, inserted) || Stopped(onAtPush, pushed))
  {
    hide Metrics.Core, Dictionary, Infos, Metrics.Session, HasDuration, WithDuration, OnAfter, Stopped, Started;
    hide MapUnless, InfosUnless;
    ghost var ids := metrics.metricNameToId;
    ghost var infos := metrics.CoreIds();
    metrics.LoadFlag();
    atInsertion, onAtInsertion := InsertAndPush(metrics, found, inserted);
    onAtPush := metrics.enabled;
    Happen(metrics, pushed);
    metrics.ClearFlag();
    Verdict(ids, infos, found, inserted, pushed, metrics.metricNameToId, Infos(metrics.Session()));
  }

  lemma Verdict(ids: map<string, nat>, infos: seq<Info>, found: seq<Happening>, inserted: seq<Happening>,
                pushed: seq<Happening>, ids': map<string, nat>, infos': seq<Info>)
    requires Dictionary(ids, infos)
    requires var on := OnAfter(true, found);
      && ids' == MapUnless(Stopped(OnAfter(on, inserted), pushed),
                   MapUnless(Stopped(on, inserted), WithDuration(MapUnless(Stopped(true, found), ids))))
      && infos' == InfosUnless(Started(OnAfter(on, inserted), pushed),
                     InfosUnless(Started(on, inserted), InfosUnless(Started(true, found), infos)) + [DURATION_INFO])
    ensures var on := OnAfter(true, found);
            var stopped := Stopped(on, inserted) || Stopped(OnAfter(on, inserted), pushed);
      && (OnAfter(OnAfter(on, inserted), pushed) ==>
            (HasDuration(ids') && Dictionary(ids', infos')
             <==> MapUnless(Stopped(true, found), ids) == map[] && OnAfter(on, inserted) && !stopped))
      && (ids' == map[] <==> stopped)
  {
    hide Dictionary, HasDuration, WithDuration, OnAfter, Stopped, Started;
    var on := OnAfter(true, found);
    StopsAndStarts(true, found);
    StopsAndStarts(on, inserted);
    StopsAndStarts(OnAfter(on, inserted), pushed);
    if !Stopped(on, inserted) {
      Outcome(ids, infos, if Stopped(true, found) then map[] else ids, Stopped(true, found),
              Started(true, found) || Started(on, inserted));
    }
    OnlyEmptyIsEmpty(ids');
  }

  /** The map after an insertion and the names after a push, if nothing was switched off in between. */
  lemma Outcome(ids: map<string, nat>, infos: seq<Info>, atInsertion: map<string, nat>, stopped: bool, started: bool)
    requires Dictionary(ids, infos) && atInsertion == (if stopped then map[] else ids) && (started ==> stopped)
    ensures WithDuration(atInsertion) != map[]
    ensures !HasDuration(map[])
    ensures (stopped ==> started) ==>
      (HasDuration(WithDuration(atInsertion))
       && Dictionary(WithDuration(atInsertion), (if started then [] else infos) + [DURATION_INFO])
       <==> atInsertion == map[])
  {
    if stopped {
      OnlyEmptyIsEmpty(map[]);
      DurationMustComeFirst(map[], []);
    } else {
      DurationMustComeFirst(ids, infos);
    }
    DurationIsAlone(map[DURATION_NAME := DURATION_ID], []);
    InsertedAlone(map[], []);
  }

  /** Metrics are switched on after the metrics thread has looked for a new session, and the next read gives
      id 1 to an entry. */
  method ReadBeforeAnnouncement(entry: Entry) returns (metrics: Metrics)
    ensures metrics.Core() && metrics.enabled && metrics.phase == IDLE && metrics.mustSendDurationMetric
    ensures metrics.metricNameToId == map[entry.name := DURATION_ID] && fresh(metrics) && fresh(metrics.queue)
  {
    hide Metrics.Core, Dictionary, BatchNames, Names, Metrics.Session, Infos;
    hide MessagesOf, Sampled, Recorded, RecordsAll, LeftOver, NothingRefused, Constants;
    metrics := UnseenSession();
    NoBatchNames();
    ghost var _ := metrics.ReadUnderLock([Batch([entry], 0)], false);
    ghost var infos := metrics.CoreIds();
    OneName(metrics.metricNameToId, infos, entry);
  }

  method UnseenSession() returns (metrics: Metrics)
    ensures metrics.Core() && metrics.enabled && metrics.phase == IDLE && metrics.mustSendDurationMetric
    ensures metrics.metricNameToId == map[] && metrics.retryEntries == [] && metrics.queue.room == []
    ensures fresh(metrics) && fresh(metrics.queue)
  {
    hide Metrics.SessionOk, Metrics.ConstantsKept, Infos, Metrics.Session;
    var queue := new Queue([]);
    metrics := new Metrics(queue);
    metrics.LoadFlag();
    metrics.Enable();
  }

  /** The failing run: after that the duration metric is announced under id 1 too. */
  method EnableBetweenSteps(entry: Entry) returns (metrics: Metrics)
    requires entry.name != DURATION_NAME
    ensures metrics.metricNameToId == map[entry.name := DURATION_ID, DURATION_NAME := DURATION_ID]
    ensures metrics.enabled && metrics.phase == IDLE && !metrics.mustSendDurationMetric && !metrics.Core()
  {
    hide Metrics.Core, Dictionary, WithDuration, Metrics.Session, Infos, HasDuration, Stopped, Started, OnAfter;
    metrics := ReadBeforeAnnouncement(entry);
    NothingHappens(true);
    assert entry.name in metrics.metricNameToId;
    ghost var atInsertion, onAtInsertion, onAtPush := Announcement(metrics, [], [], []);
    DurationJoins(entry.name);
    if metrics.Core() {
      WholeSession(metrics);
    }
  }

  lemma WholeSession(metrics: Metrics)
    requires metrics.Core() && metrics.enabled && metrics.phase == IDLE && !metrics.mustSendDurationMetric
    ensures HasDuration(metrics.metricNameToId)
    ensures Dictionary(metrics.metricNameToId, Infos(metrics.Session()))
  {
  }

  /** Another failing run, in which nothing is read before the announcement and the map is empty at the
      insertion: the queue is full, metrics are switched off and on again, and then the push succeeds. The
      name is announced and not in the map. */
  method DisableInsideAnnouncement() returns (metrics: Metrics)
    ensures metrics.enabled && metrics.phase == IDLE && !metrics.mustSendDurationMetric
    ensures metrics.start <= |metrics.queue.sent| && Infos(metrics.Session()) == [DURATION_INFO]
    ensures metrics.metricNameToId == map[] && fresh(metrics) && fresh(metrics.queue)
  {
    hide Metrics.Core, Dictionary, WithDuration, Metrics.Session, Infos, HasDuration, Stopped, Started, OnAfter;
    var queue := new Queue([]);
    metrics := new Metrics(queue);
    metrics.Enable();
    OffAndOn();
    NothingHappens(true);
    ghost var atInsertion, onAtInsertion, onAtPush := Announcement(metrics, [], OFF_AND_ON, []);
  }

  /** Then the next entry gets id 1 too. */
  method NextEntrySharesTheId(entry: Entry) returns (metrics: Metrics)
    ensures metrics.start <= |metrics.queue.sent|
    ensures Infos(metrics.Session()) == [DURATION_INFO, InfoOf(entry, DURATION_ID)]
    ensures metrics.metricNameToId == map[entry.name := DURATION_ID]
  {
    hide Metrics.Core, Metrics.IdsValid, Metrics.Session, Infos;
    metrics := DisableInsideAnnouncement();
    metrics.queue.Expect(true);
    var id := metrics.FindOrCreateMetricId(entry);
    assert [DURATION_INFO] + [InfoOf(entry, id)] == [DURATION_INFO, InfoOf(entry, id)];
  }

  const OFF_AND_ON: seq<Happening> := [Refusal, Command(DISABLE), Command(ENABLE)]

  lemma OffAndOn()
    ensures Stopped(true, OFF_AND_ON) && Started(true, OFF_AND_ON) && OnAfter(true, OFF_AND_ON)
  {
    assert OFF_AND_ON[..2] == [Refusal, Command(DISABLE)] && [Refusal, Command(DISABLE)][..1] == [Refusal];
    assert OnAfter(true, [Refusal]);
  }

  lemma OneName(ids: map<string, nat>, infos: seq<Info>, entry: Entry)
    requires Dictionary(ids, infos) && ids.Keys <= BatchNames([Batch([entry], 0)]) <= ids.Keys
    ensures ids == map[entry.name := DURATION_ID]
  {
    var b := Batch([entry], 0);
    assert b in [b] && entry in b.entries;
    assert BatchNames([b]) == {entry.name};
    assert ids.Keys == {entry.name};
    assert |ids| == |ids.Keys|;
  }

  lemma DurationJoins(name: string)
    requires name != DURATION_NAME
    ensures WithDuration(map[name := DURATION_ID]) == map[name := DURATION_ID, DURATION_NAME := DURATION_ID]
  {
  }
}
