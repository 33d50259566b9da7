/** A get that runs while writer operations are under way.

    The reader makes one load per step. Between its loads the writer may make any number of
    its stores, so the reader observes tables of the writer's trail in trail order, with
    repetitions and gaps.
  */
module ConcurrentGet {
  import opened ProbingTable
  import opened Stores
  import opened Compaction
  import opened WriterTables
  import opened WriterRuns
  import opened Homeward

  /** Probing(i): cell i has been examined, or i is the cell before the home and none has.
      Matched(i): cell i held the key. Loaded(i, v): and v was its value a moment later. */
  datatype Reader<V> =
    | Probing(idx: nat)
    | Matched(idx: nat)
    | Loaded(idx: nat, value: V)
    | Done(result: V)

  function Start<K, V>(sh: Shape<K, V>, key: K): (r: Reader<V>)
    requires sh.capacity > 0
    ensures r.Probing? && r.idx < sh.capacity
  {
    Probing(Previous(Home(sh, key), sh.capacity))
  }

  /** The reader's next load, from the table t that is current at that moment. */
  function Step<K(==), V>(sh: Shape<K, V>, key: K, r: Reader<V>, t: Table<K, V>): Reader<V>
    requires |t.keys| == |t.values| == sh.capacity > 0
    requires !r.Done? ==> r.idx < sh.capacity
  {
    match r
    case Probing(last) =>
      var idx := Next(last, sh.capacity);
      if idx == Previous(Home(sh, key), sh.capacity) then Done(sh.nullValue)
      else if t.keys[idx] == key then Matched(idx)
      else if t.keys[idx] == sh.nullKey then Done(sh.nullValue)
      else Probing(idx)
    case Matched(idx) => Loaded(idx, t.values[idx])
    case Loaded(idx, value) => if t.keys[idx] == key then Done(value) else Probing(idx)
    case Done(_) => r
  }

  function Run<K(==), V>(sh: Shape<K, V>, key: K, r: Reader<V>, seen: seq<Table<K, V>>): (r': Reader<V>)
    requires sh.capacity > 0
    requires forall n :: 0 <= n < |seen| ==> |seen[n].keys| == |seen[n].values| == sh.capacity
    requires !r.Done? ==> r.idx < sh.capacity
    ensures !r'.Done? ==> r'.idx < sh.capacity
  {
    if seen == [] then r
    else Step(sh, key, Run(sh, key, r, seen[..|seen| - 1]), seen[|seen| - 1])
  }

  /** seen[n] is the trail's table number when[n], and time does not go back. */
  ghost predicate Samples<K, V>(trail: seq<Table<K, V>>, when: seq<nat>, seen: seq<Table<K, V>>)
  {
    && |when| == |seen|
    && (forall n :: 0 <= n < |when| ==> when[n] < |trail|)
    && (forall m, n :: 0 <= m <= n < |when| ==> when[m] <= when[n])
    && (forall n :: 0 <= n < |when| ==> seen[n] == trail[when[n]])
  }

  // ---- against an erase ----

  /** Cell i held the key at some load; at some later load its value was v; at a still later one the
      key was there again. */
  ghost predicate Found<K, V>(sh: Shape<K, V>, key: K, seen: seq<Table<K, V>>, i: nat)
    requires Widths(sh, seen)
  {
    i < sh.capacity && exists l :: 0 <= l < |seen| && seen[l].keys[i] == key
  }

  ghost predicate FoundValue<K, V>(sh: Shape<K, V>, key: K, seen: seq<Table<K, V>>, i: nat, v: V)
    requires Widths(sh, seen)
  {
    i < sh.capacity
    && exists m :: 0 <= m < |seen| && seen[m].values[i] == v && Found(sh, key, seen[..m], i)
  }

  ghost predicate FoundAgain<K, V>(sh: Shape<K, V>, key: K, seen: seq<Table<K, V>>, i: nat, v: V)
    requires Widths(sh, seen)
  {
    i < sh.capacity
    && exists n :: 0 <= n < |seen| && seen[n].keys[i] == key && FoundValue(sh, key, seen[..n], i, v)
  }

  /** What the reader's state proves about what it has seen. */
  ghost predicate Evidence<K, V>(sh: Shape<K, V>, key: K, seen: seq<Table<K, V>>, r: Reader<V>)
    requires Widths(sh, seen)
  {
    match r
    case Probing(idx) => idx < sh.capacity
    case Matched(idx) => Found(sh, key, seen, idx)
    case Loaded(idx, value) => FoundValue(sh, key, seen, idx, value)
    case Done(value) => value == sh.nullValue || exists i: nat :: FoundAgain(sh, key, seen, i, value)
  }

  lemma StepHasEvidence<K, V>(sh: Shape<K, V>, key: K, seen: seq<Table<K, V>>, r: Reader<V>)
    requires sh.capacity > 0 && Widths(sh, seen) && seen != []
    requires Evidence(sh, key, seen[..|seen| - 1], r)
    ensures Evidence(sh, key, seen, Step(sh, key, r, seen[|seen| - 1]))
  {
    var n := |seen| - 1;
    match r
    case Probing(last) =>
    case Matched(idx) =>
      assert seen[n].values[idx] == Step(sh, key, r, seen[n]).value;
    case Loaded(idx, value) =>
      if seen[n].keys[idx] == key {
        assert FoundAgain(sh, key, seen, idx, value);
      }
    case Done(value) =>
      if value != sh.nullValue {
        var i: nat :| FoundAgain(sh, key, seen[..n], i, value);
        var n': nat :| 0 <= n' < n && seen[..n][n'].keys[i] == key && FoundValue(sh, key, seen[..n][..n'], i, value);
        assert seen[..n][..n'] == seen[..n'] && seen[n'].keys[i] == key;
        assert FoundAgain(sh, key, seen, i, value);
      }
  }

  lemma {:induction false} RunHasEvidence<K, V>(sh: Shape<K, V>, key: K, seen: seq<Table<K, V>>)
    requires sh.capacity > 0 && Widths(sh, seen)
    ensures Evidence(sh, key, seen, Run(sh, key, Start(sh, key), seen))
  {
    if seen != [] {
      var before := seen[..|seen| - 1];
      RunHasEvidence(sh, key, before);
      StepHasEvidence(sh, key, seen, Run(sh, key, Start(sh, key), before));
    }
  }

  lemma FoundAgainWhen<K, V>(sh: Shape<K, V>, key: K, seen: seq<Table<K, V>>, i: nat, v: V)
    returns (l: nat, m: nat, n: nat)
    requires Widths(sh, seen) && FoundAgain(sh, key, seen, i, v)
    ensures i < sh.capacity && l < m < n < |seen|
    ensures seen[l].keys[i] == key && seen[m].values[i] == v && seen[n].keys[i] == key
  {
    n :| 0 <= n < |seen| && seen[n].keys[i] == key && FoundValue(sh, key, seen[..n], i, v);
    m :| 0 <= m < n && seen[..n][m].values[i] == v && Found(sh, key, seen[..n][..m], i);
    l :| 0 <= l < m && seen[..n][..m][l].keys[i] == key;
  }

  /** A key seen in the same cell before and after a load was there at the load. */
  lemma StillTheSameTenant<K, V>(sh: Shape<K, V>, key: K, trail: seq<Table<K, V>>, before: map<K, V>,
                                 i: nat, l: nat, m: nat, n: nat)
    requires EraseTrail(sh, trail, before) && key != sh.nullKey
    requires i < sh.capacity && l <= m <= n < |trail|
    requires trail[l].keys[i] == key && trail[n].keys[i] == key
    ensures trail[m].values[i] == sh.nullValue || (key in before && trail[m].values[i] == before[key])
  {
    assert trail[m].keys[i] == key;
  }

  /** A get that overlaps one erase returns null or the value its key had before: never the value
      of another key, although cells are refilled underneath it. */
  lemma GetDuringErase<K, V>(sh: Shape<K, V>, key: K, trail: seq<Table<K, V>>, before: map<K, V>,
                             when: seq<nat>, seen: seq<Table<K, V>>)
    requires sh.capacity > 0 && key != sh.nullKey
    requires EraseTrail(sh, trail, before) && Samples(trail, when, seen)
    requires Widths(sh, seen)
    ensures var r := Run(sh, key, Start(sh, key), seen);
      r.Done? && r.result != sh.nullValue ==> key in before && r.result == before[key]
  {
    RunHasEvidence(sh, key, seen);
    var r := Run(sh, key, Start(sh, key), seen);
    if r.Done? && r.result != sh.nullValue {
      var i: nat :| FoundAgain(sh, key, seen, i, r.result);
      var l, m, n := FoundAgainWhen(sh, key, seen, i, r.result);
      StillTheSameTenant(sh, key, trail, before, i, when[l], when[m], when[n]);
    }
  }

  /** Why a get that has made n loads is going to return null with the next: it has come round to the cycle
      guard, its next cell has a null key, or a cell that has the key again held a null value. */
  predicate SeesNull<K(==), V(==)>(sh: Shape<K, V>, key: K, seen: seq<Table<K, V>>, n: nat)
    requires sh.capacity > 0 && Widths(sh, seen) && n < |seen|
  {
    match Run(sh, key, Start(sh, key), seen[..n])
    case Probing(last) =>
      || Next(last, sh.capacity) == Previous(Home(sh, key), sh.capacity)
      || seen[n].keys[Next(last, sh.capacity)] == sh.nullKey
    case Matched(_) => false
    case Loaded(i, value) => value == sh.nullValue && seen[n].keys[i] == key
    case Done(_) => false
  }

  /** A get returns null only for one of these reasons. */
  lemma {:induction false} NullHasAReason<K, V>(sh: Shape<K, V>, key: K, seen: seq<Table<K, V>>) returns (n: nat)
    requires sh.capacity > 0 && Widths(sh, seen)
    requires Run(sh, key, Start(sh, key), seen) == Done(sh.nullValue)
    ensures n < |seen| && SeesNull(sh, key, seen, n)
  {
    var before := seen[..|seen| - 1];
    if Run(sh, key, Start(sh, key), before).Done? {
      n := NullHasAReason(sh, key, before);
      assert before[..n] == seen[..n];
    } else {
      n := |seen| - 1;
    }
  }

  // ---- against an assign ----

  /** What a reader knows about the tables it has seen while an assign was under way: the cells it has
      passed were taken by other keys, and what it has loaded was the binding at some load. */
  ghost predicate Consistent<K, V>(sh: Shape<K, V>, key: K, seen: seq<Table<K, V>>, r: Reader<V>)
    requires sh.capacity > 0 && Widths(sh, seen)
  {
    match r
    case Probing(idx) =>
      idx < sh.capacity
      && (|| idx == Previous(Home(sh, key), sh.capacity)
          || PassedBy(sh, key, seen, Distance(Home(sh, key), idx, sh.capacity) + 1))
    case Matched(idx) => idx < sh.capacity && seen != [] && seen[|seen| - 1].keys[idx] == key
    case Loaded(idx, value) =>
      idx < sh.capacity && seen != [] && seen[|seen| - 1].keys[idx] == key && WasBound(sh, key, seen, value)
    case Done(value) => WasBound(sh, key, seen, value)
  }

  ghost predicate PassedBy<K, V>(sh: Shape<K, V>, key: K, seen: seq<Table<K, V>>, n: int)
    requires sh.capacity > 0 && Widths(sh, seen)
  {
    seen != [] && Missed(sh, seen[|seen| - 1].keys, key, n)
  }

  /** At some load of the reader, value was what the key was bound to (null if it was not bound). */
  ghost predicate WasBound<K, V>(sh: Shape<K, V>, key: K, seen: seq<Table<K, V>>, value: V)
    requires Widths(sh, seen)
  {
    exists n :: 0 <= n < |seen| && value == Lookup(sh, Bindings(sh, seen[n]), key)
  }

  lemma StepConsistent<K, V>(sh: Shape<K, V>, key: K, before: seq<Table<K, V>>, r: Reader<V>, t: Table<K, V>)
    requires sh.capacity > 0 && key != sh.nullKey
    requires Widths(sh, before + [t]) && Widths(sh, before) && KeysStick(sh, before + [t]) && Searchable(sh, t)
    requires Consistent(sh, key, before, r)
    requires r == Start(sh, key) || before != []
    ensures Consistent(sh, key, before + [t], Step(sh, key, r, t))
  {
    var seen := before + [t];
    assert seen[|before|] == t;
    match r
    case Done(value) =>
      var n :| 0 <= n < |before| && value == Lookup(sh, Bindings(sh, before[n]), key);
      assert seen[n] == before[n];
    case Matched(idx) =>
      assert seen[|before| - 1] == before[|before| - 1];
      BoundAt(sh, t, idx);
      assert t.values[idx] == Lookup(sh, Bindings(sh, seen[|before|]), key);
    case Loaded(idx, value) =>
      var n :| 0 <= n < |before| && value == Lookup(sh, Bindings(sh, before[n]), key);
      assert seen[n] == before[n] && seen[|before| - 1] == before[|before| - 1];
    case Probing(last) =>
      var idx := Next(last, sh.capacity);
      var n := Distance(Home(sh, key), idx, sh.capacity);
      StillMissed(sh, key, before, t, last);
      if idx == Previous(Home(sh, key), sh.capacity) {
        MissedMeansAbsent(sh, t, key, sh.capacity - 1);
        assert sh.nullValue == Lookup(sh, Bindings(sh, seen[|before|]), key);
      } else if t.keys[idx] == sh.nullKey {
        MissedMeansAbsent(sh, t, key, n);
        assert sh.nullValue == Lookup(sh, Bindings(sh, seen[|before|]), key);
      } else if t.keys[idx] != key {
        MissedOneMore(sh, t.keys, key, n, idx);
      }
  }

  /** Cells the reader has passed are still taken by the same other keys. */
  lemma StillMissed<K, V>(sh: Shape<K, V>, key: K, before: seq<Table<K, V>>, t: Table<K, V>, last: nat)
    requires sh.capacity > 0 && last < sh.capacity && |t.keys| == sh.capacity
    requires Widths(sh, before) && Widths(sh, before + [t]) && KeysStick(sh, before + [t])
    requires last == Previous(Home(sh, key), sh.capacity)
          || PassedBy(sh, key, before, Distance(Home(sh, key), last, sh.capacity) + 1)
    ensures Missed(sh, t.keys, key, Distance(Home(sh, key), Next(last, sh.capacity), sh.capacity))
  {
    if last != Previous(Home(sh, key), sh.capacity) {
      var seen := before + [t];
      assert seen[|before| - 1] == before[|before| - 1] && seen[|before|] == t;
      assert Distance(Home(sh, key), Next(last, sh.capacity), sh.capacity)
          == Distance(Home(sh, key), last, sh.capacity) + 1;
    }
  }

  lemma {:induction false} RunConsistent<K, V>(sh: Shape<K, V>, key: K, seen: seq<Table<K, V>>)
    requires sh.capacity > 0 && key != sh.nullKey
    requires Widths(sh, seen) && KeysStick(sh, seen)
    requires forall n :: 0 <= n < |seen| ==> Searchable(sh, seen[n])
    ensures Consistent(sh, key, seen, Run(sh, key, Start(sh, key), seen))
  {
    if seen != [] {
      var before, t := seen[..|seen| - 1], seen[|seen| - 1];
      assert seen == before + [t];
      RunConsistent(sh, key, before);
      StepConsistent(sh, key, before, Run(sh, key, Start(sh, key), before), t);
    }
  }

  /** A get that overlaps one assign is linearizable: its result is what the key was bound to at the
      moment of one of its loads. */
  lemma GetDuringAssign<K, V>(sh: Shape<K, V>, key: K, trail: seq<Table<K, V>>, before: map<K, V>, k: K, v: V,
                              when: seq<nat>, seen: seq<Table<K, V>>)
    requires sh.capacity > 0 && key != sh.nullKey
    requires AssignTrail(sh, trail, before, k, v) && Samples(trail, when, seen)
    requires Widths(sh, seen)
    ensures var r := Run(sh, key, Start(sh, key), seen);
      r.Done? ==>
        && (exists n :: 0 <= n < |seen| && r.result == Lookup(sh, Bindings(sh, trail[when[n]]), key))
        && (r.result == Lookup(sh, before, key) || (key == k && r.result == v))
  {
    forall m, n, i | 0 <= m <= n < |seen| && 0 <= i < sh.capacity && seen[m].keys[i] != sh.nullKey
      ensures seen[n].keys[i] == seen[m].keys[i]
    {
      assert trail[when[m]].keys[i] != sh.nullKey;
    }
    RunConsistent(sh, key, seen);
    var r := Run(sh, key, Start(sh, key), seen);
    if r.Done? {
      var n :| 0 <= n < |seen| && r.result == Lookup(sh, Bindings(sh, seen[n]), key);
      assert seen[n] == trail[when[n]];
    }
  }

  // ---- exactly what a get can return ----

  /** A get of the key that makes its loads from the trail in this way returns the value. */
  ghost predicate Returns<K(!new), V(!new)>(sh: Shape<K, V>, key: K, trail: seq<Table<K, V>>, when: seq<nat>,
                                            seen: seq<Table<K, V>>, v: V)
  {
    && sh.capacity > 0 && Samples(trail, when, seen) && Widths(sh, seen)
    && Run(sh, key, Start(sh, key), seen) == Done(v)
  }

  ghost predicate CanReturn<K(!new), V(!new)>(sh: Shape<K, V>, key: K, trail: seq<Table<K, V>>, v: V)
  {
    exists when, seen :: Returns(sh, key, trail, when, seen, v)
  }

  lemma RunOneMore<K, V>(sh: Shape<K, V>, key: K, seen: seq<Table<K, V>>, t: Table<K, V>)
    requires sh.capacity > 0 && Widths(sh, seen) && |t.keys| == |t.values| == sh.capacity
    ensures Widths(sh, seen + [t])
    ensures Run(sh, key, Start(sh, key), seen + [t]) == Step(sh, key, Run(sh, key, Start(sh, key), seen), t)
  {
    assert (seen + [t])[..|seen|] == seen;
  }

  /** The reader is on its way to cell c, or there and about to return v. */
  predicate OnCourse<K, V(==)>(sh: Shape<K, V>, key: K, r: Reader<V>, c: nat, v: V)
    requires sh.capacity > 0
  {
    match r
    case Probing(idx) =>
      || idx == Previous(Home(sh, key), sh.capacity)
      || (idx != c && OnWalk(Home(sh, key), idx, c, sh.capacity))
    case Matched(idx) => idx == c
    case Loaded(idx, value) => idx == c && value == v
    case Done(value) => value == v
  }

  lemma StaysOnCourse<K, V>(sh: Shape<K, V>, key: K, r: Reader<V>, t: Table<K, V>, c: nat, v: V)
    requires sh.capacity > 0 && Intact(sh, t, c, key, v) && (!r.Done? ==> r.idx < sh.capacity)
    requires OnCourse(sh, key, r, c, v)
    ensures OnCourse(sh, key, Step(sh, key, r, t), c, v)
  {
  }

  /** A key that can be found in every table is found. */
  lemma {:induction false} FindsIntact<K, V>(sh: Shape<K, V>, key: K, seen: seq<Table<K, V>>, c: nat, v: V)
    requires sh.capacity > 0 && Widths(sh, seen)
    requires forall n :: 0 <= n < |seen| ==> Intact(sh, seen[n], c, key, v)
    ensures OnCourse(sh, key, Run(sh, key, Start(sh, key), seen), c, v)
  {
    hide Intact;
    if seen != [] {
      var before := seen[..|seen| - 1];
      FindsIntact(sh, key, before, c, v);
      StaysOnCourse(sh, key, Run(sh, key, Start(sh, key), before), seen[|seen| - 1], c, v);
    }
  }

  /** The cell n places after the key's home. */
  function WalkCell<K, V>(sh: Shape<K, V>, key: K, n: nat): (i: nat)
    requires n < sh.capacity
    ensures i < sh.capacity && Distance(Home(sh, key), i, sh.capacity) == n
  {
    if Home(sh, key) + n < sh.capacity then Home(sh, key) + n else Home(sh, key) + n - sh.capacity
  }

  lemma RunOfNothingSeen<K, V>(sh: Shape<K, V>, key: K)
    requires sh.capacity > 0
    ensures Run(sh, key, Start(sh, key), []) == Start(sh, key)
  {
  }

  /** A reader that looks at one table only walks on as long as it meets other keys. */
  lemma {:induction false} WalksOn<K, V>(sh: Shape<K, V>, key: K, t: Table<K, V>, n: nat)
    requires sh.capacity > 0 && |t.keys| == |t.values| == sh.capacity
    requires n < sh.capacity && Missed(sh, t.keys, key, n)
    ensures var r := Run(sh, key, Start(sh, key), seq(n, _ => t));
            r == if n == 0 then Start(sh, key) else Probing(WalkCell(sh, key, n - 1))
    decreases n
  {
    hide Run, Home;
    if n == 0 {
      RunOfNothingSeen(sh, key);
    } else {
      WalksOn(sh, key, t, n - 1);
      var before := seq(n - 1, _ => t);
      assert seq(n, _ => t) == before + [t];
      RunOneMore(sh, key, before, t);
      var i := WalkCell(sh, key, n - 1);
      assert t.keys[i] != key && t.keys[i] != sh.nullKey;
    }
  }

  lemma Arrives<K, V>(sh: Shape<K, V>, key: K, t: Table<K, V>, i: nat)
    requires sh.capacity > 0 && |t.keys| == |t.values| == sh.capacity && i < sh.capacity
    requires Missed(sh, t.keys, key, Distance(Home(sh, key), i, sh.capacity))
    ensures Run(sh, key, Start(sh, key), seq(Distance(Home(sh, key), i, sh.capacity) + 1, _ => t))
         == (if i == Previous(Home(sh, key), sh.capacity) then Done(sh.nullValue)
             else if t.keys[i] == key then Matched(i)
             else if t.keys[i] == sh.nullKey then Done(sh.nullValue)
             else Probing(i))
  {
    hide Run, Home;
    var n := Distance(Home(sh, key), i, sh.capacity);
    WalksOn(sh, key, t, n);
    assert seq(n + 1, _ => t) == seq(n, _ => t) + [t];
    RunOneMore(sh, key, seq(n, _ => t), t);
  }

  /** A get of a key that is cut off in one of the tables can return null. */
  lemma CutReturnsNull<K(!new), V(!new)>(sh: Shape<K, V>, key: K, trail: seq<Table<K, V>>, n: nat, x: nat)
    requires sh.capacity > 0 && Widths(sh, trail) && key != sh.nullKey && CutIn(sh, trail, key, n, x)
    ensures CanReturn(sh, key, trail, sh.nullValue)
  {
    var d := Distance(Home(sh, key), x, sh.capacity);
    Arrives(sh, key, trail[n], x);
    var when, seen := seq(d + 1, _ => n), seq(d + 1, _ => trail[n]);
    assert Returns(sh, key, trail, when, seen, sh.nullValue);
  }

  /** A get of a bound key that overlaps the erase of another key can miss it if and only if the erase moves
      it, which can be read off the table before the erase; otherwise it returns the key's value. */
  lemma FoundIffNotMoved<K(!new), V(!new)>(sh: Shape<K, V>, t: Table<K, V>, erased: K, key: K)
    requires Searchable(sh, t) && key in Bindings(sh, t) && key != erased
    requires Bindings(sh, t)[key] != sh.nullValue
    ensures CanReturn(sh, key, EraseTables(sh, t, erased), sh.nullValue)
       <==> key in MovedByErase(sh, t.keys, erased)
    ensures (forall v :: CanReturn(sh, key, EraseTables(sh, t, erased), v) ==> v == Bindings(sh, t)[key])
       <==> key !in MovedByErase(sh, t.keys, erased)
  {
    hide Searchable, MovedByErase, EraseTables, Intact, Reachable, EraseTrail, Samples, CutIn, Returns, OnCourse;
    SearchableIsShaped(sh, t);
    var tables := EraseTables(sh, t, erased);
    EraseTablesAreTrail(sh, t, erased);
    if key in MovedByErase(sh, t.keys, erased) {
      var n, x := EraseCutsMoved(sh, t, erased, key);
      CutReturnsNull(sh, key, tables, n, x);
    } else {
      forall v | CanReturn(sh, key, tables, v) ensures v == Bindings(sh, t)[key] {
        var when, seen :| Returns(sh, key, tables, when, seen, v);
        UnmovedIsFound(sh, t, erased, key, when, seen, v);
      }
    }
  }

  lemma UnmovedIsFound<K(!new), V(!new)>(sh: Shape<K, V>, t: Table<K, V>, erased: K, key: K, when: seq<nat>,
                                         seen: seq<Table<K, V>>, v: V)
    requires Searchable(sh, t) && key in Bindings(sh, t) && key != erased
    requires key !in MovedByErase(sh, t.keys, erased)
    requires Returns(sh, key, EraseTables(sh, t, erased), when, seen, v)
    ensures v == Bindings(sh, t)[key]
  {
    hide MovedByErase, EraseTables, Intact, Reachable, EraseTrail;
    var c := IndexOf(t.keys, key);
    EraseKeepsUnmoved(sh, t, erased, c);
    BoundInSearchable(sh, t, c);
    FindsIntact(sh, key, seen, c, t.values[c]);
  }

  /** At some moment the key is in the cell, then the value, and then the key again. */
  ghost predicate TakesBack<K, V>(sh: Shape<K, V>, key: K, trail: seq<Table<K, V>>, v: V, i: nat, l: nat, m: nat,
                                  n: nat)
    requires Widths(sh, trail)
  {
    && i < sh.capacity && l <= m <= n < |trail|
    && trail[l].keys[i] == key && trail[m].values[i] == v && trail[n].keys[i] == key
  }

  /** What a get returns, if it is not null, stood in a cell that had the key before and after. */
  lemma ReturnedWasTakenBack<K(!new), V(!new)>(sh: Shape<K, V>, key: K, trail: seq<Table<K, V>>, when: seq<nat>,
                                               seen: seq<Table<K, V>>, v: V)
    returns (i: nat, l: nat, m: nat, n: nat)
    requires Widths(sh, trail) && v != sh.nullValue && Returns(sh, key, trail, when, seen, v)
    ensures TakesBack(sh, key, trail, v, i, l, m, n)
  {
    RunHasEvidence(sh, key, seen);
    i :| FoundAgain(sh, key, seen, i, v);
    var l', m', n' := FoundAgainWhen(sh, key, seen, i, v);
    l, m, n := when[l'], when[m'], when[n'];
  }

  /** A reader that arrives at the cell while the key can be found there, and is late twice, returns whatever
      the cell's value is in between. */
  lemma LateReaderReturns<K(!new), V(!new)>(sh: Shape<K, V>, key: K, trail: seq<Table<K, V>>, v: V, i: nat, l: nat,
                                            m: nat, n: nat)
    requires sh.capacity > 0 && Widths(sh, trail) && i < sh.capacity && ClearAt(sh, trail, l, key, i)
    requires TakesBack(sh, key, trail, v, i, l, m, n)
    ensures CanReturn(sh, key, trail, v)
  {
    hide Run, Step, Home;
    var d := Distance(Home(sh, key), i, sh.capacity);
    ClearIsMissed(sh, trail[l].keys, i);
    Arrives(sh, key, trail[l], i);
    var seen := seq(d + 1, _ => trail[l]);
    RunOneMore(sh, key, seen, trail[m]);
    MatchedLoads(sh, key, i, trail[m], trail[n]);
    RunOneMore(sh, key, seen + [trail[m]], trail[n]);
    LateSamples(trail, d + 1, l, m, n);
    assert Returns(sh, key, trail, seq(d + 1, _ => l) + [m] + [n], seen + [trail[m]] + [trail[n]], v);
  }

  lemma MatchedLoads<K, V>(sh: Shape<K, V>, key: K, i: nat, t: Table<K, V>, u: Table<K, V>)
    requires |t.keys| == |t.values| == |u.keys| == |u.values| == sh.capacity && i < sh.capacity && u.keys[i] == key
    ensures Step(sh, key, Matched(i), t) == Loaded(i, t.values[i])
    ensures Step(sh, key, Loaded(i, t.values[i]), u) == Done(t.values[i])
  {
  }

  lemma ClearIsMissed<K, V>(sh: Shape<K, V>, keys: seq<K>, i: nat)
    requires |keys| == sh.capacity && i < sh.capacity && Clear(sh, keys, i)
    ensures Missed(sh, keys, keys[i], Distance(Home(sh, keys[i]), i, sh.capacity))
    ensures i != Previous(Home(sh, keys[i]), sh.capacity)
  {
  }

  lemma LateSamples<K, V>(trail: seq<Table<K, V>>, d: nat, l: nat, m: nat, n: nat)
    requires l <= m <= n < |trail|
    ensures Samples(trail, seq(d, _ => l) + [m] + [n], seq(d, _ => trail[l]) + [trail[m]] + [trail[n]])
  {
  }

  ghost predicate SomeTakesBack<K(!new), V(!new)>(sh: Shape<K, V>, key: K, trail: seq<Table<K, V>>, v: V)
    requires Widths(sh, trail)
  {
    exists i, l, m, n :: TakesBack(sh, key, trail, v, i, l, m, n)
  }

  /** Over any number of writer operations, whatever their stores and the reader's loads: a get can return a
      value if and only if some cell had the key, then the value, and then the key again. */
  lemma ReturnsIffTakenBack<K(!new), V(!new)>(sh: Shape<K, V>, maxLoad: nat, t: Table<K, V>,
                                              ops: seq<Operation<K, V>>, key: K, v: V)
    requires Quiet(sh, maxLoad, t) && key != sh.nullKey && v != sh.nullValue
    ensures Widths(sh, RunTables(sh, maxLoad, t, ops))
    ensures CanReturn(sh, key, RunTables(sh, maxLoad, t, ops), v)
       <==> SomeTakesBack(sh, key, RunTables(sh, maxLoad, t, ops), v)
  {
    hide Quiet, RunTables, Returns, FoundBy, Clear;
    var trail := RunTables(sh, maxLoad, t, ops);
    QuietIsShaped(sh, maxLoad, t);
    RunReachable(sh, maxLoad, t, ops);
    if CanReturn(sh, key, trail, v) {
      var when, seen :| Returns(sh, key, trail, when, seen, v);
      var i, l, m, n := ReturnedWasTakenBack(sh, key, trail, when, seen, v);
    }
    if SomeTakesBack(sh, key, trail, v) {
      var i, l, m, n :| TakesBack(sh, key, trail, v, i, l, m, n);
      var l' := EarlierClear(sh, trail, l, i);
      LateReaderReturns(sh, key, trail, v, i, l', m, n);
    }
  }

  lemma EarlierClear<K, V>(sh: Shape<K, V>, trail: seq<Table<K, V>>, n: nat, i: nat) returns (l: nat)
    requires Widths(sh, trail) && Reachable(sh, trail) && n < |trail| && i < sh.capacity
    requires trail[n].keys[i] != sh.nullKey
    ensures l <= n && ClearAt(sh, trail, l, trail[n].keys[i], i)
  {
    hide ClearAt;
    assert FoundBy(sh, trail, n, i);
    l :| l <= n && ClearAt(sh, trail, l, trail[n].keys[i], i);
  }

  /** If no cell loses the key and takes it back, then over any number of operations a get returns null or a
      value that the key had. */
  lemma OwnValueUnlessTakenBack<K(!new), V(!new)>(sh: Shape<K, V>, maxLoad: nat, t: Table<K, V>,
                                                  ops: seq<Operation<K, V>>, key: K, v: V)
    requires Quiet(sh, maxLoad, t) && key != sh.nullKey && v != sh.nullValue
    requires Widths(sh, RunTables(sh, maxLoad, t, ops))
    requires NeverTakenBack(sh, key, RunTables(sh, maxLoad, t, ops))
    requires CanReturn(sh, key, RunTables(sh, maxLoad, t, ops), v)
    ensures HadValue(sh, maxLoad, t, ops, key, v)
  {
    hide Quiet, RunTables, HadValue;
    ReturnsIffTakenBack(sh, maxLoad, t, ops, key, v);
    var i, l, m, n :| TakesBack(sh, key, RunTables(sh, maxLoad, t, ops), v, i, l, m, n);
    RunValues(sh, maxLoad, t, ops, m, i);
  }

  /** So a get returns null or a value that the key had, unless the key is assigned again after an erase. */
  lemma OwnValueUnlessReassigned<K(!new), V(!new)>(sh: Shape<K, V>, maxLoad: nat, t: Table<K, V>,
                                                   ops: seq<Operation<K, V>>, key: K, v: V)
    requires Quiet(sh, maxLoad, t) && key != sh.nullKey && v != sh.nullValue && NeverReassigned(ops, key)
    requires CanReturn(sh, key, RunTables(sh, maxLoad, t, ops), v)
    ensures HadValue(sh, maxLoad, t, ops, key, v)
  {
    hide Quiet, RunTables, HadValue, CanReturn, NeverTakenBack, NeverReassigned;
    NeverTakenBackUnlessReassigned(sh, maxLoad, t, ops, key);
    OwnValueUnlessTakenBack(sh, maxLoad, t, ops, key, v);
  }

  /** Any number of assigns: every get is linearizable. */
  lemma GetDuringAssigns<K(!new), V(!new)>(sh: Shape<K, V>, maxLoad: nat, t: Table<K, V>,
                                           ops: seq<Operation<K, V>>, key: K, when: seq<nat>,
                                           seen: seq<Table<K, V>>, v: V)
    requires Quiet(sh, maxLoad, t) && key != sh.nullKey
    requires forall n :: 0 <= n < |ops| ==> ops[n].Assign?
    requires Returns(sh, key, RunTables(sh, maxLoad, t, ops), when, seen, v)
    ensures exists n :: 0 <= n < |seen| && v == Lookup(sh, Bindings(sh, seen[n]), key)
  {
    hide Quiet, RunTables, Searchable, Bindings, Run, Step;
    var trail := RunTables(sh, maxLoad, t, ops);
    AssignsGrow(sh, maxLoad, t, ops);
    forall m, n, i | 0 <= m <= n < |seen| && 0 <= i < sh.capacity && seen[m].keys[i] != sh.nullKey
      ensures seen[n].keys[i] == seen[m].keys[i]
    {
      assert trail[when[m]].keys[i] != sh.nullKey;
    }
    RunConsistent(sh, key, seen);
  }

  // ---- what is not promised ----

  /** A table in which every key hashes to cell 0. */
  function OneHome(capacity: nat): Shape<nat, nat>
  {
    Shape(capacity, 0, 0, (k: nat) => 0)
  }

  const BOTH: Table<nat, nat> := Table([1, 2, 0, 0], [10, 20, 0, 0])
  const HOLED: Table<nat, nat> := Table([0, 2, 0, 0], [0, 20, 0, 0])

  lemma BothIsSearchable()
    ensures Searchable(OneHome(4), BOTH)
  {
    assert BOTH.keys[2] == OneHome(4).nullKey;
  }

  lemma BothBinds()
    ensures Bindings(OneHome(4), BOTH) == map[1 := 10, 2 := 20]
  {
    hide Searchable, Bindings, IndexOf;
    BothIsSearchable();
    BoundInSearchable(OneHome(4), BOTH, 0);
    BoundInSearchable(OneHome(4), BOTH, 1);
    forall k | k in Bindings(OneHome(4), BOTH) ensures k == 1 || k == 2 {
      BoundIsThere(OneHome(4), BOTH, k);
    }
  }

  lemma BoundIsThere<K, V>(sh: Shape<K, V>, t: Table<K, V>, k: K)
    requires |t.keys| == |t.values| && k in Bindings(sh, t)
    ensures k in t.keys && k != sh.nullKey
  {
  }

  /** The erase of key 1 moves key 2 into its cell. */
  lemma EraseMovesTheOther()
    ensures EraseTables(OneHome(4), BOTH, 1)
         == [BOTH] + NullOutStores(OneHome(4), BOTH, 0) + MoveStores(OneHome(4), HOLED, 0, 1)
    ensures 2 in MovedByErase(OneHome(4), BOTH.keys, 1)
  {
    var sh := OneHome(4);
    assert IndexOf(BOTH.keys, 1) == 0;
    assert NullOutStores(sh, BOTH, 0)[1] == HOLED;
    assert MoveTest(1, Home(sh, 2), 0);
    var moved := Moved(sh, HOLED, 0, 1);
    assert moved.keys[2] == 0;
    assert CompactStores(sh, moved, 0, 1, 1) == [];
    assert CompactStores(sh, HOLED, 0, 0, 0) == MoveStores(sh, HOLED, 0, 1) + [];
  }

  /** A key that an erase merely moves can be missed: while key 1 is erased from BOTH, key 2 is in the table
      at every moment, and yet a get of key 2 can return null. */
  lemma PresentKeyCanBeMissed()
    ensures forall n :: 0 <= n < |EraseTables(OneHome(4), BOTH, 1)| ==> 2 in EraseTables(OneHome(4), BOTH, 1)[n].keys
    ensures Bindings(OneHome(4), BOTH) == map[1 := 10, 2 := 20]
    ensures CanReturn(OneHome(4), 2, EraseTables(OneHome(4), BOTH, 1), 0)
  {
    hide MovedByErase, CanReturn, Searchable, Bindings;
    BothIsSearchable();
    BothBinds();
    EraseMovesTheOther();
    var trail := EraseTables(OneHome(4), BOTH, 1);
    forall n | 0 <= n < |trail| ensures 2 in trail[n].keys {
      assert if n < 5 then trail[n].keys[1] == 2 else trail[n].keys[0] == 2;
    }
    FoundIffNotMoved(OneHome(4), BOTH, 1, 2);
  }

  const FIRST: Table<nat, nat> := Table([1, 0], [10, 0])
  const EMPTY: Table<nat, nat> := Table([0, 0], [0, 0])
  const SECOND: Table<nat, nat> := Table([2, 0], [20, 0])

  /** Key 1 gives up its cell to key 2 and takes it back. */
  const PASS_ON: seq<Operation<nat, nat>> := [Erase(1), Assign(2, 20), Erase(2), Assign(1, 10)]

  lemma FirstIsQuiet()
    ensures Quiet(OneHome(2), 1, FIRST) && Bindings(OneHome(2), FIRST) == map[1 := 10]
  {
    assert FIRST.keys[1] == 0;
    assert FIRST.keys[1..] == [0] && [0][1..] == [];
    BoundAt(OneHome(2), FIRST, 0);
  }

  lemma EraseOnly(k: nat, v: nat)
    requires k != 0
    ensures var t := Table([k, 0], [v, 0]);
            EraseTables(OneHome(2), t, k) == [t, Table([k, 0], [0, 0]), EMPTY]
  {
    var sh, t := OneHome(2), Table([k, 0], [v, 0]);
    assert IndexOf(t.keys, k) == 0;
    assert StoreValue(t, 0, 0).values == [0, 0];
    assert StoreKey(StoreValue(t, 0, 0), 0, 0).keys == [0, 0];
    assert CompactStores(sh, EMPTY, 0, 0, 0) == [];
  }

  lemma AssignToEmpty(k: nat, v: nat)
    requires k != 0 && v != 0
    ensures AssignTables(OneHome(2), 1, EMPTY, k, v)
         == [EMPTY, Table([k, 0], [0, 0]), Table([k, 0], [v, 0])]
  {
    var sh := OneHome(2);
    assert EMPTY.keys[1..] == [0] && [0][1..] == [];
    assert Load(EMPTY.keys, 0) == 0;
    assert StopCell(sh, EMPTY.keys, k, 0, 0) == 0;
    assert StoreKey(EMPTY, 0, k) == Table([k, 0], [0, 0]);
    assert StoreValue(Table([k, 0], [0, 0]), 0, v) == Table([k, 0], [v, 0]);
  }

  /** The tables of the four operations; each begins with the table where the last one ended. */
  function PassOnPart(n: nat): seq<Table<nat, nat>>
  {
    if n == 0 then [FIRST, Table([1, 0], [0, 0]), EMPTY]
    else if n == 1 then [EMPTY, Table([2, 0], [0, 0]), SECOND]
    else if n == 2 then [SECOND, Table([2, 0], [0, 0]), EMPTY]
    else [EMPTY, Table([1, 0], [0, 0]), FIRST]
  }

  function PassOnTables(n: nat): (tables: seq<Table<nat, nat>>)
    ensures |tables| == 1 + 3 * n
  {
    if n == 0 then [FIRST] else PassOnTables(n - 1) + PassOnPart(n - 1)
  }

  lemma {:induction false} PassOnRun(n: nat)
    requires n <= 4
    ensures Quiet(OneHome(2), 1, FIRST)
    ensures RunTables(OneHome(2), 1, FIRST, PASS_ON[..n]) == PassOnTables(n)
  {
    hide Quiet, EraseTables, AssignTables, Bindings, MapAfter, Searchable, Load;
    FirstIsQuiet();
    if n == 0 {
      assert PASS_ON[..0] == [];
      RunOfNothing(FIRST);
    } else {
      PassOnRun(n - 1);
      BoundaryAfter(OneHome(2), 1, FIRST, PASS_ON, n - 1);
      EraseOnly(1, 10);
      AssignToEmpty(2, 20);
      EraseOnly(2, 20);
      AssignToEmpty(1, 10);
      var start := Boundary(OneHome(2), 1, FIRST, PASS_ON, n - 1);
      assert start == PassOnPart(n - 1)[0];
      assert OperationTables(OneHome(2), 1, start, PASS_ON[n - 1]) == PassOnPart(n - 1);
    }
  }

  /** Whatever these operations do, key 1 is bound to 10 or not at all. */
  lemma {:induction false} FirstKeepsItsValue(n: nat)
    requires n <= 4
    ensures Quiet(OneHome(2), 1, FIRST)
    ensures var m := Bindings(OneHome(2), Boundary(OneHome(2), 1, FIRST, PASS_ON, n)); 1 in m ==> m[1] == 10
  {
    hide Quiet, Bindings, RunTables;
    FirstIsQuiet();
    if n == 0 {
      assert PASS_ON[..0] == [];
      RunOfNothing(FIRST);
    } else {
      FirstKeepsItsValue(n - 1);
      BoundaryAfter(OneHome(2), 1, FIRST, PASS_ON, n - 1);
    }
  }

  lemma PassOnTablesAt()
    ensures var tables := PassOnTables(4); tables[0] == FIRST && tables[6] == SECOND && tables[12] == FIRST
  {
    assert PassOnTables(2)[6] == SECOND;
    assert PassOnTables(1)[0] == FIRST;
    assert PassOnTables(3) == PassOnTables(2) + PassOnPart(2);
    assert PassOnTables(4) == PassOnTables(3) + PassOnPart(3);
  }

  lemma RunOfNothing(t: Table<nat, nat>)
    requires Quiet(OneHome(2), 1, t)
    ensures RunTables(OneHome(2), 1, t, []) == [t]
  {
  }

  /** Over several operations the re-probe proves nothing: key 1 is erased, its cell passes to key 2 and
      back, and a get of key 1 can return 20, which key 1 never had. */
  lemma SeveralOperationsCanMix()
    ensures Quiet(OneHome(2), 1, FIRST)
    ensures CanReturn(OneHome(2), 1, RunTables(OneHome(2), 1, FIRST, PASS_ON), 20)
    ensures !HadValue(OneHome(2), 1, FIRST, PASS_ON, 1, 20)
  {
    hide Quiet, Bindings, RunTables, CanReturn, Boundary;
    PassOnRun(4);
    assert PASS_ON[..4] == PASS_ON;
    var trail := RunTables(OneHome(2), 1, FIRST, PASS_ON);
    ReturnsIffTakenBack(OneHome(2), 1, FIRST, PASS_ON, 1, 20);
    assert trail[0] == FIRST && trail[6] == SECOND && trail[12] == FIRST by {
      PassOnTablesAt();
    }
    assert TakesBack(OneHome(2), 1, trail, 20, 0, 0, 6, 12);
    forall n: nat | n <= |PASS_ON|
      ensures !HasValue(OneHome(2), Boundary(OneHome(2), 1, FIRST, PASS_ON, n), 1, 20)
    {
      FirstKeepsItsValue(n);
    }
  }
}
