/** The tables that an assign and an erase pass through, as functions of the table they start from: one
    table for each store. */
module WriterTables {
  import opened ProbingTable
  import opened Stores
  import opened Compaction

  // ---- compaction ----

  /** The tables after each store of a compaction that started at cell s, has scanned up to cell at and has
      its hole at d. */
  function CompactStores<K(==), V>(sh: Shape<K, V>, t: Table<K, V>, s: nat, at: nat, d: nat): seq<Table<K, V>>
    requires |t.keys| == |t.values| == sh.capacity
    requires s < sh.capacity && at < sh.capacity && d < sh.capacity
    decreases sh.capacity - Distance(s, at, sh.capacity)
  {
    var i := Next(at, sh.capacity);
    if i == s || t.keys[i] == sh.nullKey then []
    else if MoveTest(i, Home(sh, t.keys[i]), d) then
      MoveStores(sh, t, d, i) + CompactStores(sh, Moved(sh, t, d, i), s, i, i)
    else CompactStores(sh, t, s, i, d)
  }

  /** One iteration of the compaction. */
  lemma CompactStoresStep<K, V>(sh: Shape<K, V>, t: Table<K, V>, s: nat, at: nat, d: nat)
    requires |t.keys| == |t.values| == sh.capacity
    requires s < sh.capacity && at < sh.capacity && d < sh.capacity
    ensures CompactStores(sh, t, s, at, d) ==
              var i := Next(at, sh.capacity);
              if i == s || t.keys[i] == sh.nullKey then []
              else if MoveTest(i, Home(sh, t.keys[i]), d) then
                MoveStores(sh, t, d, i) + CompactStores(sh, Moved(sh, t, d, i), s, i, i)
              else CompactStores(sh, t, s, i, d)
  {
  }

  /** The keys that such a compaction moves, read off the keys that are still to be scanned. */
  function MovedKeys<K(==), V>(sh: Shape<K, V>, keys: seq<K>, s: nat, at: nat, d: nat): set<K>
    requires |keys| == sh.capacity
    requires s < sh.capacity && at < sh.capacity && d < sh.capacity
    decreases sh.capacity - Distance(s, at, sh.capacity)
  {
    var i := Next(at, sh.capacity);
    if i == s || keys[i] == sh.nullKey then {}
    else if MoveTest(i, Home(sh, keys[i]), d) then {keys[i]} + MovedKeys(sh, keys, s, i, i)
    else MovedKeys(sh, keys, s, i, d)
  }

  lemma {:induction false} MovedKeysAhead<K, V>(sh: Shape<K, V>, keys: seq<K>, keys': seq<K>, s: nat, at: nat, d: nat)
    requires |keys| == |keys'| == sh.capacity
    requires s < sh.capacity && at < sh.capacity && d < sh.capacity
    requires forall j: nat :: j < sh.capacity && Distance(s, j, sh.capacity) > Distance(s, at, sh.capacity)
               ==> keys'[j] == keys[j]
    ensures MovedKeys(sh, keys', s, at, d) == MovedKeys(sh, keys, s, at, d)
    decreases sh.capacity - Distance(s, at, sh.capacity)
  {
    var i := Next(at, sh.capacity);
    if i != s && keys[i] != sh.nullKey {
      MovedKeysAhead(sh, keys, keys', s, i, if MoveTest(i, Home(sh, keys[i]), d) then i else d);
    }
  }

  /** The last table of a compaction is a good one that stands for the same map. */
  lemma {:induction false} CompactStoresDone<K, V>(sh: Shape<K, V>, t: Table<K, V>, s: nat, at: nat, d: nat, e: nat,
                                                   m: map<K, V>, load: nat)
    requires Compacting(sh, t, s, at, d, e, m, load)
    ensures |t.keys| == |t.values| == sh.capacity && s < sh.capacity && at < sh.capacity && d < sh.capacity
    ensures var tables := [t] + CompactStores(sh, t, s, at, d);
            var u := tables[|tables| - 1];
            Searchable(sh, u) && Bindings(sh, u) == m && Load(u.keys, sh.nullKey) == load
    decreases sh.capacity - Distance(s, at, sh.capacity)
  {
    hide Compacting, Searchable, Bindings, Load, Moved;
    CompactingIsShaped(sh, t, s, at, d, e, m, load);
    CompactingAhead(sh, t, s, at, d, e, m, load);
    var i := Next(at, sh.capacity);
    if t.keys[i] == sh.nullKey {
      CompactingDone(sh, t, s, at, d, e, m, load);
    } else {
      CompactingStep(sh, t, s, at, d, e, m, load);
      if MoveTest(i, Home(sh, t.keys[i]), d) {
        CompactStoresDone(sh, Moved(sh, t, d, i), s, i, i, e, m, load);
        MoveEndsMoved(sh, t, d, i);
      } else {
        CompactStoresDone(sh, t, s, i, d, e, m, load);
      }
    }
  }

  lemma CompactingIsShaped<K, V>(sh: Shape<K, V>, t: Table<K, V>, s: nat, at: nat, d: nat, e: nat, m: map<K, V>,
                                 load: nat)
    requires Compacting(sh, t, s, at, d, e, m, load)
    ensures |t.keys| == |t.values| == sh.capacity && s < sh.capacity && at < sh.capacity && d < sh.capacity
    ensures e < sh.capacity && t.keys[e] == sh.nullKey && Distance(s, at, sh.capacity) < Distance(s, e, sh.capacity)
  {
  }

  lemma MoveEndsMoved<K, V>(sh: Shape<K, V>, t: Table<K, V>, d: nat, i: nat)
    requires |t.keys| == |t.values| && d < |t.keys| && i < |t.keys|
    ensures |MoveStores(sh, t, d, i)| == 4 && MoveStores(sh, t, d, i)[3] == Moved(sh, t, d, i)
  {
  }

  /** A compaction goes on with the trail of an erase. */
  lemma {:induction false} CompactStoresTrail<K, V>(sh: Shape<K, V>, trail: seq<Table<K, V>>, before: map<K, V>,
                                                    t: Table<K, V>, s: nat, at: nat, d: nat, e: nat, m: map<K, V>,
                                                    load: nat)
    requires Compacting(sh, t, s, at, d, e, m, load)
    requires Trailing(sh, trail, before, s, at) && trail != [] && trail[|trail| - 1] == t
    ensures |t.keys| == |t.values| == sh.capacity && s < sh.capacity && at < sh.capacity && d < sh.capacity
    ensures EraseTrail(sh, trail + CompactStores(sh, t, s, at, d), before)
    decreases sh.capacity - Distance(s, at, sh.capacity)
  {
    hide Compacting, Trailing, EraseTrail, Bindings, Moved;
    CompactingIsShaped(sh, t, s, at, d, e, m, load);
    CompactingAhead(sh, t, s, at, d, e, m, load);
    var i := Next(at, sh.capacity);
    if t.keys[i] == sh.nullKey {
      TrailingIsEraseTrail(sh, trail, before, s, at);
      assert trail + [] == trail;
    } else {
      CompactingStep(sh, t, s, at, d, e, m, load);
      if MoveTest(i, Home(sh, t.keys[i]), d) {
        TrailMove(sh, trail, before, s, at, d);
        MoveEndsMoved(sh, t, d, i);
        var trail', rest := trail + MoveStores(sh, t, d, i), CompactStores(sh, Moved(sh, t, d, i), s, i, i);
        CompactStoresTrail(sh, trail', before, Moved(sh, t, d, i), s, i, i, e, m, load);
        assert trail + (MoveStores(sh, t, d, i) + rest) == trail' + rest;
      } else {
        TrailScanned(sh, trail, before, s, at);
        CompactStoresTrail(sh, trail, before, t, s, i, d, e, m, load);
      }
    }
  }

  // ---- which keys a get can reach ----

  /** A get of the key of cell i that looks at this table alone ends at cell i. */
  ghost predicate Clear<K, V>(sh: Shape<K, V>, keys: seq<K>, i: nat)
    requires |keys| == sh.capacity && i < sh.capacity
  {
    && keys[i] != sh.nullKey && i != Previous(Home(sh, keys[i]), sh.capacity)
    && forall j: nat :: j < sh.capacity && j != i && OnWalk(Home(sh, keys[i]), j, i, sh.capacity) ==>
         keys[j] != sh.nullKey && keys[j] != keys[i]
  }

  lemma SearchableIsClear<K, V>(sh: Shape<K, V>, t: Table<K, V>, i: nat)
    requires Searchable(sh, t) && i < sh.capacity && t.keys[i] != sh.nullKey
    ensures Clear(sh, t.keys, i)
  {
    var e :| 0 <= e < |t.keys| && t.keys[e] == sh.nullKey;
    assert !OnWalk(Home(sh, t.keys[i]), e, i, sh.capacity);
  }

  ghost predicate ClearAt<K, V>(sh: Shape<K, V>, trail: seq<Table<K, V>>, l: nat, k: K, i: nat)
    requires Widths(sh, trail) && i < sh.capacity
  {
    l < |trail| && trail[l].keys[i] == k && Clear(sh, trail[l].keys, i)
  }

  /** Whatever key is in a cell could be found there, now or at some earlier moment. */
  ghost predicate Reachable<K, V>(sh: Shape<K, V>, trail: seq<Table<K, V>>)
    requires Widths(sh, trail)
  {
    forall n: nat, i: nat {:trigger FoundBy(sh, trail, n, i)} :: n < |trail| && i < sh.capacity ==>
      FoundBy(sh, trail, n, i)
  }

  ghost predicate FoundBy<K, V>(sh: Shape<K, V>, trail: seq<Table<K, V>>, n: nat, i: nat)
    requires Widths(sh, trail) && n < |trail| && i < sh.capacity
  {
    trail[n].keys[i] != sh.nullKey ==> exists l: nat :: l <= n && ClearAt(sh, trail, l, trail[n].keys[i], i)
  }

  lemma ReachableGrows<K, V>(sh: Shape<K, V>, trail: seq<Table<K, V>>, t: Table<K, V>, c: nat)
    requires Widths(sh, trail) && Reachable(sh, trail) && trail != [] && c < sh.capacity
    requires |t.keys| == |t.values| == sh.capacity
    requires forall i :: 0 <= i < sh.capacity && i != c ==> t.keys[i] == trail[|trail| - 1].keys[i]
    requires t.keys[c] == sh.nullKey || t.keys[c] == trail[|trail| - 1].keys[c] || Clear(sh, t.keys, c)
    ensures Widths(sh, trail + [t]) && Reachable(sh, trail + [t])
  {
    hide Clear, FoundBy;
    var trail', last := trail + [t], |trail| - 1;
    forall n: nat, i: nat | n < |trail'| && i < sh.capacity ensures FoundBy(sh, trail', n, i) {
      if n < |trail| {
        assert FoundBy(sh, trail, n, i);
        FoundLater(sh, trail, n, [t], n, i);
      } else if t.keys[i] == trail[last].keys[i] {
        assert FoundBy(sh, trail, last, i);
        FoundLater(sh, trail, last, [t], n, i);
      } else {
        FoundNow(sh, trail', n, i);
      }
    }
  }

  lemma FoundLater<K, V>(sh: Shape<K, V>, trail: seq<Table<K, V>>, m: nat, more: seq<Table<K, V>>, n: nat, i: nat)
    requires Widths(sh, trail) && Widths(sh, trail + more) && m <= n < |trail + more| && m < |trail| && i < sh.capacity
    requires FoundBy(sh, trail, m, i) && (trail + more)[n].keys[i] == trail[m].keys[i]
    ensures FoundBy(sh, trail + more, n, i)
  {
    hide Clear;
    if trail[m].keys[i] != sh.nullKey {
      var l: nat :| l <= m && ClearAt(sh, trail, l, trail[m].keys[i], i);
      assert ClearAt(sh, trail + more, l, trail[m].keys[i], i);
    }
  }

  lemma FoundNow<K, V>(sh: Shape<K, V>, trail: seq<Table<K, V>>, n: nat, i: nat)
    requires Widths(sh, trail) && n < |trail| && i < sh.capacity
    requires trail[n].keys[i] != sh.nullKey ==> Clear(sh, trail[n].keys, i)
    ensures FoundBy(sh, trail, n, i)
  {
    if trail[n].keys[i] != sh.nullKey {
      assert ClearAt(sh, trail, n, trail[n].keys[i], i);
    }
  }

  /** A moved key is on a clear walk as soon as it is in the hole. */
  lemma CopiedIsClear<K, V>(sh: Shape<K, V>, t: Table<K, V>, s: nat, at: nat, d: nat, e: nat, m: map<K, V>, load: nat)
    requires Compacting(sh, t, s, at, d, e, m, load)
    requires t.keys[Next(at, sh.capacity)] != sh.nullKey
    requires OnWalk(Home(sh, t.keys[Next(at, sh.capacity)]), d, Next(at, sh.capacity), sh.capacity)
    ensures Clear(sh, t.keys[d := t.keys[Next(at, sh.capacity)]], d)
  {
    var i := Next(at, sh.capacity);
    var home := Home(sh, t.keys[i]);
    CompactingAhead(sh, t, s, at, d, e, m, load);
    forall j: nat | j < sh.capacity && j != d && OnWalk(home, j, d, sh.capacity)
      ensures t.keys[j] != sh.nullKey && t.keys[j] != t.keys[i]
    {
      MovedKeyReachable(sh, t.keys, s, at, d, j);
    }
    assert !OnWalk(home, e, d, sh.capacity);
  }

  lemma NullOutReachable<K, V>(sh: Shape<K, V>, trail: seq<Table<K, V>>, i: nat)
    requires Widths(sh, trail) && Reachable(sh, trail) && trail != [] && i < sh.capacity
    ensures var trail' := trail + NullOutStores(sh, trail[|trail| - 1], i); Widths(sh, trail') && Reachable(sh, trail')
  {
    hide Reachable;
    var t := trail[|trail| - 1];
    var valued := StoreValue(t, i, sh.nullValue);
    ReachableGrows(sh, trail, valued, i);
    ReachableGrows(sh, trail + [valued], StoreKey(valued, i, sh.nullKey), i);
    assert trail + NullOutStores(sh, t, i) == trail + [valued] + [StoreKey(valued, i, sh.nullKey)];
  }

  lemma MoveReachable<K, V>(sh: Shape<K, V>, trail: seq<Table<K, V>>, d: nat, i: nat)
    requires Widths(sh, trail) && Reachable(sh, trail) && trail != [] && d < sh.capacity && i < sh.capacity
    requires Clear(sh, trail[|trail| - 1].keys[d := trail[|trail| - 1].keys[i]], d)
    ensures var trail' := trail + MoveStores(sh, trail[|trail| - 1], d, i); Widths(sh, trail') && Reachable(sh, trail')
  {
    hide Reachable, Clear;
    var t := trail[|trail| - 1];
    var valued := StoreValue(t, d, t.values[i]);
    var copied := StoreKey(valued, d, t.keys[i]);
    ReachableGrows(sh, trail, valued, d);
    ReachableGrows(sh, trail + [valued], copied, d);
    NullOutReachable(sh, trail + [valued] + [copied], i);
    assert trail + MoveStores(sh, t, d, i) == trail + [valued] + [copied] + NullOutStores(sh, copied, i);
  }

  lemma {:induction false} CompactStoresReachable<K, V>(sh: Shape<K, V>, trail: seq<Table<K, V>>, t: Table<K, V>,
                                                        s: nat, at: nat, d: nat, e: nat, m: map<K, V>, load: nat)
    requires Compacting(sh, t, s, at, d, e, m, load)
    requires Widths(sh, trail) && Reachable(sh, trail) && trail != [] && trail[|trail| - 1] == t
    ensures |t.keys| == |t.values| == sh.capacity && s < sh.capacity && at < sh.capacity && d < sh.capacity
    ensures var trail' := trail + CompactStores(sh, t, s, at, d); Widths(sh, trail') && Reachable(sh, trail')
    decreases sh.capacity - Distance(s, at, sh.capacity)
  {
    hide Compacting, Reachable, Clear, Bindings, Moved;
    CompactingIsShaped(sh, t, s, at, d, e, m, load);
    CompactingAhead(sh, t, s, at, d, e, m, load);
    var i := Next(at, sh.capacity);
    if t.keys[i] == sh.nullKey {
      assert trail + [] == trail;
    } else {
      CompactingStep(sh, t, s, at, d, e, m, load);
      if MoveTest(i, Home(sh, t.keys[i]), d) {
        MoveTestIsOnWalk(i, Home(sh, t.keys[i]), d, sh.capacity);
        CopiedIsClear(sh, t, s, at, d, e, m, load);
        MoveReachable(sh, trail, d, i);
        MoveEndsMoved(sh, t, d, i);
        var trail', rest := trail + MoveStores(sh, t, d, i), CompactStores(sh, Moved(sh, t, d, i), s, i, i);
        CompactStoresReachable(sh, trail', Moved(sh, t, d, i), s, i, i, e, m, load);
        assert trail + (MoveStores(sh, t, d, i) + rest) == trail' + rest;
      } else {
        CompactStoresReachable(sh, trail, t, s, i, d, e, m, load);
      }
    }
  }

  // ---- keys that a compaction leaves alone, and keys that it moves ----

  /** A get of key k that looks at this table alone finds null at cell x. */
  ghost predicate Cut<K, V>(sh: Shape<K, V>, keys: seq<K>, k: K, x: nat)
    requires |keys| == sh.capacity && x < sh.capacity
  {
    keys[x] == sh.nullKey && Missed(sh, keys, k, Distance(Home(sh, k), x, sh.capacity))
  }

  /** Cell c has the key on a clear walk, with its value. */
  ghost predicate Intact<K, V>(sh: Shape<K, V>, t: Table<K, V>, c: nat, k: K, v: V)
  {
    && |t.keys| == |t.values| == sh.capacity && c < sh.capacity
    && t.keys[c] == k && t.values[c] == v && Clear(sh, t.keys, c)
  }

  /** An unscanned key whose walk passes over the hole is going to be moved. */
  lemma {:induction false} HoleOnWalkMoves<K, V>(sh: Shape<K, V>, t: Table<K, V>, s: nat, at: nat, d: nat, e: nat,
                                                 m: map<K, V>, load: nat, c: nat)
    requires Compacting(sh, t, s, at, d, e, m, load)
    requires c < sh.capacity && c < |t.keys| && t.keys[c] != sh.nullKey
    requires Distance(s, c, sh.capacity) > Distance(s, at, sh.capacity)
    requires OnWalk(Home(sh, t.keys[c]), d, c, sh.capacity)
    ensures |t.keys| == |t.values| == sh.capacity && s < sh.capacity && at < sh.capacity && d < sh.capacity
    ensures t.keys[c] in MovedKeys(sh, t.keys, s, at, d)
    decreases sh.capacity - Distance(s, at, sh.capacity)
  {
    hide Compacting, Moved, Home;
    CompactingIsShaped(sh, t, s, at, d, e, m, load);
    CompactingAhead(sh, t, s, at, d, e, m, load);
    ChainGoesOn(sh, t, s, at, d, e, m, load, c);
    CompactingStep(sh, t, s, at, d, e, m, load);
    var i := Next(at, sh.capacity);
    MoveTestIsOnWalk(i, Home(sh, t.keys[i]), d, sh.capacity);
    if i != c {
      if MoveTest(i, Home(sh, t.keys[i]), d) {
        MovedElsewhere(sh, t, d, i);
        HoleOnWalkMoves(sh, Moved(sh, t, d, i), s, i, i, e, m, load, c);
        MovedKeysAhead(sh, t.keys, Moved(sh, t, d, i).keys, s, i, i);
      } else {
        HoleOnWalkMoves(sh, t, s, i, d, e, m, load, c);
      }
    }
  }

  lemma MovedElsewhere<K, V>(sh: Shape<K, V>, t: Table<K, V>, d: nat, i: nat)
    requires |t.keys| == |t.values| && d < |t.keys| && i < |t.keys|
    ensures |Moved(sh, t, d, i).keys| == |t.keys| && |Moved(sh, t, d, i).values| == |t.values|
    ensures forall j :: 0 <= j < |t.keys| && j != i && j != d ==>
              Moved(sh, t, d, i).keys[j] == t.keys[j] && Moved(sh, t, d, i).values[j] == t.values[j]
  {
  }

  /** As long as some unscanned key is cut off, the scan is not at the end of the chain. */
  lemma ChainGoesOn<K, V>(sh: Shape<K, V>, t: Table<K, V>, s: nat, at: nat, d: nat, e: nat, m: map<K, V>, load: nat,
                          c: nat)
    requires Compacting(sh, t, s, at, d, e, m, load)
    requires c < sh.capacity && c < |t.keys| && t.keys[c] != sh.nullKey
    requires OnWalk(Home(sh, t.keys[c]), d, c, sh.capacity)
    ensures t.keys[Next(at, sh.capacity)] != sh.nullKey
  {
    CompactingAhead(sh, t, s, at, d, e, m, load);
    if t.keys[Next(at, sh.capacity)] == sh.nullKey {
      CloseHole(sh, t.keys, s, at, d);
    }
  }

  /** An unscanned key whose walk passes over the next hole is going to be moved too. */
  lemma NextHoleMoves<K, V>(sh: Shape<K, V>, t: Table<K, V>, s: nat, at: nat, d: nat, e: nat, m: map<K, V>, load: nat,
                            c: nat)
    requires Compacting(sh, t, s, at, d, e, m, load)
    requires |t.keys| == |t.values| == sh.capacity && s < sh.capacity && at < sh.capacity && d < sh.capacity
    requires c < sh.capacity && t.keys[c] != sh.nullKey && t.keys[Next(at, sh.capacity)] != sh.nullKey
    requires MoveTest(Next(at, sh.capacity), Home(sh, t.keys[Next(at, sh.capacity)]), d)
    requires Distance(s, c, sh.capacity) > Distance(s, Next(at, sh.capacity), sh.capacity)
    requires OnWalk(Home(sh, t.keys[c]), Next(at, sh.capacity), c, sh.capacity)
    ensures t.keys[c] in MovedKeys(sh, t.keys, s, at, d)
  {
    hide Compacting, Moved, Home;
    var i := Next(at, sh.capacity);
    CompactingAhead(sh, t, s, at, d, e, m, load);
    CompactingStep(sh, t, s, at, d, e, m, load);
    MovedElsewhere(sh, t, d, i);
    HoleOnWalkMoves(sh, Moved(sh, t, d, i), s, i, i, e, m, load, c);
    MovedKeysAhead(sh, t.keys, Moved(sh, t, d, i).keys, s, i, i);
  }

  /** The walk of a key that has been scanned and kept does not get as far as the next cell. */
  lemma ScannedWalkIsBehind<K, V>(sh: Shape<K, V>, keys: seq<K>, s: nat, at: nat, e: nat, c: nat)
    requires |keys| == sh.capacity && s < sh.capacity && at < sh.capacity && e < sh.capacity && c < sh.capacity
    requires keys[e] == sh.nullKey && keys[Next(at, sh.capacity)] != sh.nullKey && Next(at, sh.capacity) != s
    requires Distance(s, at, sh.capacity) < Distance(s, e, sh.capacity)
    requires Clear(sh, keys, c) && Distance(s, c, sh.capacity) <= Distance(s, at, sh.capacity)
    ensures !OnWalk(Home(sh, keys[c]), Next(at, sh.capacity), c, sh.capacity)
  {
    hide Home;
    assert !OnWalk(Home(sh, keys[c]), e, c, sh.capacity);
  }

  /** The next hole is not on the walk of a key that is not going to be moved. */
  lemma NextHoleOffWalk<K, V>(sh: Shape<K, V>, t: Table<K, V>, s: nat, at: nat, d: nat, e: nat, m: map<K, V>,
                              load: nat, c: nat)
    requires Compacting(sh, t, s, at, d, e, m, load)
    requires |t.keys| == |t.values| == sh.capacity && s < sh.capacity && at < sh.capacity && d < sh.capacity
    requires c < sh.capacity && Clear(sh, t.keys, c) && t.keys[Next(at, sh.capacity)] != sh.nullKey
    requires Distance(s, c, sh.capacity) > Distance(s, at, sh.capacity) ==>
               t.keys[c] !in MovedKeys(sh, t.keys, s, at, d)
    requires MoveTest(Next(at, sh.capacity), Home(sh, t.keys[Next(at, sh.capacity)]), d)
    ensures !OnWalk(Home(sh, t.keys[c]), Next(at, sh.capacity), c, sh.capacity)
  {
    hide Compacting, Home;
    var i := Next(at, sh.capacity);
    CompactingIsShaped(sh, t, s, at, d, e, m, load);
    CompactingAhead(sh, t, s, at, d, e, m, load);
    if Distance(s, c, sh.capacity) <= Distance(s, at, sh.capacity) {
      ScannedWalkIsBehind(sh, t.keys, s, at, e, c);
    } else if OnWalk(Home(sh, t.keys[c]), i, c, sh.capacity) {
      if c != i {
        NextHoleMoves(sh, t, s, at, d, e, m, load, c);
      }
    }
  }

  lemma IntactStays<K, V>(sh: Shape<K, V>, t: Table<K, V>, u: Table<K, V>, x: nat, c: nat, k: K, v: V)
    requires Intact(sh, t, c, k, v) && |u.keys| == |u.values| == sh.capacity && x < sh.capacity
    requires forall j :: 0 <= j < sh.capacity && j != x ==> u.keys[j] == t.keys[j] && u.values[j] == t.values[j]
    requires !OnWalk(Home(sh, k), x, c, sh.capacity)
    ensures Intact(sh, u, c, k, v)
  {
  }

  lemma MoveIntact<K, V>(sh: Shape<K, V>, t: Table<K, V>, d: nat, i: nat, c: nat, k: K, v: V)
    requires Intact(sh, t, c, k, v) && |t.keys| == |t.values| && d < |t.keys| && i < |t.keys|
    requires !OnWalk(Home(sh, k), d, c, sh.capacity) && !OnWalk(Home(sh, k), i, c, sh.capacity)
    ensures forall n :: 0 <= n < 4 ==> Intact(sh, MoveStores(sh, t, d, i)[n], c, k, v)
  {
    hide Intact;
    IntactIsShaped(sh, t, c, k, v);
    var valued := StoreValue(t, d, t.values[i]);
    var copied := StoreKey(valued, d, t.keys[i]);
    var unvalued := StoreValue(copied, i, sh.nullValue);
    IntactStays(sh, t, valued, d, c, k, v);
    IntactStays(sh, valued, copied, d, c, k, v);
    IntactStays(sh, copied, unvalued, i, c, k, v);
    IntactStays(sh, unvalued, StoreKey(unvalued, i, sh.nullKey), i, c, k, v);
  }

  lemma IntactIsShaped<K, V>(sh: Shape<K, V>, t: Table<K, V>, c: nat, k: K, v: V)
    requires Intact(sh, t, c, k, v)
    ensures |t.keys| == |t.values| == sh.capacity && c < sh.capacity && t.keys[c] == k && Clear(sh, t.keys, c)
  {
  }

  /** A key that the compaction does not move can be found in every table it passes through. */
  lemma {:induction false} UnmovedStays<K, V>(sh: Shape<K, V>, t: Table<K, V>, s: nat, at: nat, d: nat, e: nat,
                                              m: map<K, V>, load: nat, c: nat, k: K, v: V)
    requires Compacting(sh, t, s, at, d, e, m, load) && Intact(sh, t, c, k, v)
    requires |t.keys| == |t.values| == sh.capacity && s < sh.capacity && at < sh.capacity && d < sh.capacity
    requires Distance(s, c, sh.capacity) > Distance(s, at, sh.capacity) ==> k !in MovedKeys(sh, t.keys, s, at, d)
    ensures forall n :: 0 <= n < |CompactStores(sh, t, s, at, d)| ==>
              Intact(sh, CompactStores(sh, t, s, at, d)[n], c, k, v)
    decreases sh.capacity - Distance(s, at, sh.capacity)
  {
    hide Compacting, Moved, Intact, Clear;
    CompactingIsShaped(sh, t, s, at, d, e, m, load);
    CompactingAhead(sh, t, s, at, d, e, m, load);
    IntactIsShaped(sh, t, c, k, v);
    var i := Next(at, sh.capacity);
    if t.keys[i] != sh.nullKey {
      CompactingStep(sh, t, s, at, d, e, m, load);
      if MoveTest(i, Home(sh, t.keys[i]), d) {
        NextHoleOffWalk(sh, t, s, at, d, e, m, load, c);
        ClearOffWalk(sh, t.keys, c, d);
        MoveIntact(sh, t, d, i, c, k, v);
        MoveEndsMoved(sh, t, d, i);
        MovedElsewhere(sh, t, d, i);
        MovedKeysAhead(sh, t.keys, Moved(sh, t, d, i).keys, s, i, i);
        UnmovedStays(sh, Moved(sh, t, d, i), s, i, i, e, m, load, c, k, v);
      } else {
        UnmovedStays(sh, t, s, i, d, e, m, load, c, k, v);
      }
    }
  }

  lemma ClearOffWalk<K, V>(sh: Shape<K, V>, keys: seq<K>, c: nat, d: nat)
    requires |keys| == sh.capacity && c < sh.capacity && d < sh.capacity && Clear(sh, keys, c) && keys[d] == sh.nullKey
    ensures !OnWalk(Home(sh, keys[c]), d, c, sh.capacity)
  {
  }

  ghost predicate CutIn<K, V>(sh: Shape<K, V>, tables: seq<Table<K, V>>, k: K, n: nat, x: nat)
  {
    n < |tables| && |tables[n].keys| == sh.capacity && x < sh.capacity && Cut(sh, tables[n].keys, k, x)
  }

  /** A key that the compaction moves cannot be found in one of the tables it passes through. */
  lemma {:induction false} MovedIsCut<K, V>(sh: Shape<K, V>, t: Table<K, V>, s: nat, at: nat, d: nat, e: nat,
                                            m: map<K, V>, load: nat, k: K)
    returns (n: nat, x: nat)
    requires Compacting(sh, t, s, at, d, e, m, load)
    requires |t.keys| == |t.values| == sh.capacity && s < sh.capacity && at < sh.capacity && d < sh.capacity
    requires k in MovedKeys(sh, t.keys, s, at, d)
    ensures CutIn(sh, [t] + CompactStores(sh, t, s, at, d), k, n, x)
    decreases sh.capacity - Distance(s, at, sh.capacity)
  {
    hide Compacting, Moved, Cut;
    CompactingAhead(sh, t, s, at, d, e, m, load);
    CompactingStep(sh, t, s, at, d, e, m, load);
    var i := Next(at, sh.capacity);
    if MoveTest(i, Home(sh, t.keys[i]), d) {
      if k == t.keys[i] {
        n, x := 0, d;
        MovingIsCut(sh, t, s, at, d, e, m, load);
      } else {
        MovedElsewhere(sh, t, d, i);
        MovedKeysAhead(sh, t.keys, Moved(sh, t, d, i).keys, s, i, i);
        MoveEndsMoved(sh, t, d, i);
        n, x := MovedIsCut(sh, Moved(sh, t, d, i), s, i, i, e, m, load, k);
        n := n + 4;
      }
    } else {
      n, x := MovedIsCut(sh, t, s, i, d, e, m, load, k);
    }
  }

  lemma MovingIsCut<K, V>(sh: Shape<K, V>, t: Table<K, V>, s: nat, at: nat, d: nat, e: nat, m: map<K, V>, load: nat)
    requires Compacting(sh, t, s, at, d, e, m, load) && t.keys[Next(at, sh.capacity)] != sh.nullKey
    requires MoveTest(Next(at, sh.capacity), Home(sh, t.keys[Next(at, sh.capacity)]), d)
    ensures |t.keys| == sh.capacity && d < sh.capacity && Cut(sh, t.keys, t.keys[Next(at, sh.capacity)], d)
  {
    var i := Next(at, sh.capacity);
    CompactingAhead(sh, t, s, at, d, e, m, load);
    MoveTestIsOnWalk(i, Home(sh, t.keys[i]), d, sh.capacity);
    forall j: nat | j < sh.capacity && Distance(Home(sh, t.keys[i]), j, sh.capacity)
                                       < Distance(Home(sh, t.keys[i]), d, sh.capacity)
      ensures t.keys[j] != t.keys[i] && t.keys[j] != sh.nullKey
    {
      MovedKeyReachable(sh, t.keys, s, at, d, j);
    }
  }

  /** Nulling the cell of a bound key starts a compaction of the map without that key. */
  lemma OpenedTable<K, V>(sh: Shape<K, V>, t: Table<K, V>, s: nat) returns (e: nat)
    requires Searchable(sh, t) && s < sh.capacity && t.keys[s] != sh.nullKey
    ensures t.keys[s] in Bindings(sh, t) && Load(t.keys, sh.nullKey) > 0
    ensures Compacting(sh, NullOutStores(sh, t, s)[1], s, s, s, e,
                       Bindings(sh, t) - {t.keys[s]}, Load(t.keys, sh.nullKey) - 1)
    ensures Trailing(sh, [t] + NullOutStores(sh, t, s), Bindings(sh, t), s, s)
  {
    e :| 0 <= e < |t.keys| && t.keys[e] == sh.nullKey;
    BoundAt(sh, t, s);
    StartTrail(sh, t, s);
    TrailNullOut(sh, [t], Bindings(sh, t), s, s, s);
    OpenHole(sh, t.keys, s);
    NullOutRemoves(sh, t, s);
    LoadUpdate(t.keys, sh.nullKey, s, sh.nullKey);
  }

  /** The stores of a successful assign: the key first if it is new, then the value. */
  function AssignStores<K(==), V>(sh: Shape<K, V>, t: Table<K, V>, i: nat, key: K, value: V): seq<Table<K, V>>
    requires i < |t.keys| && i < |t.values|
  {
    (if t.keys[i] == key then [] else [StoreKey(t, i, key)]) + [StoreValue(StoreKey(t, i, key), i, value)]
  }

  /** A probe for the key stopped at cell i after n misses, and the stores were made. */
  lemma Assigned<K, V>(sh: Shape<K, V>, t: Table<K, V>, i: nat, key: K, value: V, n: nat)
    requires |t.keys| == |t.values| == sh.capacity > 0 && i < sh.capacity && key != sh.nullKey
    requires Searchable(sh, t) && (t.keys[i] == key || t.keys[i] == sh.nullKey)
    requires Load(t.keys, sh.nullKey) + 1 < sh.capacity
    requires Distance(Home(sh, key), i, sh.capacity) == n && Missed(sh, t.keys, key, n)
    ensures var done := StoreValue(StoreKey(t, i, key), i, value);
      && Searchable(sh, done)
      && Bindings(sh, done) == Bindings(sh, t)[key := value]
      && Load(done.keys, sh.nullKey) == Load(t.keys, sh.nullKey) + (if t.keys[i] == key then 0 else 1)
    ensures AssignTrail(sh, [t] + AssignStores(sh, t, i, key, value), Bindings(sh, t), key, value)
  {
    hide Searchable, Missed, Bindings, AssignTrail, Load, Home;
    var before, taken := Bindings(sh, t), StoreKey(t, i, key);
    var done := StoreValue(taken, i, value);
    AssignTrailStarts(sh, t, key, value);
    if t.keys[i] == key {
      assert taken == t;
      ValueStored(sh, t, i, value);
      AssignTrailGrows(sh, [t], t.keys, i, done, before, key, value);
      assert [t] + AssignStores(sh, t, i, key, value) == [t] + [done];
    } else {
      MissedMeansAbsent(sh, t, key, n);
      KeyTaken(sh, t, i, key);
      ValueStored(sh, taken, i, value);
      AssignTrailGrows(sh, [t], t.keys, i, taken, before, key, value);
      AssignTrailGrows(sh, [t] + [taken], taken.keys, i, done, before, key, value);
      assert [t] + AssignStores(sh, t, i, key, value) == [t] + [taken] + [done];
    }
  }

  /** A new key in the null cell where its probe stopped. */
  lemma KeyTaken<K, V>(sh: Shape<K, V>, t: Table<K, V>, i: nat, key: K)
    requires Searchable(sh, t) && sh.capacity > 0 && i < sh.capacity && key != sh.nullKey
    requires key !in t.keys && t.keys[i] == sh.nullKey
    requires Load(t.keys, sh.nullKey) + 1 < sh.capacity
    requires Missed(sh, t.keys, key, Distance(Home(sh, key), i, sh.capacity))
    ensures Searchable(sh, StoreKey(t, i, key))
    ensures Load(t.keys[i := key], sh.nullKey) == Load(t.keys, sh.nullKey) + 1
    ensures Bindings(sh, StoreKey(t, i, key)) == Bindings(sh, t)[key := sh.nullValue]
  {
    Inserted(sh, t.keys, i, key);
    LoadUpdate(t.keys, sh.nullKey, i, key);
    var e := SpareCell(t.keys[i := key], sh.nullKey);
    SameBindingsButOne(sh, t, StoreKey(t, i, key), i);
  }

  /** A value in the cell of its key. */
  lemma ValueStored<K, V>(sh: Shape<K, V>, t: Table<K, V>, i: nat, value: V)
    requires Searchable(sh, t) && i < sh.capacity && t.keys[i] != sh.nullKey
    ensures Searchable(sh, StoreValue(t, i, value))
    ensures Bindings(sh, StoreValue(t, i, value)) == Bindings(sh, t)[t.keys[i] := value]
  {
    SameBindingsButOne(sh, t, StoreValue(t, i, value), i);
  }

  // ---- an erase as a function of the table it starts from ----

  function EraseTables<K(==), V>(sh: Shape<K, V>, t: Table<K, V>, key: K): (tables: seq<Table<K, V>>)
    requires |t.keys| == |t.values| == sh.capacity
    ensures tables != [] && tables[0] == t
  {
    if key == sh.nullKey || key !in t.keys then [t]
    else
      var s := IndexOf(t.keys, key);
      var emptied := NullOutStores(sh, t, s);
      [t] + emptied + CompactStores(sh, emptied[1], s, s, s)
  }

  /** The keys that an erase of the key moves, read off the keys of the table before it. */
  function MovedByErase<K(==), V>(sh: Shape<K, V>, keys: seq<K>, key: K): set<K>
    requires |keys| == sh.capacity
  {
    if key == sh.nullKey || key !in keys then {}
    else MovedKeys(sh, keys, IndexOf(keys, key), IndexOf(keys, key), IndexOf(keys, key))
  }

  /** An erase leaves an erase trail that ends in a good table without the key. */
  lemma EraseTablesAreTrail<K, V>(sh: Shape<K, V>, t: Table<K, V>, key: K)
    requires Searchable(sh, t)
    ensures var tables := EraseTables(sh, t, key);
            var u := tables[|tables| - 1];
            && EraseTrail(sh, tables, Bindings(sh, t)) && Widths(sh, tables) && Reachable(sh, tables)
            && Searchable(sh, u) && Bindings(sh, u) == Bindings(sh, t) - {key}
            && Load(u.keys, sh.nullKey) <= Load(t.keys, sh.nullKey)
  {
    hide Searchable, Compacting, Trailing, EraseTrail, Bindings, Load, Reachable, CompactStores;
    SearchableIsReachable(sh, t);
    if key == sh.nullKey || key !in t.keys {
      StartTrail(sh, t, 0);
      TrailingIsEraseTrail(sh, [t], Bindings(sh, t), 0, 0);
      UnboundKey(sh, t, key);
    } else {
      var s := IndexOf(t.keys, key);
      var e := OpenedTable(sh, t, s);
      var hollow, m, load := NullOutStores(sh, t, s)[1], Bindings(sh, t) - {key}, Load(t.keys, sh.nullKey) - 1;
      var trail := [t] + NullOutStores(sh, t, s);
      CompactStoresTrail(sh, trail, Bindings(sh, t), hollow, s, s, s, e, m, load);
      NullOutReachable(sh, [t], s);
      CompactStoresReachable(sh, trail, hollow, s, s, s, e, m, load);
      CompactStoresDone(sh, hollow, s, s, s, e, m, load);
      LastOfBoth([t] + NullOutStores(sh, t, s)[..1], hollow, CompactStores(sh, hollow, s, s, s));
      assert trail == [t] + NullOutStores(sh, t, s)[..1] + [hollow];
    }
  }

  lemma LastOfBoth<T>(a: seq<T>, x: T, b: seq<T>)
    ensures var whole, part := a + [x] + b, [x] + b; whole[|whole| - 1] == part[|part| - 1]
  {
  }

  lemma UnboundKey<K, V>(sh: Shape<K, V>, t: Table<K, V>, key: K)
    requires |t.keys| == |t.values| && (key == sh.nullKey || key !in t.keys)
    ensures Bindings(sh, t) - {key} == Bindings(sh, t)
  {
  }

  lemma SearchableFinds<K, V>(sh: Shape<K, V>, trail: seq<Table<K, V>>, n: nat, i: nat)
    requires Widths(sh, trail) && n < |trail| && i < sh.capacity && Searchable(sh, trail[n])
    ensures FoundBy(sh, trail, n, i)
  {
    if trail[n].keys[i] != sh.nullKey {
      SearchableIsClear(sh, trail[n], i);
    }
    FoundNow(sh, trail, n, i);
  }

  lemma SearchableIsReachable<K, V>(sh: Shape<K, V>, t: Table<K, V>)
    requires Searchable(sh, t)
    ensures |t.keys| == |t.values| == sh.capacity > 0 && Widths(sh, [t]) && Reachable(sh, [t])
  {
    var trail := [t];
    forall n: nat, i: nat | n < |trail| && i < sh.capacity ensures FoundBy(sh, trail, n, i) {
      SearchableFinds(sh, trail, n, i);
    }
  }

  lemma SearchableIsShaped<K, V>(sh: Shape<K, V>, t: Table<K, V>)
    requires Searchable(sh, t)
    ensures |t.keys| == |t.values| == sh.capacity > 0
  {
  }

  lemma IntactInSearchable<K, V>(sh: Shape<K, V>, t: Table<K, V>, c: nat)
    requires Searchable(sh, t) && c < sh.capacity && t.keys[c] != sh.nullKey
    ensures Intact(sh, t, c, t.keys[c], t.values[c])
  {
    SearchableIsClear(sh, t, c);
  }

  lemma IndexInSearchable<K, V>(sh: Shape<K, V>, t: Table<K, V>, i: nat)
    requires Searchable(sh, t) && i < sh.capacity && t.keys[i] != sh.nullKey
    ensures t.keys[i] in t.keys && IndexOf(t.keys, t.keys[i]) == i
  {
  }

  /** A bound key that an erase neither removes nor moves can be found in every table. */
  lemma EraseKeepsUnmoved<K, V>(sh: Shape<K, V>, t: Table<K, V>, key: K, c: nat)
    requires Searchable(sh, t) && c < sh.capacity && t.keys[c] != sh.nullKey && t.keys[c] != key
    requires t.keys[c] !in MovedByErase(sh, t.keys, key)
    ensures forall n :: 0 <= n < |EraseTables(sh, t, key)| ==>
              Intact(sh, EraseTables(sh, t, key)[n], c, t.keys[c], t.values[c])
  {
    hide Compacting, Trailing, EraseTrail, Bindings, Load, CompactStores, MovedKeys, Intact, Searchable, Home;
    SearchableIsShaped(sh, t);
    IntactInSearchable(sh, t, c);
    var k, v := t.keys[c], t.values[c];
    if key != sh.nullKey && key in t.keys {
      var s := IndexOf(t.keys, key);
      var e := OpenedTable(sh, t, s);
      var hollow, m, load := NullOutStores(sh, t, s)[1], Bindings(sh, t) - {key}, Load(t.keys, sh.nullKey) - 1;
      MovedKeysAhead(sh, t.keys, hollow.keys, s, s, s);
      if OnWalk(Home(sh, k), s, c, sh.capacity) {
        HoleOnWalkMoves(sh, hollow, s, s, s, e, m, load, c);
      }
      var unvalued := StoreValue(t, s, sh.nullValue);
      IntactStays(sh, t, unvalued, s, c, k, v);
      IntactStays(sh, unvalued, hollow, s, c, k, v);
      UnmovedStays(sh, hollow, s, s, s, e, m, load, c, k, v);
    }
  }

  /** A key that an erase moves cannot be found in one of its tables. */
  lemma EraseCutsMoved<K, V>(sh: Shape<K, V>, t: Table<K, V>, key: K, k: K) returns (n: nat, x: nat)
    requires Searchable(sh, t) && k in MovedByErase(sh, t.keys, key)
    ensures CutIn(sh, EraseTables(sh, t, key), k, n, x)
  {
    hide Compacting, Trailing, EraseTrail, Bindings, Load, CompactStores, MovedKeys, CutIn, Searchable;
    SearchableIsShaped(sh, t);
    var s := IndexOf(t.keys, key);
    var e := OpenedTable(sh, t, s);
    var hollow, m, load := NullOutStores(sh, t, s)[1], Bindings(sh, t) - {key}, Load(t.keys, sh.nullKey) - 1;
    MovedKeysAhead(sh, t.keys, hollow.keys, s, s, s);
    n, x := MovedIsCut(sh, hollow, s, s, s, e, m, load, k);
    var rest, first := CompactStores(sh, hollow, s, s, s), [t, NullOutStores(sh, t, s)[0]];
    assert EraseTables(sh, t, key) == first + ([hollow] + rest);
    CutLater(sh, first, [hollow] + rest, k, n, x);
    n := n + 2;
  }

  lemma CutLater<K, V>(sh: Shape<K, V>, first: seq<Table<K, V>>, tables: seq<Table<K, V>>, k: K, n: nat, x: nat)
    requires CutIn(sh, tables, k, n, x)
    ensures CutIn(sh, first + tables, k, |first| + n, x)
  {
  }

  // ---- an assign as a function of the table it starts from ----

  /** The cell where a probe stops that stands at cell idx, after it has passed n cells. */
  function StopCell<K(==), V>(sh: Shape<K, V>, keys: seq<K>, key: K, idx: nat, n: nat): (i: nat)
    requires |keys| == sh.capacity && idx < sh.capacity
    ensures i < sh.capacity
    decreases sh.capacity - n
  {
    if keys[idx] == key || keys[idx] == sh.nullKey || n + 1 >= sh.capacity then idx
    else StopCell(sh, keys, key, Next(idx, sh.capacity), n + 1)
  }

  lemma StopCellStep<K, V>(sh: Shape<K, V>, keys: seq<K>, key: K, idx: nat, n: nat)
    requires |keys| == sh.capacity && idx < sh.capacity
    ensures StopCell(sh, keys, key, idx, n)
         == if keys[idx] == key || keys[idx] == sh.nullKey || n + 1 >= sh.capacity then idx
            else StopCell(sh, keys, key, Next(idx, sh.capacity), n + 1)
  {
  }

  function AssignTables<K(==), V(==)>(sh: Shape<K, V>, maxLoad: nat, t: Table<K, V>, key: K, value: V)
    : (tables: seq<Table<K, V>>)
    requires |t.keys| == |t.values| == sh.capacity > 0
    ensures tables != [] && tables[0] == t
  {
    if key == sh.nullKey || value == sh.nullValue || Load(t.keys, sh.nullKey) >= maxLoad then [t]
    else [t] + AssignStores(sh, t, StopCell(sh, t.keys, key, Home(sh, key), 0), key, value)
  }

  lemma {:induction false} ProbeStops<K, V>(sh: Shape<K, V>, keys: seq<K>, key: K, idx: nat, n: nat)
    requires |keys| == sh.capacity > 0 && key != sh.nullKey && idx < sh.capacity
    requires Load(keys, sh.nullKey) + 1 < sh.capacity
    requires Missed(sh, keys, key, n) && Distance(Home(sh, key), idx, sh.capacity) == n
    ensures var i := StopCell(sh, keys, key, idx, n);
            (keys[i] == key || keys[i] == sh.nullKey) && Missed(sh, keys, key, Distance(Home(sh, key), i, sh.capacity))
    decreases sh.capacity - n
  {
    hide Missed, Load, Home;
    GuardNotReached(sh, keys, key);
    if keys[idx] != key && keys[idx] != sh.nullKey {
      MissedOneMore(sh, keys, key, n, idx);
      if n + 1 < sh.capacity {
        ProbeStops(sh, keys, key, Next(idx, sh.capacity), n + 1);
      }
    }
  }

  /** An assign leaves an assign trail that ends in a good table with the new binding, if it succeeds. */
  lemma AssignTablesAreTrail<K, V>(sh: Shape<K, V>, maxLoad: nat, t: Table<K, V>, key: K, value: V)
    requires Searchable(sh, t) && Load(t.keys, sh.nullKey) <= maxLoad < sh.capacity
    ensures var tables := AssignTables(sh, maxLoad, t, key, value);
            var u, before := tables[|tables| - 1], Bindings(sh, t);
            && AssignTrail(sh, tables, before, key, value) && Widths(sh, tables)
            && Searchable(sh, u) && Load(u.keys, sh.nullKey) <= maxLoad
            && Bindings(sh, u) == (if key == sh.nullKey || value == sh.nullValue || Load(t.keys, sh.nullKey) >= maxLoad
                                   then before else before[key := value])
            && (|tables| > 1 ==>
                  Load(u.keys, sh.nullKey) == Load(t.keys, sh.nullKey)
                    + if t.keys[StopCell(sh, t.keys, key, Home(sh, key), 0)] == key then 0 else 1)
  {
    hide Searchable, Load, Bindings, AssignTrail, Missed, Home, StopCell, AssignStores, Widths;
    SearchableIsShaped(sh, t);
    AssignTrailStarts(sh, t, key, value);
    if key != sh.nullKey && value != sh.nullValue && Load(t.keys, sh.nullKey) < maxLoad {
      MissedNothing(sh, t.keys, key);
      ProbeStops(sh, t.keys, key, Home(sh, key), 0);
      var i := StopCell(sh, t.keys, key, Home(sh, key), 0);
      Assigned(sh, t, i, key, value, Distance(Home(sh, key), i, sh.capacity));
      AssignStoresEnd(sh, t, i, key, value);
    }
    AssignTrailIsWide(sh, AssignTables(sh, maxLoad, t, key, value), Bindings(sh, t), key, value);
  }

  lemma AssignStoresAre<K, V>(sh: Shape<K, V>, t: Table<K, V>, i: nat, key: K, value: V)
    requires i < |t.keys| && i < |t.values|
    ensures AssignStores(sh, t, i, key, value)
         == (if t.keys[i] == key then [] else [StoreKey(t, i, key)]) + [StoreValue(StoreKey(t, i, key), i, value)]
  {
  }

  lemma FewerValues<K, V>(sh: Shape<K, V>, m: map<K, V>, key: K)
    requires NoNullValues(sh, m)
    ensures NoNullValues(sh, m - {key})
  {
  }

  lemma MoreValues<K, V>(sh: Shape<K, V>, m: map<K, V>, key: K, value: V)
    requires NoNullValues(sh, m) && value != sh.nullValue
    ensures NoNullValues(sh, m[key := value])
  {
  }

  lemma AssignStoresEnd<K, V>(sh: Shape<K, V>, t: Table<K, V>, i: nat, key: K, value: V)
    requires i < |t.keys| && i < |t.values|
    ensures var stores := AssignStores(sh, t, i, key, value);
            stores != [] && stores[|stores| - 1] == StoreValue(StoreKey(t, i, key), i, value)
  {
  }

  lemma AssignTrailIsWide<K, V>(sh: Shape<K, V>, trail: seq<Table<K, V>>, before: map<K, V>, key: K, value: V)
    requires AssignTrail(sh, trail, before, key, value)
    ensures Widths(sh, trail)
  {
  }
}
