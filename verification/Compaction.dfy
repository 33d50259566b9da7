/** Backward compaction after an erase, and the tables it passes through.

    The hole left by an erased key travels along the chain: a later key whose walk
    passes over the hole is moved into it and leaves a new hole behind.
  */
module Compaction {
  import opened ProbingTable
  import opened Stores

  /** The test the source makes before it moves a key from index back to deleteIndex. */
  predicate MoveTest(index: nat, hash: nat, deleteIndex: nat)
  {
    || (index < hash && (hash <= deleteIndex || deleteIndex <= index))
    || (hash <= deleteIndex && deleteIndex <= index)
  }

  /** The test says exactly that the hole lies on the cyclic walk from the key's home to its cell. */
  lemma MoveTestIsOnWalk(index: nat, hash: nat, deleteIndex: nat, capacity: nat)
    requires index < capacity && hash < capacity && deleteIndex < capacity
    ensures MoveTest(index, hash, deleteIndex) <==> OnWalk(hash, deleteIndex, index, capacity)
  {
  }

  /** Compaction started at cell s and has scanned up to cell at; the hole is d, and the only
      keys whose walk meets a null cell are unscanned keys that meet the hole. */
  ghost predicate Hole<K, V>(sh: Shape<K, V>, keys: seq<K>, s: nat, at: nat, d: nat)
    requires |keys| == sh.capacity > 0
  {
    && s < sh.capacity && at < sh.capacity && d < sh.capacity
    && keys[d] == sh.nullKey
    && Distance(s, d, sh.capacity) <= Distance(s, at, sh.capacity)
    && forall i: nat, j: nat ::
         i < |keys| && j < |keys| && keys[i] != sh.nullKey && keys[j] == sh.nullKey
         && OnWalk(Home(sh, keys[i]), j, i, sh.capacity)
         ==> j == d && Distance(s, i, sh.capacity) > Distance(s, at, sh.capacity)
  }

  /** Nulling a key of a good table opens a hole in its cell. */
  lemma OpenHole<K, V>(sh: Shape<K, V>, keys: seq<K>, s: nat)
    requires |keys| == sh.capacity > 0 && s < sh.capacity
    requires Unique(sh, keys) && Probed(sh, keys) && keys[s] != sh.nullKey
    ensures Unique(sh, keys[s := sh.nullKey])
    ensures Hole(sh, keys[s := sh.nullKey], s, s, s)
  {
  }

  lemma KeepKey<K, V>(sh: Shape<K, V>, keys: seq<K>, s: nat, at: nat, d: nat)
    requires |keys| == sh.capacity > 0 && Hole(sh, keys, s, at, d)
    requires Next(at, sh.capacity) != s && keys[Next(at, sh.capacity)] != sh.nullKey
    requires !OnWalk(Home(sh, keys[Next(at, sh.capacity)]), d, Next(at, sh.capacity), sh.capacity)
    ensures Hole(sh, keys, s, Next(at, sh.capacity), d)
  {
  }

  /** After a move, keys other than the moved one meet no null cell, or they are unscanned and meet the new hole. */
  lemma OtherKeyAfterMove<K, V>(sh: Shape<K, V>, keys: seq<K>, s: nat, at: nat, d: nat, e: nat, i: nat, j: nat)
    requires |keys| == sh.capacity > 0 && Hole(sh, keys, s, at, d)
    requires e < sh.capacity && keys[e] == sh.nullKey
    requires Distance(s, at, sh.capacity) < Distance(s, e, sh.capacity)
    requires keys[Next(at, sh.capacity)] != sh.nullKey
    requires i < |keys| && j < |keys| && i != d && i != Next(at, sh.capacity) && keys[i] != sh.nullKey
    requires j == Next(at, sh.capacity) || (j != d && keys[j] == sh.nullKey)
    requires OnWalk(Home(sh, keys[i]), j, i, sh.capacity)
    ensures j == Next(at, sh.capacity) && Distance(s, i, sh.capacity) > Distance(s, j, sh.capacity)
  {
    hide Home;
    var home := Home(sh, keys[i]);
    assert OnWalk(home, e, i, sh.capacity) ==> e == d;
    assert keys[j] == sh.nullKey ==> j == d;
  }

  /** The moved key meets no null cell on its way from home to the old hole. */
  lemma MovedKeyReachable<K, V>(sh: Shape<K, V>, keys: seq<K>, s: nat, at: nat, d: nat, j: nat)
    requires |keys| == sh.capacity > 0 && Hole(sh, keys, s, at, d)
    requires Next(at, sh.capacity) != s && keys[Next(at, sh.capacity)] != sh.nullKey
    requires OnWalk(Home(sh, keys[Next(at, sh.capacity)]), d, Next(at, sh.capacity), sh.capacity)
    requires j < |keys| && OnWalk(Home(sh, keys[Next(at, sh.capacity)]), j, d, sh.capacity)
    ensures j == d || (j != Next(at, sh.capacity) && keys[j] != sh.nullKey)
  {
    hide Home;
    assert OnWalk(Home(sh, keys[Next(at, sh.capacity)]), j, Next(at, sh.capacity), sh.capacity);
  }

  lemma MoveKey<K, V>(sh: Shape<K, V>, keys: seq<K>, s: nat, at: nat, d: nat, e: nat)
    requires |keys| == sh.capacity > 0 && Hole(sh, keys, s, at, d)
    requires e < sh.capacity && keys[e] == sh.nullKey
    requires Distance(s, at, sh.capacity) < Distance(s, e, sh.capacity)
    requires keys[Next(at, sh.capacity)] != sh.nullKey
    requires OnWalk(Home(sh, keys[Next(at, sh.capacity)]), d, Next(at, sh.capacity), sh.capacity)
    ensures Hole(sh, keys[d := keys[Next(at, sh.capacity)]][Next(at, sh.capacity) := sh.nullKey],
                 s, Next(at, sh.capacity), Next(at, sh.capacity))
  {
    hide Home;
    var next := Next(at, sh.capacity);
    var keys' := keys[d := keys[next]][next := sh.nullKey];
    assert next != s;
    forall i: nat, j: nat |
      i < |keys'| && j < |keys'| && keys'[i] != sh.nullKey && keys'[j] == sh.nullKey
      && OnWalk(Home(sh, keys'[i]), j, i, sh.capacity)
      ensures j == next && Distance(s, i, sh.capacity) > Distance(s, next, sh.capacity)
    {
      if i == d {
        MovedKeyReachable(sh, keys, s, at, d, j);
      } else {
        OtherKeyAfterMove(sh, keys, s, at, d, e, i, j);
      }
    }
  }

  /** A null cell right after the scanned part ends the chain: nothing is cut off from its home. */
  lemma CloseHole<K, V>(sh: Shape<K, V>, keys: seq<K>, s: nat, at: nat, d: nat)
    requires |keys| == sh.capacity > 0 && Hole(sh, keys, s, at, d)
    requires Next(at, sh.capacity) != s && keys[Next(at, sh.capacity)] == sh.nullKey
    ensures Probed(sh, keys)
  {
    hide Home;
    var e := Next(at, sh.capacity);
    forall i: nat, j: nat | i < |keys| && j < |keys| && keys[i] != sh.nullKey
      && OnWalk(Home(sh, keys[i]), j, i, sh.capacity)
      ensures keys[j] != sh.nullKey
    {
      assert !OnWalk(Home(sh, keys[i]), e, i, sh.capacity);
    }
  }

  /** Nulling a cell removes its key from the map and nothing else. */
  lemma NullOutRemoves<K, V>(sh: Shape<K, V>, t: Table<K, V>, i: nat)
    requires |t.keys| == |t.values| && i < |t.keys| && Unique(sh, t.keys)
    ensures Unique(sh, t.keys[i := sh.nullKey])
    ensures Bindings(sh, StoreKey(StoreValue(t, i, sh.nullValue), i, sh.nullKey)) == Bindings(sh, t) - {t.keys[i]}
  {
    SameBindingsButOne(sh, t, StoreKey(StoreValue(t, i, sh.nullValue), i, sh.nullKey), i);
  }

  /** The table after the binding of cell i has been moved into the hole d. */
  function Moved<K, V>(sh: Shape<K, V>, t: Table<K, V>, d: nat, i: nat): Table<K, V>
    requires |t.keys| == |t.values| && d < |t.keys| && i < |t.keys|
  {
    Table(t.keys[d := t.keys[i]][i := sh.nullKey], t.values[d := t.values[i]][i := sh.nullValue])
  }

  lemma MoveKeepsUnique<K, V>(sh: Shape<K, V>, keys: seq<K>, i: nat, d: nat)
    requires i < |keys| && d < |keys| && i != d
    requires Unique(sh, keys) && keys[i] != sh.nullKey && keys[d] == sh.nullKey
    ensures Unique(sh, keys[d := keys[i]][i := sh.nullKey])
    ensures Load(keys[d := keys[i]][i := sh.nullKey], sh.nullKey) == Load(keys, sh.nullKey)
  {
    LoadUpdate(keys, sh.nullKey, d, keys[i]);
    LoadUpdate(keys[d := keys[i]], sh.nullKey, i, sh.nullKey);
  }

  lemma MoveKeepsNullsEmpty<K, V>(sh: Shape<K, V>, t: Table<K, V>, i: nat, d: nat)
    requires |t.keys| == |t.values| && i < |t.keys| && d < |t.keys| && i != d
    requires NullCellsEmpty(sh, t) && t.keys[i] != sh.nullKey
    ensures NullCellsEmpty(sh, Moved(sh, t, d, i))
  {
  }

  /** Moving a binding into the hole leaves the map as it was. */
  lemma MoveKeepsBindings<K, V>(sh: Shape<K, V>, t: Table<K, V>, i: nat, d: nat)
    requires |t.keys| == |t.values| && i < |t.keys| && d < |t.keys| && i != d
    requires Unique(sh, t.keys) && t.keys[i] != sh.nullKey && t.keys[d] == sh.nullKey
    ensures Bindings(sh, Moved(sh, t, d, i)) == Bindings(sh, t)
  {
    hide Unique, Load;
    var k, v := t.keys[i], t.values[i];
    var removed := Table(t.keys[i := sh.nullKey], t.values[i := sh.nullValue]);
    var u := Moved(sh, t, d, i);
    NullOutRemoves(sh, t, i);
    MoveKeepsUnique(sh, t.keys, i, d);
    assert u.keys == removed.keys[d := k] && u.values == removed.values[d := v];
    SameBindingsButOne(sh, removed, u, d);
    BoundAt(sh, t, i);
    assert Bindings(sh, t) == (Bindings(sh, t) - {k})[k := v];
  }

  /** The whole state of a compaction: the table t stands for m, has the given load, and its hole is d;
      cell e is a null cell the scan has still to meet. */
  ghost predicate Compacting<K, V>(sh: Shape<K, V>, t: Table<K, V>, s: nat, at: nat, d: nat, e: nat,
                                   m: map<K, V>, load: nat)
  {
    && |t.keys| == |t.values| == sh.capacity > 0
    && Unique(sh, t.keys) && NullCellsEmpty(sh, t)
    && Hole(sh, t.keys, s, at, d)
    && e < sh.capacity && t.keys[e] == sh.nullKey
    && Distance(s, at, sh.capacity) < Distance(s, e, sh.capacity)
    && Bindings(sh, t) == m && Load(t.keys, sh.nullKey) == load
  }

  /** The scan is inside the chain: the cycle guard does not fire, and the hole lies behind the scan. */
  lemma CompactingAhead<K, V>(sh: Shape<K, V>, t: Table<K, V>, s: nat, at: nat, d: nat, e: nat, m: map<K, V>, load: nat)
    requires Compacting(sh, t, s, at, d, e, m, load)
    ensures s < sh.capacity && at < sh.capacity && d < sh.capacity
    ensures Next(at, sh.capacity) != s && Next(at, sh.capacity) != d
    ensures Distance(s, Next(at, sh.capacity), sh.capacity) == Distance(s, at, sh.capacity) + 1 < sh.capacity
    ensures t.keys[d] == sh.nullKey && Distance(s, d, sh.capacity) <= Distance(s, at, sh.capacity)
  {
  }

  /** One iteration, once the probed cell is known to be occupied. */
  lemma CompactingStep<K, V>(sh: Shape<K, V>, t: Table<K, V>, s: nat, at: nat, d: nat, e: nat, m: map<K, V>, load: nat)
    requires Compacting(sh, t, s, at, d, e, m, load) && t.keys[Next(at, sh.capacity)] != sh.nullKey
    ensures var i := Next(at, sh.capacity);
      if MoveTest(i, Home(sh, t.keys[i]), d)
      then Compacting(sh, Moved(sh, t, d, i), s, i, i, e, m, load)
      else Compacting(sh, t, s, i, d, e, m, load)
  {
    var i := Next(at, sh.capacity);
    CompactingAhead(sh, t, s, at, d, e, m, load);
    MoveTestIsOnWalk(i, Home(sh, t.keys[i]), d, sh.capacity);
    if MoveTest(i, Home(sh, t.keys[i]), d) {
      MoveKey(sh, t.keys, s, at, d, e);
      MoveKeepsUnique(sh, t.keys, i, d);
      MoveKeepsNullsEmpty(sh, t, i, d);
      MoveKeepsBindings(sh, t, i, d);
    } else {
      KeepKey(sh, t.keys, s, at, d);
    }
  }

  lemma CompactingDone<K, V>(sh: Shape<K, V>, t: Table<K, V>, s: nat, at: nat, d: nat, e: nat, m: map<K, V>, load: nat)
    requires Compacting(sh, t, s, at, d, e, m, load) && t.keys[Next(at, sh.capacity)] == sh.nullKey
    ensures Searchable(sh, t) && Bindings(sh, t) == m && Load(t.keys, sh.nullKey) == load
  {
    CompactingAhead(sh, t, s, at, d, e, m, load);
    CloseHole(sh, t.keys, s, at, d);
  }

  // ---- the trail of tables the compaction leaves ----

  /** The trail of a compaction that has scanned up to cell at. */
  ghost predicate Trailing<K, V>(sh: Shape<K, V>, trail: seq<Table<K, V>>, before: map<K, V>, s: nat, at: nat)
  {
    && trail != []
    && EraseTrail(sh, trail, before)
    && forall i: nat :: i < sh.capacity && Distance(s, i, sh.capacity) > Distance(s, at, sh.capacity)
         && trail[|trail| - 1].keys[i] != sh.nullKey
         ==> OnlyAt(sh, trail, trail[|trail| - 1].keys[i], i)
  }

  lemma StartTrail<K, V>(sh: Shape<K, V>, t: Table<K, V>, s: nat)
    requires Searchable(sh, t) && s < sh.capacity
    ensures Trailing(sh, [t], Bindings(sh, t), s, s)
  {
    forall i | 0 <= i < sh.capacity && t.keys[i] != sh.nullKey
      ensures t.keys[i] in Bindings(sh, t) && Bindings(sh, t)[t.keys[i]] == t.values[i]
    {
      BoundAt(sh, t, i);
    }
  }

  lemma TrailingIsEraseTrail<K, V>(sh: Shape<K, V>, trail: seq<Table<K, V>>, before: map<K, V>, s: nat, at: nat)
    requires Trailing(sh, trail, before, s, at)
    ensures EraseTrail(sh, trail, before)
  {
  }

  lemma TrailScanned<K, V>(sh: Shape<K, V>, trail: seq<Table<K, V>>, before: map<K, V>, s: nat, at: nat)
    requires Trailing(sh, trail, before, s, at) && at < sh.capacity && s < sh.capacity && Next(at, sh.capacity) != s
    ensures Trailing(sh, trail, before, s, Next(at, sh.capacity))
  {
  }

  lemma TrailValue<K, V>(sh: Shape<K, V>, trail: seq<Table<K, V>>, before: map<K, V>, s: nat, at: nat, i: nat, v: V)
    requires Trailing(sh, trail, before, s, at) && i < sh.capacity
    requires var k := trail[|trail| - 1].keys[i]; k == sh.nullKey || v == sh.nullValue
    ensures Trailing(sh, trail + [StoreValue(trail[|trail| - 1], i, v)], before, s, at)
  {
    var last := trail[|trail| - 1];
    var trail' := trail + [StoreValue(last, i, v)];
    assert NoReturn(sh, trail') by {
      NoReturnGrows(sh, trail, StoreValue(last, i, v), i);
    }
    forall c: nat | c < sh.capacity && Distance(s, c, sh.capacity) > Distance(s, at, sh.capacity)
      && last.keys[c] != sh.nullKey
      ensures OnlyAt(sh, trail', last.keys[c], c)
    {
      assert OnlyAt(sh, trail, last.keys[c], c);
    }
  }

  lemma TrailNullKey<K, V>(sh: Shape<K, V>, trail: seq<Table<K, V>>, before: map<K, V>, s: nat, at: nat, i: nat)
    requires Trailing(sh, trail, before, s, at) && i < sh.capacity
    requires Distance(s, i, sh.capacity) <= Distance(s, at, sh.capacity)
    ensures Trailing(sh, trail + [StoreKey(trail[|trail| - 1], i, sh.nullKey)], before, s, at)
  {
    var last := trail[|trail| - 1];
    var trail' := trail + [StoreKey(last, i, sh.nullKey)];
    NoReturnGrows(sh, trail, StoreKey(last, i, sh.nullKey), i);
    forall c: nat | c < sh.capacity && Distance(s, c, sh.capacity) > Distance(s, at, sh.capacity)
      && last.keys[c] != sh.nullKey
      ensures OnlyAt(sh, trail', last.keys[c], c)
    {
      assert OnlyAt(sh, trail, last.keys[c], c);
    }
  }

  /** Copying the key of the next cell into the hole, after its value. */
  lemma TrailCopyKey<K, V>(sh: Shape<K, V>, trail: seq<Table<K, V>>, before: map<K, V>, s: nat, at: nat, d: nat)
    requires Trailing(sh, trail, before, s, at) && at < sh.capacity && s < sh.capacity && d < sh.capacity
    requires Distance(s, d, sh.capacity) <= Distance(s, at, sh.capacity)
    requires Next(at, sh.capacity) != s
    requires var last, i := trail[|trail| - 1], Next(at, sh.capacity);
      last.keys[i] != sh.nullKey && last.values[d] == last.values[i]
    ensures Trailing(sh, trail + [StoreKey(trail[|trail| - 1], d, trail[|trail| - 1].keys[Next(at, sh.capacity)])],
                     before, s, Next(at, sh.capacity))
  {
    var last, i := trail[|trail| - 1], Next(at, sh.capacity);
    var k := last.keys[i];
    var trail' := trail + [StoreKey(last, d, k)];
    assert OnlyAt(sh, trail, k, i);
    NoReturnGrows(sh, trail, StoreKey(last, d, k), d);
    forall c: nat | c < sh.capacity && Distance(s, c, sh.capacity) > Distance(s, i, sh.capacity)
      && last.keys[c] != sh.nullKey
      ensures OnlyAt(sh, trail', last.keys[c], c)
    {
      assert OnlyAt(sh, trail, last.keys[c], c);
      assert trail[|trail| - 1].keys[i] == k;
    }
  }

  /** The two stores that empty a cell. */
  function NullOutStores<K, V>(sh: Shape<K, V>, t: Table<K, V>, i: nat): seq<Table<K, V>>
    requires i < |t.keys| && i < |t.values|
  {
    [StoreValue(t, i, sh.nullValue), StoreKey(StoreValue(t, i, sh.nullValue), i, sh.nullKey)]
  }

  /** The four stores that move the binding of cell i into the hole d. */
  function MoveStores<K, V>(sh: Shape<K, V>, t: Table<K, V>, d: nat, i: nat): seq<Table<K, V>>
    requires |t.keys| == |t.values| && d < |t.keys| && i < |t.keys|
  {
    var valued := StoreValue(t, d, t.values[i]);
    var copied := StoreKey(valued, d, t.keys[i]);
    [valued, copied] + NullOutStores(sh, copied, i)
  }

  lemma TrailNullOut<K, V>(sh: Shape<K, V>, trail: seq<Table<K, V>>, before: map<K, V>, s: nat, at: nat, i: nat)
    requires Trailing(sh, trail, before, s, at) && i < sh.capacity
    requires Distance(s, i, sh.capacity) <= Distance(s, at, sh.capacity)
    ensures Trailing(sh, trail + NullOutStores(sh, trail[|trail| - 1], i), before, s, at)
  {
    var t := trail[|trail| - 1];
    TrailValue(sh, trail, before, s, at, i, sh.nullValue);
    var trail1 := trail + [StoreValue(t, i, sh.nullValue)];
    TrailNullKey(sh, trail1, before, s, at, i);
    assert trail + NullOutStores(sh, t, i) == trail1 + [StoreKey(StoreValue(t, i, sh.nullValue), i, sh.nullKey)];
  }

  lemma TrailMove<K, V>(sh: Shape<K, V>, trail: seq<Table<K, V>>, before: map<K, V>, s: nat, at: nat, d: nat)
    requires Trailing(sh, trail, before, s, at) && at < sh.capacity && s < sh.capacity && d < sh.capacity
    requires trail[|trail| - 1].keys[d] == sh.nullKey
    requires Distance(s, d, sh.capacity) <= Distance(s, at, sh.capacity)
    requires Next(at, sh.capacity) != s && trail[|trail| - 1].keys[Next(at, sh.capacity)] != sh.nullKey
    ensures Trailing(sh, trail + MoveStores(sh, trail[|trail| - 1], d, Next(at, sh.capacity)), before,
                     s, Next(at, sh.capacity))
  {
    var t, i := trail[|trail| - 1], Next(at, sh.capacity);
    var valued := StoreValue(t, d, t.values[i]);
    var copied := StoreKey(valued, d, t.keys[i]);
    TrailValue(sh, trail, before, s, at, d, t.values[i]);
    var trail1 := trail + [valued];
    TrailCopyKey(sh, trail1, before, s, at, d);
    var trail2 := trail1 + [copied];
    TrailNullOut(sh, trail2, before, s, i, i);
    assert trail + MoveStores(sh, t, d, i) == trail2 + NullOutStores(sh, copied, i);
  }
}
