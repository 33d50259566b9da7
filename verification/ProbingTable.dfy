/** The cell array of the concurrent map as a value: probing, load and the map it stands for.

    Everything here is about one instant of the table. The imperative operations
    are in ConcurrentMap.dfy, the concurrent reader in ConcurrentGet.dfy.
  */
module ProbingTable {

  /** What the template parameters and the constructor fix: the null key and value, the hash
      of the key traits and the capacity. */
  datatype Shape<!K, V> = Shape(capacity: nat, nullKey: K, nullValue: V, hash: K -> nat)

  /** The contents of all cells at one instant. */
  datatype Table<K, V> = Table(keys: seq<K>, values: seq<V>)

  /** The cell a key hashes to. The source masks with capacity - 1, which is the remainder
      because the capacity is a power of two (KeyTraits.MaskIsRemainder). */
  function Home<K, V>(sh: Shape<K, V>, k: K): (h: nat)
    requires sh.capacity > 0
    ensures h < sh.capacity
  {
    sh.hash(k) % sh.capacity
  }

  /** The cell after i, and the cell before it, with wrap-around. */
  function Next(i: nat, capacity: nat): nat
  {
    if i + 1 == capacity then 0 else i + 1
  }

  function Previous(i: nat, capacity: nat): nat
    requires capacity > 0
  {
    if i == 0 then capacity - 1 else i - 1
  }

  /** Number of forward steps from cell a to cell b. */
  function Distance(a: nat, b: nat, capacity: nat): int
  {
    if a <= b then b - a else b - a + capacity
  }

  /** Cell x lies on the forward walk that starts at a and ends at b. */
  predicate OnWalk(a: nat, x: nat, b: nat, capacity: nat)
  {
    Distance(a, x, capacity) <= Distance(a, b, capacity)
  }

  predicate Unique<K(==), V>(sh: Shape<K, V>, keys: seq<K>)
  {
    forall i, j :: 0 <= i < |keys| && 0 <= j < |keys| && keys[i] == keys[j] && keys[i] != sh.nullKey ==> i == j
  }

  /** The probe invariant: no null cell between a key's home and its cell, cyclically. */
  predicate Probed<K(==), V>(sh: Shape<K, V>, keys: seq<K>)
    requires |keys| == sh.capacity
  {
    forall i: nat, j: nat ::
      i < |keys| && j < |keys| && keys[i] != sh.nullKey && OnWalk(Home(sh, keys[i]), j, i, sh.capacity)
      ==> keys[j] != sh.nullKey
  }

  predicate NullCellsEmpty<K(==), V(==)>(sh: Shape<K, V>, t: Table<K, V>)
    requires |t.keys| == |t.values|
  {
    forall i :: 0 <= i < |t.keys| && t.keys[i] == sh.nullKey ==> t.values[i] == sh.nullValue
  }

  predicate HasNull<K(==)>(keys: seq<K>, nullKey: K)
  {
    exists i :: 0 <= i < |keys| && keys[i] == nullKey
  }

  /** Every table a reader can meet while no writer is half-way through an erase. */
  predicate Searchable<K(==), V(==)>(sh: Shape<K, V>, t: Table<K, V>)
  {
    && |t.keys| == |t.values| == sh.capacity
    && Unique(sh, t.keys)
    && Probed(sh, t.keys)
    && HasNull(t.keys, sh.nullKey)
    && NullCellsEmpty(sh, t)
  }

  /** Where a key is stored. */
  function IndexOf<K(==)>(keys: seq<K>, k: K): (i: nat)
    requires k in keys
    ensures i < |keys| && keys[i] == k
  {
    if keys[0] == k then 0 else 1 + IndexOf(keys[1..], k)
  }

  /** The finite map the table stands for. */
  ghost function Bindings<K, V>(sh: Shape<K, V>, t: Table<K, V>): (m: map<K, V>)
    requires |t.keys| == |t.values|
  {
    map k | k in t.keys && k != sh.nullKey :: t.values[IndexOf(t.keys, k)]
  }

  ghost predicate NoNullValues<K, V>(sh: Shape<K, V>, m: map<K, V>)
  {
    forall k :: k in m ==> m[k] != sh.nullValue
  }

  lemma BoundAt<K, V>(sh: Shape<K, V>, t: Table<K, V>, i: nat)
    requires |t.keys| == |t.values| && Unique(sh, t.keys)
    requires i < |t.keys| && t.keys[i] != sh.nullKey
    ensures t.keys[i] in Bindings(sh, t) && Bindings(sh, t)[t.keys[i]] == t.values[i]
  {
    assert IndexOf(t.keys, t.keys[i]) == i;
  }

  lemma NullNotBound<K, V>(sh: Shape<K, V>, t: Table<K, V>)
    requires |t.keys| == |t.values|
    ensures sh.nullKey !in Bindings(sh, t)
  {
  }

  ghost function Lookup<K, V>(sh: Shape<K, V>, m: map<K, V>, k: K): V
  {
    if k in m then m[k] else sh.nullValue
  }

  lemma BoundInSearchable<K, V>(sh: Shape<K, V>, t: Table<K, V>, i: nat)
    requires |t.keys| == |t.values| && Searchable(sh, t)
    requires i < |t.keys| && t.keys[i] != sh.nullKey
    ensures t.keys[i] in Bindings(sh, t) && Bindings(sh, t)[t.keys[i]] == t.values[i]
  {
    BoundAt(sh, t, i);
  }

  // ---- load ----

  /** Number of occupied cells. */
  function Load<K(==)>(keys: seq<K>, nullKey: K): (n: nat)
    ensures n <= |keys|
  {
    if keys == [] then 0 else (if keys[0] == nullKey then 0 else 1) + Load(keys[1..], nullKey)
  }

  function Weight<K(==)>(k: K, nullKey: K): int
  {
    if k == nullKey then 0 else 1
  }

  lemma {:induction false} LoadUpdate<K>(keys: seq<K>, nullKey: K, i: nat, k: K)
    requires i < |keys|
    ensures Load(keys[i := k], nullKey) == Load(keys, nullKey) - Weight(keys[i], nullKey) + Weight(k, nullKey)
  {
    if i == 0 {
      assert keys[i := k][1..] == keys[1..];
    } else {
      assert keys[i := k][1..] == keys[1..][i - 1 := k];
      LoadUpdate(keys[1..], nullKey, i - 1, k);
    }
  }

  /** A table that is not full has a null cell. */
  lemma {:induction false} SpareCell<K>(keys: seq<K>, nullKey: K) returns (e: nat)
    requires Load(keys, nullKey) < |keys|
    ensures e < |keys| && keys[e] == nullKey
  {
    if keys[0] == nullKey {
      e := 0;
    } else {
      var e' := SpareCell(keys[1..], nullKey);
      e := e' + 1;
    }
  }

  /** With two cells to spare, one of them is not p. */
  lemma SpareCellElsewhere<K>(keys: seq<K>, nullKey: K, p: nat, filler: K) returns (e: nat)
    requires p < |keys| && filler != nullKey
    requires Load(keys, nullKey) + 1 < |keys|
    ensures e < |keys| && e != p && keys[e] == nullKey
  {
    LoadUpdate(keys, nullKey, p, filler);
    e := SpareCell(keys[p := filler], nullKey);
  }

  lemma {:induction false} LoadNone<K>(keys: seq<K>, nullKey: K)
    requires forall i :: 0 <= i < |keys| ==> keys[i] == nullKey
    ensures Load(keys, nullKey) == 0
  {
    if keys != [] {
      LoadNone(keys[1..], nullKey);
    }
  }

  ghost function Occupants<K>(keys: seq<K>, nullKey: K): set<K>
  {
    set k | k in keys && k != nullKey
  }

  lemma UniqueTail<K, V>(sh: Shape<K, V>, keys: seq<K>)
    requires Unique(sh, keys) && keys != []
    ensures Unique(sh, keys[1..])
    ensures keys[0] != sh.nullKey ==> keys[0] !in keys[1..]
  {
    var rest := keys[1..];
    forall i, j | 0 <= i < |rest| && 0 <= j < |rest| && rest[i] == rest[j] && rest[i] != sh.nullKey
      ensures i == j
    {
      assert keys[i + 1] == keys[j + 1];
    }
  }

  /** The number of occupied cells is the number of bindings. */
  lemma {:induction false} LoadIsOccupants<K, V>(sh: Shape<K, V>, keys: seq<K>)
    requires Unique(sh, keys)
    ensures |Occupants(keys, sh.nullKey)| == Load(keys, sh.nullKey)
  {
    if keys != [] {
      var k, rest := keys[0], keys[1..];
      UniqueTail(sh, keys);
      LoadIsOccupants(sh, rest);
      assert keys == [k] + rest;
      if k == sh.nullKey {
        assert Occupants(keys, sh.nullKey) == Occupants(rest, sh.nullKey);
      } else {
        assert k !in rest;
        assert Occupants(keys, sh.nullKey) == {k} + Occupants(rest, sh.nullKey);
      }
    }
  }

  lemma SizeIsBindings<K, V>(sh: Shape<K, V>, t: Table<K, V>)
    requires |t.keys| == |t.values| && Unique(sh, t.keys)
    ensures |Bindings(sh, t)| == Load(t.keys, sh.nullKey)
  {
    assert Bindings(sh, t).Keys == Occupants(t.keys, sh.nullKey);
    LoadIsOccupants(sh, t.keys);
  }

  // ---- probing ----

  /** What a probe that has looked at the first n cells of a key's walk, and not stopped, knows. */
  predicate Missed<K(==), V>(sh: Shape<K, V>, keys: seq<K>, key: K, n: int)
    requires |keys| == sh.capacity > 0
  {
    forall j: nat :: j < |keys| && Distance(Home(sh, key), j, sh.capacity) < n
      ==> keys[j] != key && keys[j] != sh.nullKey
  }

  lemma MissedNothing<K, V>(sh: Shape<K, V>, keys: seq<K>, key: K)
    requires |keys| == sh.capacity > 0
    ensures Missed(sh, keys, key, 0)
  {
  }

  lemma MissedOneMore<K, V>(sh: Shape<K, V>, keys: seq<K>, key: K, n: nat, i: nat)
    requires |keys| == sh.capacity > 0 && i < sh.capacity
    requires Missed(sh, keys, key, n) && Distance(Home(sh, key), i, sh.capacity) == n
    requires keys[i] != key && keys[i] != sh.nullKey
    ensures Missed(sh, keys, key, n + 1)
  {
  }

  /** Reaching a null cell, or the cycle guard, proves the key absent. */
  lemma MissedMeansAbsent<K, V>(sh: Shape<K, V>, t: Table<K, V>, key: K, n: nat)
    requires Searchable(sh, t) && key != sh.nullKey
    requires Missed(sh, t.keys, key, n)
    requires n + 1 == sh.capacity
          || (exists i: nat :: i < sh.capacity && Distance(Home(sh, key), i, sh.capacity) == n
                && t.keys[i] == sh.nullKey)
    ensures key !in t.keys && key !in Bindings(sh, t)
  {
    var e: nat :| e < |t.keys| && t.keys[e] == sh.nullKey && Distance(Home(sh, key), e, sh.capacity) == n;
    forall c: nat | c < |t.keys| ensures t.keys[c] != key {
      if Distance(Home(sh, key), c, sh.capacity) >= n {
        assert OnWalk(Home(sh, key), e, c, sh.capacity);
      }
    }
  }

  /** A table with two cells to spare never sends an inserting probe to the cycle guard. */
  lemma GuardNotReached<K, V>(sh: Shape<K, V>, keys: seq<K>, key: K)
    requires |keys| == sh.capacity > 0 && key != sh.nullKey
    requires Load(keys, sh.nullKey) + 1 < sh.capacity
    ensures !Missed(sh, keys, key, sh.capacity - 1)
  {
    var e := SpareCellElsewhere(keys, sh.nullKey, Previous(Home(sh, key), sh.capacity), key);
    assert Distance(Home(sh, key), e, sh.capacity) < sh.capacity - 1;
  }

  /** Writing a key into the null cell where its probe stopped keeps the table searchable. */
  lemma Inserted<K, V>(sh: Shape<K, V>, keys: seq<K>, i: nat, key: K)
    requires |keys| == sh.capacity > 0 && key != sh.nullKey && i < sh.capacity
    requires Unique(sh, keys) && Probed(sh, keys) && key !in keys && keys[i] == sh.nullKey
    requires Missed(sh, keys, key, Distance(Home(sh, key), i, sh.capacity))
    ensures Unique(sh, keys[i := key]) && Probed(sh, keys[i := key])
  {
  }

  lemma NullIsNotBound<K, V>(sh: Shape<K, V>, t: Table<K, V>)
    requires |t.keys| == |t.values|
    ensures sh.nullKey !in Bindings(sh, t)
  {
  }

  lemma SameBindingOf<K, V>(sh: Shape<K, V>, t: Table<K, V>, u: Table<K, V>, i: nat, k: K)
    requires |t.keys| == |t.values| && i < |t.keys|
    requires Unique(sh, t.keys) && Unique(sh, u.keys)
    requires |u.keys| == |u.values| == |t.keys|
    requires u.keys == t.keys[i := u.keys[i]] && u.values == t.values[i := u.values[i]]
    ensures k in Bindings(sh, u) <==>
              k != sh.nullKey && (k == u.keys[i] || (k != t.keys[i] && k in Bindings(sh, t)))
    ensures k in Bindings(sh, u) ==>
              Bindings(sh, u)[k] == if k == u.keys[i] then u.values[i] else Bindings(sh, t)[k]
  {
    if k in u.keys && k != sh.nullKey {
      var j := IndexOf(u.keys, k);
      BoundAt(sh, u, j);
      if j != i { BoundAt(sh, t, j); }
    } else if k in t.keys && k != t.keys[i] {
      assert u.keys[IndexOf(t.keys, k)] == k;
    }
  }

  /** Only cell i differs: only its binding differs. */
  lemma SameBindingsButOne<K, V>(sh: Shape<K, V>, t: Table<K, V>, u: Table<K, V>, i: nat)
    requires |t.keys| == |t.values| && i < |t.keys|
    requires Unique(sh, t.keys) && Unique(sh, u.keys)
    requires |u.keys| == |u.values| == |t.keys|
    requires u.keys == t.keys[i := u.keys[i]] && u.values == t.values[i := u.values[i]]
    requires u.keys[i] == t.keys[i] || t.keys[i] == sh.nullKey || u.keys[i] == sh.nullKey
    ensures u.keys[i] == sh.nullKey ==> Bindings(sh, u) == Bindings(sh, t) - {t.keys[i]}
    ensures u.keys[i] != sh.nullKey ==> Bindings(sh, u) == Bindings(sh, t)[u.keys[i] := u.values[i]]
  {
    hide Unique, IndexOf;
    NullIsNotBound(sh, t);
    var was, now := Bindings(sh, t), Bindings(sh, u);
    var expected := if u.keys[i] == sh.nullKey then was - {t.keys[i]} else was[u.keys[i] := u.values[i]];
    forall k | k in now ensures k in expected && now[k] == expected[k] {
      SameBindingOf(sh, t, u, i, k);
    }
    forall k | k in expected ensures k in now {
      SameBindingOf(sh, t, u, i, k);
    }
  }
}
