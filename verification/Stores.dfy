/** Single stores into the cell array, and the trail of tables an operation leaves:
    one table for each store, which is everything a concurrent reader can meet. */
module Stores {
  import opened ProbingTable

  // ---- single stores ----

  function StoreKey<K, V>(t: Table<K, V>, i: nat, k: K): Table<K, V>
    requires i < |t.keys|
  {
    t.(keys := t.keys[i := k])
  }

  function StoreValue<K, V>(t: Table<K, V>, i: nat, v: V): Table<K, V>
    requires i < |t.values|
  {
    t.(values := t.values[i := v])
  }

  // ---- the trail of tables an operation leaves, one for each store ----

  ghost predicate Widths<K, V>(sh: Shape<K, V>, trail: seq<Table<K, V>>)
  {
    forall n :: 0 <= n < |trail| ==> |trail[n].keys| == |trail[n].values| == sh.capacity
  }

  /** Occupied cells hold the value their key had before the operation, or null. */
  ghost predicate Faithful<K, V>(sh: Shape<K, V>, trail: seq<Table<K, V>>, before: map<K, V>)
    requires Widths(sh, trail)
  {
    forall n, i :: 0 <= n < |trail| && 0 <= i < sh.capacity && trail[n].keys[i] != sh.nullKey ==>
      && trail[n].keys[i] in before
      && (trail[n].values[i] == sh.nullValue || trail[n].values[i] == before[trail[n].keys[i]])
  }

  /** A key that has left a cell does not come back to it. */
  ghost predicate NoReturn<K, V>(sh: Shape<K, V>, trail: seq<Table<K, V>>)
    requires Widths(sh, trail)
  {
    forall l, m, n, i :: 0 <= l <= m <= n < |trail| && 0 <= i < sh.capacity
      && trail[l].keys[i] == trail[n].keys[i] && trail[l].keys[i] != sh.nullKey
      ==> trail[m].keys[i] == trail[l].keys[i]
  }

  /** Cell i has kept key k all along, and k has been nowhere else. */
  ghost predicate OnlyAt<K, V>(sh: Shape<K, V>, trail: seq<Table<K, V>>, k: K, i: nat)
    requires Widths(sh, trail) && i < sh.capacity
  {
    forall n, j :: 0 <= n < |trail| && 0 <= j < sh.capacity ==> (trail[n].keys[j] == k <==> j == i)
  }

  ghost predicate EraseTrail<K, V>(sh: Shape<K, V>, trail: seq<Table<K, V>>, before: map<K, V>)
  {
    Widths(sh, trail) && Faithful(sh, trail, before) && NoReturn(sh, trail)
  }

  lemma NoReturnGrows<K, V>(sh: Shape<K, V>, trail: seq<Table<K, V>>, t: Table<K, V>, c: nat)
    requires Widths(sh, trail) && NoReturn(sh, trail) && trail != [] && c < sh.capacity
    requires |t.keys| == |t.values| == sh.capacity
    requires forall i :: 0 <= i < sh.capacity && i != c ==> t.keys[i] == trail[|trail| - 1].keys[i]
    requires t.keys[c] == sh.nullKey || t.keys[c] == trail[|trail| - 1].keys[c]
          || forall n :: 0 <= n < |trail| ==> trail[n].keys[c] != t.keys[c]
    ensures Widths(sh, trail + [t]) && NoReturn(sh, trail + [t])
  {
    var trail' := trail + [t];
    forall l, m, n, i | 0 <= l <= m <= n < |trail'| && 0 <= i < sh.capacity
      && trail'[l].keys[i] == trail'[n].keys[i] && trail'[l].keys[i] != sh.nullKey
      ensures trail'[m].keys[i] == trail'[l].keys[i]
    {
      if n == |trail| && m < |trail| && (i != c || t.keys[c] == trail[n - 1].keys[c]) {
        assert trail[l].keys[i] == trail[|trail| - 1].keys[i];
      }
    }
  }

  /** A cell that has been taken keeps its key. */
  ghost predicate KeysStick<K, V>(sh: Shape<K, V>, trail: seq<Table<K, V>>)
    requires Widths(sh, trail)
  {
    forall m, n, i :: 0 <= m <= n < |trail| && 0 <= i < sh.capacity && trail[m].keys[i] != sh.nullKey
      ==> trail[n].keys[i] == trail[m].keys[i]
  }

  /** An assign shows the map as it was, then perhaps the key without a value, then the new binding. */
  ghost predicate AssignTrail<K, V>(sh: Shape<K, V>, trail: seq<Table<K, V>>, before: map<K, V>, key: K, value: V)
  {
    && Widths(sh, trail) && KeysStick(sh, trail)
    && (forall n :: 0 <= n < |trail| ==> Searchable(sh, trail[n]))
    && (forall n :: 0 <= n < |trail| ==>
          || Bindings(sh, trail[n]) == before
          || (key !in before && Bindings(sh, trail[n]) == before[key := sh.nullValue])
          || Bindings(sh, trail[n]) == before[key := value])
  }

  lemma AssignTrailStarts<K, V>(sh: Shape<K, V>, t: Table<K, V>, key: K, value: V)
    requires Searchable(sh, t)
    ensures AssignTrail(sh, [t], Bindings(sh, t), key, value)
  {
  }

  lemma AssignTrailGrows<K, V>(sh: Shape<K, V>, trail: seq<Table<K, V>>, last: seq<K>, i: nat, t: Table<K, V>,
                               before: map<K, V>, key: K, value: V)
    requires trail != [] && AssignTrail(sh, trail, before, key, value) && trail[|trail| - 1].keys == last
    requires Searchable(sh, t) && i < sh.capacity
    requires t.keys == last[i := key] && (last[i] == key || last[i] == sh.nullKey)
    requires (key !in before && Bindings(sh, t) == before[key := sh.nullValue])
          || Bindings(sh, t) == before[key := value]
    ensures AssignTrail(sh, trail + [t], before, key, value)
  {
    hide Bindings, Unique, Probed, HasNull, NullCellsEmpty;
    var trail' := trail + [t];
    forall m, n, j | 0 <= m <= n < |trail'| && 0 <= j < sh.capacity && trail'[m].keys[j] != sh.nullKey
      ensures trail'[n].keys[j] == trail'[m].keys[j]
    {
      if m < |trail| == n {
        assert trail[|trail| - 1].keys[j] == trail[m].keys[j];
      }
    }
  }
}
