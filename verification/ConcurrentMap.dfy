/** The open-addressed map of lib/concurrent_map.h with its probing and compaction loops.

    Writers also return the trail of tables they pass through, store by store; a get that
    runs at the same time sees tables of that trail (ConcurrentGet.dfy).
  */
module ConcurrentMaps {
  import opened ProbingTable
  import opened Stores
  import opened Compaction
  import opened WriterTables

  class ConcurrentMap<K(==), V(==)> {
    const shape: Shape<K, V>
    const maxLoad: nat
    const keys: array<K>
    const values: array<V>
    var size: nat

    ghost function Cells(): Table<K, V>
      reads keys, values
    {
      Table(keys[..], values[..])
    }

    ghost predicate Separate()
    {
      && keys.Length == values.Length == shape.capacity > 0
      && keys as object != values
    }

    ghost predicate Valid()
      reads this, keys, values
    {
      && Separate()
      && maxLoad < shape.capacity
      && Searchable(shape, Cells())
      && size == Load(keys[..], shape.nullKey) <= maxLoad
      && NoNullValues(shape, Model())
    }

    /** The finite map the cells stand for. */
    ghost function Model(): map<K, V>
      reads keys, values
      requires keys.Length == values.Length
    {
      Bindings(shape, Cells())
    }

    /** The size field counts the bindings, so the map never holds more than maxLoad of them. */
    lemma SizeCountsBindings()
      requires Valid()
      ensures |Model()| == size <= maxLoad
    {
      SizeIsBindings(shape, Cells());
    }

    constructor (shape: Shape<K, V>, maxLoad: nat)
      requires maxLoad < shape.capacity
      ensures Valid() && fresh(keys) && fresh(values)
      ensures this.shape == shape && this.maxLoad == maxLoad
      ensures Model() == map[] && size == 0
    {
      this.shape := shape;
      this.maxLoad := maxLoad;
      keys := new K[shape.capacity](_ => shape.nullKey);
      values := new V[shape.capacity](_ => shape.nullValue);
      size := 0;
      new;
      Clear();
    }

    method Clear()
      requires Separate() && maxLoad < shape.capacity
      modifies this, keys, values
      ensures Valid() && Model() == map[] && size == 0
    {
      for idx := 0 to shape.capacity
        invariant forall i :: 0 <= i < idx ==> keys[i] == shape.nullKey && values[i] == shape.nullValue
      {
        values[idx] := shape.nullValue;
        keys[idx] := shape.nullKey;
      }
      size := 0;
      LoadNone(keys[..], shape.nullKey);
      assert keys[..][0] == shape.nullKey;
    }

    /** True exactly when every cell is null; for a valid map, when it has no bindings. */
    method IsClear() returns (clear: bool)
      requires Valid()
      ensures clear <==> Model() == map[]
    {
      clear := true;
      var idx := 0;
      while idx < shape.capacity
        invariant 0 <= idx <= shape.capacity
        invariant forall i :: 0 <= i < idx ==> keys[i] == shape.nullKey
      {
        if keys[idx] != shape.nullKey {
          BoundAt(shape, Cells(), idx);
          return false;
        }
        if values[idx] != shape.nullValue {
          clear := false;
          break;
        }
        idx := idx + 1;
      }
      assert forall k :: k in keys[..] ==> k == shape.nullKey;
    }

    method Get(key: K) returns (value: V)
      requires Valid()
      ensures value == if key == shape.nullKey then shape.nullValue else Lookup(shape, Model(), key)
    {
      hide Searchable, Missed, Bindings;
      if key == shape.nullKey {
        return shape.nullValue;
      }
      var predecessor: nat := Previous(Home(shape, key), shape.capacity);
      var idx: nat := predecessor;
      ghost var n: nat := 0;
      MissedNothing(shape, keys[..], key);
      while true
        invariant 0 <= n < shape.capacity && idx < shape.capacity
        invariant if n == 0 then idx == predecessor else Distance(Home(shape, key), idx, shape.capacity) == n - 1
        invariant Missed(shape, keys[..], key, n)
        decreases shape.capacity - n
      {
        idx := Next(idx, shape.capacity);
        if predecessor == idx {
          MissedMeansAbsent(shape, Cells(), key, shape.capacity - 1);
          return shape.nullValue;
        }
        var probedKey := keys[idx];
        if probedKey == key {
          BoundInSearchable(shape, Cells(), idx);
          var loadedValue := values[idx];
          var reProbedKey := keys[idx];
          if reProbedKey == probedKey {
            return loadedValue;
          }
        }
        if probedKey == shape.nullKey {
          assert Cells().keys[idx] == shape.nullKey;
          MissedMeansAbsent(shape, Cells(), key, n);
          return shape.nullValue;
        }
        MissedOneMore(shape, keys[..], key, n, idx);
        n := n + 1;
      }
    }

    /** Succeeds exactly when the map is below its load limit, and then binds the key. */
    method Assign(key: K, value: V) returns (ok: bool, ghost trail: seq<Table<K, V>>)
      requires Valid()
      modifies this`size, keys, values
      ensures Valid()
      ensures ok <==> key != shape.nullKey && value != shape.nullValue && old(size) < maxLoad
      ensures Model() == if ok then old(Model())[key := value] else old(Model())
      ensures trail == AssignTables(shape, maxLoad, old(Cells()), key, value) && trail[|trail| - 1] == Cells()
      ensures AssignTrail(shape, trail, old(Model()), key, value)
    {
      hide Searchable, Missed, Bindings, Home, AssignTrail, Load, StopCell, NoNullValues, AssignStores, Widths;
      AssignTablesAreTrail(shape, maxLoad, Cells(), key, value);
      trail := [Cells()];
      if key == shape.nullKey || value == shape.nullValue {
        return false, trail;
      }
      var previousSize := size;
      size := size + 1;
      if previousSize >= maxLoad {
        size := size - 1;
        return false, trail;
      }

      ghost var start := Cells();
      ok := false;
      var predecessor: nat := Previous(Home(shape, key), shape.capacity);
      var idx: nat := predecessor;
      ghost var n: nat := 0;
      MissedNothing(shape, start.keys, key);
      while true
        invariant 0 <= n < shape.capacity && idx < shape.capacity
        invariant if n == 0 then idx == predecessor else Distance(Home(shape, key), idx, shape.capacity) == n - 1
        invariant Missed(shape, start.keys, key, n)
        invariant Cells() == start == old(Cells()) && size == old(size) + 1
        invariant trail == [start]
        invariant StopCell(shape, start.keys, key, Home(shape, key), 0)
               == StopCell(shape, start.keys, key, Next(idx, shape.capacity), n)
        decreases shape.capacity - n
      {
        GuardNotReached(shape, start.keys, key);
        idx := Next(idx, shape.capacity);
        if predecessor == idx {
          break;
        }
        StopCellStep(shape, start.keys, key, idx, n);
        var probedKey := keys[idx];
        assert probedKey == start.keys[idx];
        if probedKey == key {
          size := size - 1;
        } else {
          if probedKey != shape.nullKey {
            MissedOneMore(shape, start.keys, key, n, idx);
            n := n + 1;
            continue;
          }
          keys[idx] := key;
          trail := trail + [Cells()];
        }
        assert Cells() == StoreKey(start, idx, key);
        values[idx] := value;
        assert Cells() == StoreValue(StoreKey(start, idx, key), idx, value);
        trail := trail + [Cells()];
        ok := true;
        AssignStoresAre(shape, start, idx, key, value);
        MoreValues(shape, Bindings(shape, start), key, value);
        assert trail == [start] + AssignStores(shape, start, idx, key, value);
        break;
      }
    }

    /** Returns true exactly when the key was bound, and removes that binding and no other. */
    method Erase(key: K) returns (ok: bool, ghost trail: seq<Table<K, V>>)
      requires Valid()
      modifies this`size, keys, values
      ensures Valid()
      ensures ok <==> key != shape.nullKey && key in old(Model())
      ensures Model() == old(Model()) - {key}
      ensures trail == EraseTables(shape, old(Cells()), key) && trail[|trail| - 1] == Cells()
      ensures EraseTrail(shape, trail, old(Model()))
    {
      hide Searchable, Missed, Home, EraseTrail, Trailing, Compacting, Bindings, CompactStores, Reachable;
      hide NoNullValues, Widths, Load;
      EraseTablesAreTrail(shape, Cells(), key);
      trail := [Cells()];
      if key == shape.nullKey {
        NullNotBound(shape, Cells());
        return false, trail;
      }
      ghost var start := Cells();
      var predecessor: nat := Previous(Home(shape, key), shape.capacity);
      var idx: nat := predecessor;
      ghost var n: nat := 0;
      MissedNothing(shape, keys[..], key);
      while true
        invariant 0 <= n < shape.capacity && idx < shape.capacity
        invariant if n == 0 then idx == predecessor else Distance(Home(shape, key), idx, shape.capacity) == n - 1
        invariant Missed(shape, keys[..], key, n)
        invariant Cells() == start == old(Cells()) && size == old(size)
        invariant trail == [start]
        decreases shape.capacity - n
      {
        idx := Next(idx, shape.capacity);
        if predecessor == idx {
          MissedMeansAbsent(shape, Cells(), key, shape.capacity - 1);
          return false, trail;
        }
        var probedKey := keys[idx];
        if probedKey == key {
          IndexInSearchable(shape, start, idx);
          ghost var e := OpenedTable(shape, start, idx);
          FewerValues(shape, Bindings(shape, start), key);
          ghost var emptied := NullOutCell(idx);
          trail := trail + emptied;
          ok, trail := CompactChain(idx, e, trail);
          return;
        }
        if probedKey == shape.nullKey {
          assert Cells().keys[idx] == shape.nullKey;
          MissedMeansAbsent(shape, Cells(), key, n);
          return false, trail;
        }
        MissedOneMore(shape, keys[..], key, n, idx);
        n := n + 1;
      }
    }

    /** The value goes before the key, so that a reader that still sees the key sees no value. */
    method NullOutCell(i: nat) returns (ghost stores: seq<Table<K, V>>)
      requires Separate() && i < shape.capacity
      modifies keys, values
      ensures stores == NullOutStores(shape, old(Cells()), i)
      ensures Cells() == stores[1]
    {
      ghost var t := Cells();
      values[i] := shape.nullValue;
      stores := [Cells()];
      assert Cells() == StoreValue(t, i, shape.nullValue);
      keys[i] := shape.nullKey;
      stores := stores + [Cells()];
      assert Cells() == StoreKey(StoreValue(t, i, shape.nullValue), i, shape.nullKey);
    }

    /** Closes the hole at initialDeleteIndex by moving later keys of the chain back. */
    method CompactChain(initialDeleteIndex: nat, ghost e: nat, ghost trail0: seq<Table<K, V>>)
      returns (ok: bool, ghost trail: seq<Table<K, V>>)
      requires Separate() && maxLoad < shape.capacity && 0 < size <= maxLoad && NoNullValues(shape, Model())
      requires Compacting(shape, Cells(), initialDeleteIndex, initialDeleteIndex, initialDeleteIndex, e,
                          Model(), size - 1)
      requires trail0 != [] && trail0[|trail0| - 1] == Cells() && initialDeleteIndex < shape.capacity
      modifies this`size, keys, values
      ensures Valid() && ok && size == old(size) - 1
      ensures Model() == old(Model())
      ensures trail == trail0 + CompactStores(shape, old(Cells()), initialDeleteIndex, initialDeleteIndex,
                                              initialDeleteIndex)
      ensures trail[|trail| - 1] == Cells()
    {
      hide Searchable, Compacting, Bindings, Load, Home, CompactStores;
      var deleteIndex: nat := initialDeleteIndex;
      var index: nat := deleteIndex;
      trail := trail0;
      ok := false;
      while true
        invariant 0 < size
        invariant Compacting(shape, Cells(), initialDeleteIndex, index, deleteIndex, e, old(Model()), size - 1)
        invariant size == old(size) && index < shape.capacity && deleteIndex < shape.capacity
        invariant trail + CompactStores(shape, Cells(), initialDeleteIndex, index, deleteIndex)
            == trail0 + CompactStores(shape, old(Cells()), initialDeleteIndex, initialDeleteIndex, initialDeleteIndex)
        invariant trail != [] && trail[|trail| - 1] == Cells()
        decreases shape.capacity - Distance(initialDeleteIndex, index, shape.capacity)
      {
        ghost var t := Cells();
        CompactingAhead(shape, t, initialDeleteIndex, index, deleteIndex, e, old(Model()), size - 1);
        CompactStoresStep(shape, t, initialDeleteIndex, index, deleteIndex);
        ghost var at: nat := index;
        index := Next(index, shape.capacity);
        if index == initialDeleteIndex {
          break;
        }
        var key := keys[index];
        if key == shape.nullKey {
          CompactingDone(shape, t, initialDeleteIndex, at, deleteIndex, e, old(Model()), size - 1);
          size := size - 1;
          ok := true;
          assert trail + [] == trail;
          break;
        }
        CompactingStep(shape, t, initialDeleteIndex, at, deleteIndex, e, old(Model()), size - 1);
        var hash := Home(shape, key);
        if (index < hash && (hash <= deleteIndex || deleteIndex <= index)) ||
           (hash <= deleteIndex && deleteIndex <= index)
        {
          var value := values[index];
          values[deleteIndex] := value;
          ghost var valued := Cells();
          assert valued == StoreValue(t, deleteIndex, value);
          keys[deleteIndex] := key;
          ghost var copied := Cells();
          assert copied == StoreKey(valued, deleteIndex, key);
          ghost var emptied := NullOutCell(index);
          assert [valued, copied] + emptied == MoveStores(shape, t, deleteIndex, index);
          ghost var rest := CompactStores(shape, Cells(), initialDeleteIndex, index, index);
          assert trail + (MoveStores(shape, t, deleteIndex, index) + rest)
              == trail + ([valued, copied] + emptied) + rest;
          trail := trail + ([valued, copied] + emptied);
          deleteIndex := index;
        }
      }
    }
  }
}
