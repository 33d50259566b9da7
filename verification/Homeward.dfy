/** Where one key is in the tables that a run of operations passes through: no operation takes it further from
    its home, so that it comes back to a cell only if it is erased and assigned again. */
module Homeward {
  import opened ProbingTable
  import opened Stores
  import opened Compaction
  import opened WriterTables
  import opened WriterRuns

  /** How far a cell is from the key's home. */
  function Far<K, V>(sh: Shape<K, V>, key: K, i: nat): int
    requires sh.capacity > 0
  {
    Distance(Home(sh, key), i, sh.capacity)
  }

  lemma SameFarSameCell<K, V>(sh: Shape<K, V>, key: K, i: nat, j: nat)
    requires sh.capacity > 0 && i < sh.capacity && j < sh.capacity && Far(sh, key, i) == Far(sh, key, j)
    ensures i == j
  {
  }

  /** In every table the key is only in cells between these distances from its home. */
  ghost predicate Within<K, V>(sh: Shape<K, V>, tables: seq<Table<K, V>>, key: K, near: int, far: int)
    requires sh.capacity > 0
  {
    && Widths(sh, tables)
    && forall n, i: nat :: 0 <= n < |tables| && i < sh.capacity && tables[n].keys[i] == key ==>
         near <= Far(sh, key, i) <= far
  }

  lemma WithinTogether<K, V>(sh: Shape<K, V>, a: seq<Table<K, V>>, b: seq<Table<K, V>>, key: K, near: int, far: int)
    requires sh.capacity > 0 && Within(sh, a, key, near, far) && Within(sh, b, key, near, far)
    ensures Within(sh, a + b, key, near, far)
  {
    hide Far;
  }

  /** No cell loses the key and takes it back. */
  ghost predicate NeverTakenBack<K, V>(sh: Shape<K, V>, key: K, trail: seq<Table<K, V>>)
    requires Widths(sh, trail)
  {
    forall l, m, n, i ::
      (0 <= l <= m <= n < |trail| && 0 <= i < sh.capacity && trail[l].keys[i] == key && trail[n].keys[i] == key)
      ==> trail[m].keys[i] == key
  }

  // ---- one operation ----

  /** The key, if it is in cell c of the first table, is nowhere further from home than c, and, if it is in
      cell c' of the last, nowhere nearer than c'. */
  ghost predicate Homing<K, V>(sh: Shape<K, V>, tables: seq<Table<K, V>>, key: K)
    requires sh.capacity > 0 && Widths(sh, tables) && tables != []
  {
    && NeverTakenBack(sh, key, tables)
    && (forall n, i: nat, c: nat :: 0 <= n < |tables| && i < sh.capacity && c < sh.capacity
          && tables[n].keys[i] == key && tables[|tables| - 1].keys[c] == key
          ==> Far(sh, key, c) <= Far(sh, key, i))
  }

  ghost predicate Approaching<K, V>(sh: Shape<K, V>, tables: seq<Table<K, V>>, key: K)
    requires sh.capacity > 0 && Widths(sh, tables) && tables != []
  {
    forall n, i: nat, c: nat :: 0 <= n < |tables| && i < sh.capacity && c < sh.capacity
      && tables[n].keys[i] == key && tables[0].keys[c] == key
      ==> Far(sh, key, i) <= Far(sh, key, c)
  }

  ghost predicate Absent<K, V>(tables: seq<Table<K, V>>, key: K) {
    forall n :: 0 <= n < |tables| ==> key !in tables[n].keys
  }

  /** A move takes the moved key nearer to its home. */
  lemma MoveIsWithin<K, V>(sh: Shape<K, V>, t: Table<K, V>, d: nat, i: nat, key: K, c: nat)
    requires |t.keys| == |t.values| == sh.capacity && d < sh.capacity && i < sh.capacity && c < sh.capacity
    requires d != i && Unique(sh, t.keys) && t.keys[d] == sh.nullKey && key != sh.nullKey && t.keys[c] == key
    requires MoveTest(i, Home(sh, t.keys[i]), d)
    ensures var c' := if c == i then d else c;
      && Moved(sh, t, d, i).keys[c'] == key && Far(sh, key, c') <= Far(sh, key, c)
      && Within(sh, MoveStores(sh, t, d, i), key, Far(sh, key, c'), Far(sh, key, c))
  {
    MoveTestIsOnWalk(i, Home(sh, t.keys[i]), d, sh.capacity);
    hide Home;
  }

  lemma {:induction false} CompactHomeward<K, V>(sh: Shape<K, V>, t: Table<K, V>, s: nat, at: nat, d: nat, e: nat,
                                                 m: map<K, V>, load: nat, key: K, c: nat)
    returns (c': nat)
    requires Compacting(sh, t, s, at, d, e, m, load) && key != sh.nullKey
    requires |t.keys| == |t.values| == sh.capacity && s < sh.capacity && at < sh.capacity && d < sh.capacity
    requires c < sh.capacity && t.keys[c] == key
    ensures var tables := [t] + CompactStores(sh, t, s, at, d);
      && Within(sh, tables, key, Far(sh, key, c'), Far(sh, key, c))
      && c' < sh.capacity && tables[|tables| - 1].keys[c'] == key
      && Far(sh, key, c') <= Far(sh, key, c)
    decreases sh.capacity - Distance(s, at, sh.capacity)
  {
    hide Compacting, Moved, Far, Within, MoveStores;
    CompactingAhead(sh, t, s, at, d, e, m, load);
    CompactingIsUnique(sh, t, s, at, d, e, m, load);
    OneIsWithin(sh, t, key, c);
    var i := Next(at, sh.capacity);
    c' := c;
    if t.keys[i] == sh.nullKey {
      assert [t] + [] == [t];
    } else {
      CompactingStep(sh, t, s, at, d, e, m, load);
      if MoveTest(i, Home(sh, t.keys[i]), d) {
        var moved := Moved(sh, t, d, i);
        MoveIsWithin(sh, t, d, i, key, c);
        MoveEndsMoved(sh, t, d, i);
        c' := CompactHomeward(sh, moved, s, i, i, e, m, load, key, if c == i then d else c);
        var rest := CompactStores(sh, moved, s, i, i);
        MovesWithin(sh, t, MoveStores(sh, t, d, i), rest, key, Far(sh, key, c'),
                    Far(sh, key, if c == i then d else c), Far(sh, key, c));
        assert [t] + (MoveStores(sh, t, d, i) + rest) == [t] + MoveStores(sh, t, d, i) + rest;
        LastAfter([t] + MoveStores(sh, t, d, i), [moved] + rest, rest);
      } else {
        c' := CompactHomeward(sh, t, s, i, d, e, m, load, key, c);
      }
    }
  }

  lemma CompactingIsUnique<K, V>(sh: Shape<K, V>, t: Table<K, V>, s: nat, at: nat, d: nat, e: nat, m: map<K, V>,
                                 load: nat)
    requires Compacting(sh, t, s, at, d, e, m, load) && d < |t.keys|
    ensures Unique(sh, t.keys) && t.keys[d] == sh.nullKey
  {
  }

  lemma OneIsWithin<K, V>(sh: Shape<K, V>, t: Table<K, V>, key: K, c: nat)
    requires |t.keys| == |t.values| == sh.capacity && c < sh.capacity && t.keys[c] == key && key != sh.nullKey
    requires Unique(sh, t.keys)
    ensures Within(sh, [t], key, Far(sh, key, c), Far(sh, key, c))
  {
    hide Far;
  }

  lemma MovesWithin<K, V>(sh: Shape<K, V>, t: Table<K, V>, moves: seq<Table<K, V>>, rest: seq<Table<K, V>>, key: K,
                          near: int, middle: int, far: int)
    requires sh.capacity > 0 && moves != [] && near <= middle <= far
    requires Within(sh, [t], key, far, far) && Within(sh, moves, key, middle, far)
    requires Within(sh, [moves[|moves| - 1]] + rest, key, near, middle)
    ensures Within(sh, [t] + moves + rest, key, near, far)
  {
    hide Far;
    var later := [moves[|moves| - 1]] + rest;
    assert forall n :: 0 <= n < |rest| ==> rest[n] == later[n + 1];
  }

  lemma LastAfter<T>(a: seq<T>, b: seq<T>, rest: seq<T>)
    requires a != [] && b == [a[|a| - 1]] + rest
    ensures (a + rest)[|a + rest| - 1] == b[|b| - 1]
  {
  }

  /** A compaction puts only keys into cells that the table had. */
  lemma {:induction false} CompactAddsNoKey<K, V>(sh: Shape<K, V>, t: Table<K, V>, s: nat, at: nat, d: nat, key: K)
    requires |t.keys| == |t.values| == sh.capacity && key !in t.keys && key != sh.nullKey
    requires s < sh.capacity && at < sh.capacity && d < sh.capacity
    ensures Absent(CompactStores(sh, t, s, at, d), key)
    decreases sh.capacity - Distance(s, at, sh.capacity)
  {
    hide Home;
    var i := Next(at, sh.capacity);
    if i != s && t.keys[i] != sh.nullKey {
      if MoveTest(i, Home(sh, t.keys[i]), d) {
        CompactAddsNoKey(sh, Moved(sh, t, d, i), s, i, i, key);
      } else {
        CompactAddsNoKey(sh, t, s, i, d, key);
      }
    }
  }

  /** An erase of another key takes a bound key towards its home. */
  lemma EraseHomeward<K, V>(sh: Shape<K, V>, t: Table<K, V>, erased: K, key: K, c: nat) returns (c': nat)
    requires Searchable(sh, t) && key != sh.nullKey && key != erased && c < sh.capacity && t.keys[c] == key
    ensures var tables := EraseTables(sh, t, erased);
      && Within(sh, tables, key, Far(sh, key, c'), Far(sh, key, c))
      && c' < sh.capacity && tables[|tables| - 1].keys[c'] == key
  {
    hide Compacting, Trailing, Bindings, Load, CompactStores, Searchable, Far, Within;
    SearchableIsShaped(sh, t);
    SearchableIsUnique(sh, t);
    OneIsWithin(sh, t, key, c);
    c' := c;
    if erased != sh.nullKey && erased in t.keys {
      var s := IndexOf(t.keys, erased);
      var e := OpenedTable(sh, t, s);
      var valueless, hollow := NullOutStores(sh, t, s)[0], NullOutStores(sh, t, s)[1];
      c' := CompactHomeward(sh, hollow, s, s, s, e, Bindings(sh, t) - {erased}, Load(t.keys, sh.nullKey) - 1, key, c);
      OneIsWithin(sh, valueless, key, c);
      Nearer(sh, [t], key, Far(sh, key, c), Far(sh, key, c'), Far(sh, key, c));
      Nearer(sh, [valueless], key, Far(sh, key, c), Far(sh, key, c'), Far(sh, key, c));
      var rest := [hollow] + CompactStores(sh, hollow, s, s, s);
      WithinTogether(sh, [t], [valueless], key, Far(sh, key, c'), Far(sh, key, c));
      WithinTogether(sh, [t] + [valueless], rest, key, Far(sh, key, c'), Far(sh, key, c));
      assert EraseTables(sh, t, erased) == [t] + [valueless] + rest;
    }
  }

  lemma Nearer<K, V>(sh: Shape<K, V>, tables: seq<Table<K, V>>, key: K, near: int, nearer: int, far: int)
    requires sh.capacity > 0 && Within(sh, tables, key, near, far) && nearer <= near
    ensures Within(sh, tables, key, nearer, far)
  {
    hide Far;
  }

  lemma SearchableIsUnique<K, V>(sh: Shape<K, V>, t: Table<K, V>)
    requires Searchable(sh, t)
    ensures Unique(sh, t.keys)
  {
  }

  /** The key is only in cells where it is to start with. */
  ghost predicate StaysIn<K, V>(tables: seq<Table<K, V>>, keys: seq<K>, key: K) {
    forall n, i :: 0 <= n < |tables| && 0 <= i < |tables[n].keys| && tables[n].keys[i] == key ==>
      i < |keys| && keys[i] == key
  }

  /** An erase of any key brings no other key in, and leaves a key that it erases in its cell until it is
      gone. */
  lemma EraseOfKey<K, V>(sh: Shape<K, V>, t: Table<K, V>, erased: K, key: K)
    requires Searchable(sh, t) && key != sh.nullKey && (key == erased || key !in t.keys)
    ensures var tables := EraseTables(sh, t, erased);
      && (key !in t.keys ==> Absent(tables, key))
      && (key in t.keys ==> key !in tables[|tables| - 1].keys && StaysIn(tables, t.keys, key))
  {
    hide CompactStores, Searchable;
    SearchableIsShaped(sh, t);
    SearchableIsUnique(sh, t);
    if erased != sh.nullKey && erased in t.keys {
      var s := IndexOf(t.keys, erased);
      var stores := NullOutStores(sh, t, s);
      assert key !in stores[1].keys;
      CompactAddsNoKey(sh, stores[1], s, s, s, key);
      var rest := CompactStores(sh, stores[1], s, s, s);
      assert EraseTables(sh, t, erased) == [t, stores[0], stores[1]] + rest;
    }
  }

  lemma EraseHoming<K, V>(sh: Shape<K, V>, t: Table<K, V>, erased: K, key: K)
    requires Searchable(sh, t) && key != sh.nullKey
    ensures var tables := EraseTables(sh, t, erased);
      && Widths(sh, tables) && Homing(sh, tables, key) && Approaching(sh, tables, key)
      && (key !in t.keys ==> Absent(tables, key))
      && (key != erased && key in t.keys ==> key in tables[|tables| - 1].keys)
  {
    hide EraseTables, Searchable, Bindings, Reachable, Faithful, NoReturn, Homing, Approaching, Within;
    SearchableIsShaped(sh, t);
    SearchableIsUnique(sh, t);
    EraseTablesAreTrail(sh, t, erased);
    var tables := EraseTables(sh, t, erased);
    SearchableIsUnique(sh, tables[|tables| - 1]);
    if key == erased || key !in t.keys {
      EraseOfKey(sh, t, erased, key);
      OnlyThereHoming(sh, tables, key);
    } else {
      var c := IndexOf(t.keys, key);
      var c' := EraseHomeward(sh, t, erased, key, c);
      WithinHoming(sh, tables, key, c, c');
    }
  }

  lemma OnlyThereHoming<K, V>(sh: Shape<K, V>, tables: seq<Table<K, V>>, key: K)
    requires sh.capacity > 0 && Widths(sh, tables) && tables != [] && NoReturn(sh, tables) && key != sh.nullKey
    requires Unique(sh, tables[0].keys) && key !in tables[|tables| - 1].keys
    requires Absent(tables, key) || StaysIn(tables, tables[0].keys, key)
    ensures Homing(sh, tables, key) && Approaching(sh, tables, key)
  {
    hide Far;
  }

  lemma WithinHoming<K, V>(sh: Shape<K, V>, tables: seq<Table<K, V>>, key: K, c: nat, c': nat)
    requires sh.capacity > 0 && Widths(sh, tables) && tables != [] && NoReturn(sh, tables) && key != sh.nullKey
    requires Unique(sh, tables[0].keys) && Unique(sh, tables[|tables| - 1].keys) && c < sh.capacity && c' < sh.capacity
    requires tables[0].keys[c] == key && tables[|tables| - 1].keys[c'] == key
    requires Within(sh, tables, key, Far(sh, key, c'), Far(sh, key, c))
    ensures Homing(sh, tables, key) && Approaching(sh, tables, key)
  {
    hide Far;
  }

  /** An assign puts a key into at most one cell, and leaves it there. */
  lemma AssignHoming<K, V>(sh: Shape<K, V>, maxLoad: nat, t: Table<K, V>, k: K, value: V, key: K)
    requires Quiet(sh, maxLoad, t) && key != sh.nullKey
    ensures |t.keys| == |t.values| == sh.capacity > 0
    ensures var tables := AssignTables(sh, maxLoad, t, k, value);
      && Widths(sh, tables) && Homing(sh, tables, key) && Approaching(sh, tables, key)
      && (key !in t.keys && key != k ==> Absent(tables, key))
      && (key in t.keys ==> key in tables[|tables| - 1].keys)
      && (Absent(tables, key) || key in tables[|tables| - 1].keys)
  {
    hide AssignTables, Bindings, Load, Homing, Approaching, KeysStick, Searchable;
    SearchableIsShaped(sh, t);
    AssignTablesAreTrail(sh, maxLoad, t, k, value);
    var tables := AssignTables(sh, maxLoad, t, k, value);
    SearchableIsUnique(sh, tables[|tables| - 1]);
    StuckHoming(sh, tables, key);
    if key !in t.keys && key != k {
      NotBoundNotThere(sh, t, key);
      forall n | 0 <= n < |tables| ensures key !in tables[n].keys {
        if key in tables[n].keys {
          BoundInSearchable(sh, tables[n], IndexOf(tables[n].keys, key));
        }
      }
    }
  }

  /** A key that sticks to its cell is in one cell only. */
  lemma StuckHoming<K, V>(sh: Shape<K, V>, tables: seq<Table<K, V>>, key: K)
    requires sh.capacity > 0 && Widths(sh, tables) && tables != [] && KeysStick(sh, tables) && key != sh.nullKey
    requires Unique(sh, tables[|tables| - 1].keys)
    ensures Homing(sh, tables, key) && Approaching(sh, tables, key)
    ensures Absent(tables, key) || key in tables[|tables| - 1].keys
    ensures key in tables[0].keys ==> key in tables[|tables| - 1].keys
  {
    hide Far;
    forall n, i | 0 <= n < |tables| && 0 <= i < sh.capacity && tables[n].keys[i] == key
      ensures tables[|tables| - 1].keys[i] == key
    {
    }
  }

  lemma NotBoundNotThere<K, V>(sh: Shape<K, V>, t: Table<K, V>, key: K)
    requires |t.keys| == |t.values| && key !in t.keys
    ensures key !in Bindings(sh, t)
  {
  }

  // ---- any number of operations ----

  /** The key comes back after an operation only if it was never there before it. */
  lemma HomingTogether<K, V>(sh: Shape<K, V>, a: seq<Table<K, V>>, b: seq<Table<K, V>>, key: K)
    requires sh.capacity > 0 && Widths(sh, a) && Widths(sh, b) && a != [] && b != [] && a[|a| - 1] == b[0]
    requires Homing(sh, a, key) && Homing(sh, b, key) && Approaching(sh, b, key)
    requires key !in b[0].keys ==> Absent(a, key) || Absent(b, key)
    ensures Widths(sh, a + b) && Homing(sh, a + b, key)
  {
    hide Far;
    var trail := a + b;
    forall l, m, n, i | 0 <= l <= m <= n < |trail| && 0 <= i < sh.capacity && trail[l].keys[i] == key
                        && trail[n].keys[i] == key
      ensures trail[m].keys[i] == key
    {
      if l < |a| <= n {
        assert key in a[l].keys && key in b[n - |a|].keys;
        var c :| 0 <= c < sh.capacity && b[0].keys[c] == key;
        assert Far(sh, key, i) == Far(sh, key, c);
        SameFarSameCell(sh, key, i, c);
      }
    }
    forall n, i: nat, c: nat | 0 <= n < |trail| && i < sh.capacity && c < sh.capacity
                               && trail[n].keys[i] == key && trail[|trail| - 1].keys[c] == key
      ensures Far(sh, key, c) <= Far(sh, key, i)
    {
      if n < |a| {
        assert key in a[n].keys && key in b[|b| - 1].keys;
        var c0 :| 0 <= c0 < sh.capacity && b[0].keys[c0] == key;
      }
    }
  }

  /** No assign of the key comes after an erase of it. */
  predicate NeverReassigned<K(==), V>(ops: seq<Operation<K, V>>, key: K) {
    forall i, j :: 0 <= i < j < |ops| && ops[i] == Erase(key) && ops[j].Assign? ==> ops[j].key != key
  }

  lemma NeverReassignedBefore<K, V>(ops: seq<Operation<K, V>>, key: K, n: nat)
    requires n <= |ops| && NeverReassigned(ops, key)
    ensures NeverReassigned(ops[..n], key)
  {
  }

  lemma OperationHoming<K, V>(sh: Shape<K, V>, maxLoad: nat, t: Table<K, V>, op: Operation<K, V>, key: K)
    requires Quiet(sh, maxLoad, t) && key != sh.nullKey
    ensures |t.keys| == |t.values| == sh.capacity > 0
    ensures var tables := OperationTables(sh, maxLoad, t, op);
      && Widths(sh, tables) && Homing(sh, tables, key) && Approaching(sh, tables, key)
      && (key !in t.keys && !(op.Assign? && op.key == key) ==> Absent(tables, key))
      && (op != Erase(key) && key in t.keys ==> key in tables[|tables| - 1].keys)
      && (op != Erase(key) ==> Absent(tables, key) || key in tables[|tables| - 1].keys)
  {
    hide EraseTables, AssignTables, Searchable, Load, Homing, Approaching;
    QuietIsShaped(sh, maxLoad, t);
    match op
    case Assign(k, value) => AssignHoming(sh, maxLoad, t, k, value, key);
    case Erase(k) => EraseHoming(sh, t, k, key);
  }

  /** Over a run without an erase of the key that an assign of it follows, the key is homing; and as long as it
      is not erased, it is not there yet or still there. */
  lemma {:induction false} RunHoming<K, V>(sh: Shape<K, V>, maxLoad: nat, t: Table<K, V>, ops: seq<Operation<K, V>>,
                                           key: K)
    requires Quiet(sh, maxLoad, t) && key != sh.nullKey && NeverReassigned(ops, key)
    ensures sh.capacity > 0
    ensures var tables := RunTables(sh, maxLoad, t, ops);
      && Widths(sh, tables) && Homing(sh, tables, key)
      && (Erase(key) !in ops ==> Absent(tables, key) || key in tables[|tables| - 1].keys)
    decreases |ops|
  {
    hide Quiet, OperationTables, Homing, Approaching;
    QuietIsShaped(sh, maxLoad, t);
    if ops == [] {
      OneIsHoming(sh, maxLoad, t, key);
    } else {
      var n := |ops| - 1;
      var before := RunTables(sh, maxLoad, t, ops[..n]);
      var start := before[|before| - 1];
      NeverReassignedBefore(ops, key, n);
      RunHoming(sh, maxLoad, t, ops[..n], key);
      OperationHoming(sh, maxLoad, start, ops[n], key);
      var after := OperationTables(sh, maxLoad, start, ops[n]);
      if key !in start.keys && ops[n].Assign? && ops[n].key == key {
        assert Erase(key) !in ops[..n];
      }
      HomingTogether(sh, before, after, key);
      if Erase(key) !in ops {
        assert Erase(key) !in ops[..n];
      }
    }
  }

  lemma OneIsHoming<K, V>(sh: Shape<K, V>, maxLoad: nat, t: Table<K, V>, key: K)
    requires Quiet(sh, maxLoad, t) && key != sh.nullKey
    ensures sh.capacity > 0 && Widths(sh, [t]) && Homing(sh, [t], key)
    ensures Absent([t], key) || key in t.keys
  {
    hide Far;
  }

  /** A key that is not assigned again after an erase never comes back to a cell it has left. */
  lemma NeverTakenBackUnlessReassigned<K, V>(sh: Shape<K, V>, maxLoad: nat, t: Table<K, V>,
                                             ops: seq<Operation<K, V>>, key: K)
    requires Quiet(sh, maxLoad, t) && key != sh.nullKey && NeverReassigned(ops, key)
    ensures Widths(sh, RunTables(sh, maxLoad, t, ops)) && NeverTakenBack(sh, key, RunTables(sh, maxLoad, t, ops))
  {
    hide Quiet, RunTables;
    RunHoming(sh, maxLoad, t, ops, key);
  }
}
