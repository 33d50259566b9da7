/** Any number of assigns and erases, one after another: the tables they pass through, and the maps between
    them. */
module WriterRuns {
  import opened ProbingTable
  import opened Stores
  import opened Compaction
  import opened WriterTables

  datatype Operation<K, V> = Assign(key: K, value: V) | Erase(key: K)

  /** What holds of the table whenever no operation is under way. */
  ghost predicate Quiet<K, V>(sh: Shape<K, V>, maxLoad: nat, t: Table<K, V>)
  {
    Searchable(sh, t) && Load(t.keys, sh.nullKey) <= maxLoad < sh.capacity
  }

  lemma QuietIsShaped<K, V>(sh: Shape<K, V>, maxLoad: nat, t: Table<K, V>)
    requires Quiet(sh, maxLoad, t)
    ensures |t.keys| == |t.values| == sh.capacity > 0
  {
  }

  ghost function OperationTables<K, V>(sh: Shape<K, V>, maxLoad: nat, t: Table<K, V>, op: Operation<K, V>)
    : (tables: seq<Table<K, V>>)
    requires Quiet(sh, maxLoad, t)
    ensures tables != [] && tables[0] == t
  {
    match op
    case Assign(key, value) => AssignTables(sh, maxLoad, t, key, value)
    case Erase(key) => EraseTables(sh, t, key)
  }

  /** What an operation makes of a map that has this table. */
  ghost function MapAfter<K, V>(sh: Shape<K, V>, maxLoad: nat, t: Table<K, V>, op: Operation<K, V>): map<K, V>
    requires Quiet(sh, maxLoad, t)
  {
    match op
    case Assign(key, value) =>
      if key == sh.nullKey || value == sh.nullValue || Load(t.keys, sh.nullKey) >= maxLoad then Bindings(sh, t)
      else Bindings(sh, t)[key := value]
    case Erase(key) => Bindings(sh, t) - {key}
  }

  lemma OperationEndsQuiet<K, V>(sh: Shape<K, V>, maxLoad: nat, t: Table<K, V>, op: Operation<K, V>)
    requires Quiet(sh, maxLoad, t)
    ensures var tables := OperationTables(sh, maxLoad, t, op);
            && Quiet(sh, maxLoad, tables[|tables| - 1])
            && Bindings(sh, tables[|tables| - 1]) == MapAfter(sh, maxLoad, t, op)
  {
    hide Searchable, Load, Bindings, EraseTrail, AssignTrail, Reachable, AssignTables, EraseTables, Widths;
    QuietIsShaped(sh, maxLoad, t);
    match op
    case Assign(key, value) => AssignTablesAreTrail(sh, maxLoad, t, key, value);
    case Erase(key) => EraseTablesAreTrail(sh, t, key);
  }

  /** All tables of a run of operations; each operation starts from the table where the last one ended. */
  ghost function RunTables<K, V>(sh: Shape<K, V>, maxLoad: nat, t: Table<K, V>, ops: seq<Operation<K, V>>)
    : (tables: seq<Table<K, V>>)
    requires Quiet(sh, maxLoad, t)
    ensures tables != [] && Quiet(sh, maxLoad, tables[|tables| - 1])
  {
    if ops == [] then [t]
    else
      var n := |ops| - 1;
      var before := RunTables(sh, maxLoad, t, ops[..n]);
      OperationEndsQuiet(sh, maxLoad, before[|before| - 1], ops[n]);
      before + OperationTables(sh, maxLoad, before[|before| - 1], ops[n])
  }

  /** The table after the first n operations. */
  ghost function Boundary<K, V>(sh: Shape<K, V>, maxLoad: nat, t: Table<K, V>, ops: seq<Operation<K, V>>, n: nat)
    : (u: Table<K, V>)
    requires Quiet(sh, maxLoad, t) && n <= |ops|
    ensures Quiet(sh, maxLoad, u)
  {
    var tables := RunTables(sh, maxLoad, t, ops[..n]);
    tables[|tables| - 1]
  }

  lemma BoundaryAfter<K, V>(sh: Shape<K, V>, maxLoad: nat, t: Table<K, V>, ops: seq<Operation<K, V>>, n: nat)
    requires Quiet(sh, maxLoad, t) && n < |ops|
    ensures var u := Boundary(sh, maxLoad, t, ops, n);
            && RunTables(sh, maxLoad, t, ops[..n + 1])
               == RunTables(sh, maxLoad, t, ops[..n]) + OperationTables(sh, maxLoad, u, ops[n])
            && Bindings(sh, Boundary(sh, maxLoad, t, ops, n + 1)) == MapAfter(sh, maxLoad, u, ops[n])
  {
    hide Quiet, Bindings, MapAfter, OperationTables;
    assert ops[..n + 1][..n] == ops[..n];
    var u := Boundary(sh, maxLoad, t, ops, n);
    OperationEndsQuiet(sh, maxLoad, u, ops[n]);
  }

  /** The key was bound to the value between two operations. */
  ghost predicate HadValue<K, V>(sh: Shape<K, V>, maxLoad: nat, t: Table<K, V>, ops: seq<Operation<K, V>>, k: K, v: V)
    requires Quiet(sh, maxLoad, t)
  {
    exists n: nat :: n <= |ops| && HasValue(sh, Boundary(sh, maxLoad, t, ops, n), k, v)
  }

  ghost predicate HasValue<K, V>(sh: Shape<K, V>, t: Table<K, V>, k: K, v: V)
  {
    |t.keys| == |t.values| && k in Bindings(sh, t) && Bindings(sh, t)[k] == v
  }

  /** Every value is one that the key of its cell had before or after the operation, or null. */
  lemma OperationValues<K, V>(sh: Shape<K, V>, maxLoad: nat, t: Table<K, V>, op: Operation<K, V>, n: nat, i: nat)
    requires Quiet(sh, maxLoad, t)
    requires n < |OperationTables(sh, maxLoad, t, op)| && i < sh.capacity
    ensures var tables := OperationTables(sh, maxLoad, t, op); var u := tables[n];
            && |u.keys| == |u.values| == sh.capacity
            && (u.keys[i] != sh.nullKey && u.values[i] != sh.nullValue ==>
                  || HasValue(sh, t, u.keys[i], u.values[i])
                  || HasValue(sh, tables[|tables| - 1], u.keys[i], u.values[i]))
  {
    hide Searchable, Load, Bindings, AssignTables, EraseTables, Reachable, NoReturn, KeysStick;
    QuietIsShaped(sh, maxLoad, t);
    OperationEndsQuiet(sh, maxLoad, t, op);
    var tables := OperationTables(sh, maxLoad, t, op);
    match op
    case Erase(key) =>
      EraseTablesAreTrail(sh, t, key);
    case Assign(key, value) =>
      AssignTablesAreTrail(sh, maxLoad, t, key, value);
      if tables[n].keys[i] != sh.nullKey {
        BoundInSearchable(sh, tables[n], i);
        QuietIsShaped(sh, maxLoad, tables[|tables| - 1]);
        AssignedWhileMoving(sh, maxLoad, t, key, value, n);
      }
  }

  /** An assign that changes the map at all succeeds. */
  lemma AssignedWhileMoving<K, V>(sh: Shape<K, V>, maxLoad: nat, t: Table<K, V>, key: K, value: V, n: nat)
    requires Quiet(sh, maxLoad, t) && |t.keys| == |t.values| == sh.capacity > 0
    requires n < |AssignTables(sh, maxLoad, t, key, value)|
    ensures n > 0 ==> key != sh.nullKey && value != sh.nullValue && Load(t.keys, sh.nullKey) < maxLoad
    ensures n == 0 ==> AssignTables(sh, maxLoad, t, key, value)[n] == t
  {
  }

  lemma HadEarlier<K, V>(sh: Shape<K, V>, maxLoad: nat, t: Table<K, V>, ops: seq<Operation<K, V>>, n: nat, k: K, v: V)
    requires Quiet(sh, maxLoad, t) && n <= |ops| && HadValue(sh, maxLoad, t, ops[..n], k, v)
    ensures HadValue(sh, maxLoad, t, ops, k, v)
  {
    hide Quiet, HasValue, RunTables;
    var j: nat :| j <= n && HasValue(sh, Boundary(sh, maxLoad, t, ops[..n], j), k, v);
    assert ops[..n][..j] == ops[..j];
    assert HasValue(sh, Boundary(sh, maxLoad, t, ops, j), k, v);
  }

  /** Whatever value stands beside a key in any table of a run, the key had it between two operations. */
  lemma {:induction false} RunValues<K, V>(sh: Shape<K, V>, maxLoad: nat, t: Table<K, V>, ops: seq<Operation<K, V>>,
                                           n: nat, i: nat)
    requires Quiet(sh, maxLoad, t) && n < |RunTables(sh, maxLoad, t, ops)| && i < sh.capacity
    ensures var u := RunTables(sh, maxLoad, t, ops)[n];
            && |u.keys| == |u.values| == sh.capacity
            && (u.keys[i] != sh.nullKey && u.values[i] != sh.nullValue ==>
                  HadValue(sh, maxLoad, t, ops, u.keys[i], u.values[i]))
    decreases |ops|
  {
    hide Quiet, HasValue, Bindings, OperationTables;
    if ops == [] {
      FirstValues(sh, maxLoad, t, i);
      assert Boundary(sh, maxLoad, t, ops, 0) == t;
    } else {
      var last := |ops| - 1;
      var before := RunTables(sh, maxLoad, t, ops[..last]);
      var start := Boundary(sh, maxLoad, t, ops, last);
      var u := RunTables(sh, maxLoad, t, ops)[n];
      if n < |before| {
        RunValues(sh, maxLoad, t, ops[..last], n, i);
        if u.keys[i] != sh.nullKey && u.values[i] != sh.nullValue {
          HadEarlier(sh, maxLoad, t, ops, last, u.keys[i], u.values[i]);
        }
      } else {
        OperationValues(sh, maxLoad, start, ops[last], n - |before|, i);
        BoundaryAfter(sh, maxLoad, t, ops, last);
        assert ops[..last + 1] == ops;
        assert Boundary(sh, maxLoad, t, ops, last + 1)
            == OperationTables(sh, maxLoad, start, ops[last])[|OperationTables(sh, maxLoad, start, ops[last])| - 1];
      }
    }
  }

  lemma FirstValues<K, V>(sh: Shape<K, V>, maxLoad: nat, t: Table<K, V>, i: nat)
    requires Quiet(sh, maxLoad, t) && i < sh.capacity
    ensures |t.keys| == |t.values| == sh.capacity
    ensures t.keys[i] != sh.nullKey ==> HasValue(sh, t, t.keys[i], t.values[i])
  {
    if t.keys[i] != sh.nullKey {
      BoundInSearchable(sh, t, i);
    }
  }

  lemma ReachableTogether<K, V>(sh: Shape<K, V>, a: seq<Table<K, V>>, b: seq<Table<K, V>>)
    requires Widths(sh, a) && Widths(sh, b) && Reachable(sh, a) && Reachable(sh, b)
    ensures Widths(sh, a + b) && Reachable(sh, a + b)
  {
    hide Clear, FoundBy;
    var trail := a + b;
    forall n: nat, i: nat | n < |trail| && i < sh.capacity ensures FoundBy(sh, trail, n, i) {
      if n < |a| {
        assert FoundBy(sh, a, n, i);
        FoundLater(sh, a, n, b, n, i);
      } else {
        assert FoundBy(sh, b, n - |a|, i);
        FoundAfter(sh, a, b, n - |a|, i);
      }
    }
  }

  lemma FoundAfter<K, V>(sh: Shape<K, V>, a: seq<Table<K, V>>, b: seq<Table<K, V>>, n: nat, i: nat)
    requires Widths(sh, b) && Widths(sh, a + b) && n < |b| && i < sh.capacity && FoundBy(sh, b, n, i)
    ensures FoundBy(sh, a + b, |a| + n, i)
  {
    hide Clear;
    if b[n].keys[i] != sh.nullKey {
      var l: nat :| l <= n && ClearAt(sh, b, l, b[n].keys[i], i);
      assert ClearAt(sh, a + b, |a| + l, b[n].keys[i], i);
    }
  }

  lemma OperationReachable<K, V>(sh: Shape<K, V>, maxLoad: nat, t: Table<K, V>, op: Operation<K, V>)
    requires Quiet(sh, maxLoad, t)
    ensures Widths(sh, OperationTables(sh, maxLoad, t, op)) && Reachable(sh, OperationTables(sh, maxLoad, t, op))
  {
    hide Searchable, Load, Bindings, AssignTables, EraseTables, NoReturn, KeysStick, FoundBy, Faithful;
    QuietIsShaped(sh, maxLoad, t);
    match op
    case Erase(key) => EraseTablesAreTrail(sh, t, key);
    case Assign(key, value) =>
      AssignTablesAreTrail(sh, maxLoad, t, key, value);
      var trail := AssignTables(sh, maxLoad, t, key, value);
      forall n: nat, i: nat | n < |trail| && i < sh.capacity ensures FoundBy(sh, trail, n, i) {
        SearchableFinds(sh, trail, n, i);
      }
  }

  lemma {:induction false} RunReachable<K, V>(sh: Shape<K, V>, maxLoad: nat, t: Table<K, V>,
                                              ops: seq<Operation<K, V>>)
    requires Quiet(sh, maxLoad, t)
    ensures Widths(sh, RunTables(sh, maxLoad, t, ops)) && Reachable(sh, RunTables(sh, maxLoad, t, ops))
    decreases |ops|
  {
    hide Searchable, Reachable, Widths, OperationTables;
    if ops == [] {
      SearchableIsReachable(sh, t);
    } else {
      var n := |ops| - 1;
      var before := RunTables(sh, maxLoad, t, ops[..n]);
      RunReachable(sh, maxLoad, t, ops[..n]);
      OperationReachable(sh, maxLoad, before[|before| - 1], ops[n]);
      ReachableTogether(sh, before, OperationTables(sh, maxLoad, before[|before| - 1], ops[n]));
    }
  }

  /** Assigns alone never take a cell away from a key, and every table they pass through is searchable. */
  ghost predicate Growing<K, V>(sh: Shape<K, V>, trail: seq<Table<K, V>>)
  {
    Widths(sh, trail) && KeysStick(sh, trail) && forall n :: 0 <= n < |trail| ==> Searchable(sh, trail[n])
  }

  lemma GrowingTogether<K, V>(sh: Shape<K, V>, a: seq<Table<K, V>>, b: seq<Table<K, V>>)
    requires Growing(sh, a) && Growing(sh, b) && a != [] && b != [] && a[|a| - 1] == b[0]
    ensures Growing(sh, a + b)
  {
    hide Searchable;
    var trail := a + b;
    forall m, n, i | 0 <= m <= n < |trail| && 0 <= i < sh.capacity && trail[m].keys[i] != sh.nullKey
      ensures trail[n].keys[i] == trail[m].keys[i]
    {
      if m < |a| <= n {
        assert a[|a| - 1].keys[i] == a[m].keys[i];
        assert b[n - |a|].keys[i] == b[0].keys[i];
      }
    }
  }

  lemma {:induction false} AssignsGrow<K, V>(sh: Shape<K, V>, maxLoad: nat, t: Table<K, V>,
                                             ops: seq<Operation<K, V>>)
    requires Quiet(sh, maxLoad, t) && forall n :: 0 <= n < |ops| ==> ops[n].Assign?
    ensures Growing(sh, RunTables(sh, maxLoad, t, ops))
    decreases |ops|
  {
    hide Searchable, Load, Bindings, AssignTables, Growing;
    if ops == [] {
      OneIsGrowing(sh, maxLoad, t);
    } else {
      var n := |ops| - 1;
      var before := RunTables(sh, maxLoad, t, ops[..n]);
      var start := before[|before| - 1];
      AssignsGrow(sh, maxLoad, t, ops[..n]);
      QuietIsShaped(sh, maxLoad, start);
      AssignTablesAreTrail(sh, maxLoad, start, ops[n].key, ops[n].value);
      AssignTrailIsGrowing(sh, OperationTables(sh, maxLoad, start, ops[n]), Bindings(sh, start), ops[n].key,
                           ops[n].value);
      GrowingTogether(sh, before, OperationTables(sh, maxLoad, start, ops[n]));
    }
  }

  lemma OneIsGrowing<K, V>(sh: Shape<K, V>, maxLoad: nat, t: Table<K, V>)
    requires Quiet(sh, maxLoad, t)
    ensures Growing(sh, [t])
  {
  }

  lemma AssignTrailIsGrowing<K, V>(sh: Shape<K, V>, trail: seq<Table<K, V>>, before: map<K, V>, key: K, value: V)
    requires AssignTrail(sh, trail, before, key, value)
    ensures Growing(sh, trail)
  {
  }
}
