/** The context-dependent hash map: a table, a circular list in insertion order, and
    elements that save their data on the first change in a scope. */
module ContextMap {
  import opened Terms

  /** What an element was at a level of the context. */
  datatype Version<D> = Version(level: nat, data: D, inMap: bool)

  /** The levels of the versions increase from the bottom scope. */
  ghost predicate Ascending<D>(vs: seq<Version<D>>) {
    vs != [] && vs[0].level == 0 && forall i, j | 0 <= i < j < |vs| :: vs[i].level < vs[j].level
  }

  /** The version that was current at a level. */
  ghost function ValueAt<D>(vs: seq<Version<D>>, i: nat): Version<D>
    requires Ascending(vs)
  {
    if |vs| == 1 || vs[|vs| - 1].level <= i then vs[|vs| - 1]
    else (AscendingFront(vs); ValueAt(vs[..|vs| - 1], i))
  }

  lemma {:induction false} AscendingFront<D>(vs: seq<Version<D>>)
    requires Ascending(vs) && |vs| > 1
    ensures Ascending(vs[..|vs| - 1])
  {
  }

  /** Older levels see the same version after a newer one is added, or taken off. */
  lemma {:induction false} ValueAtOlder<D>(vs: seq<Version<D>>, v: Version<D>, i: nat)
    requires Ascending(vs + [v]) && vs != [] && i < v.level
    ensures Ascending(vs) && ValueAt(vs + [v], i) == ValueAt(vs, i)
  {
    AscendingFront(vs + [v]);
    assert (vs + [v])[..|vs|] == vs;
  }

  /** Changing the newest version in place shows only from its level on. */
  lemma {:induction false} ValueAtReplace<D>(vs: seq<Version<D>>, v: Version<D>, w: Version<D>, i: nat)
    requires Ascending(vs + [v]) && v.level == w.level && i < v.level
    ensures Ascending(vs + [w]) && ValueAt(vs + [w], i) == ValueAt(vs + [v], i)
  {
    var a, b := vs + [v], vs + [w];
    assert a[0] == if vs == [] then v else vs[0];
    assert Ascending(b) by {
      assert b[0] == a[0];
      forall j, k | 0 <= j < k < |b| ensures b[j].level < b[k].level {
        assert a[j].level < a[k].level;
      }
    }
    ValueAtOlder(vs, v, i);
    ValueAtOlder(vs, w, i);
  }

  lemma {:induction false} AscendingAppend<D>(vs: seq<Version<D>>, v: Version<D>)
    requires Ascending(vs) && vs[|vs| - 1].level < v.level
    ensures Ascending(vs + [v])
  {
  }

  class Element<K, D> {
    const key: K
    var data: D
    /** Does the element know its map? */
    var inMap: bool
    var prev: Element?<K, D>
    var next: Element?<K, D>
    /** The scope of the last change, and the saved copies of older scopes, oldest first. */
    var level: nat
    var saved: seq<Version<D>>

    constructor (key: K, data: D)
      ensures this.key == key && this.data == data && !inMap && level == 0 && saved == []
    {
      this.key, this.data, inMap, prev, next, level, saved := key, data, false, null, null, 0, [];
    }

    ghost function Versions(): seq<Version<D>>
      reads this`data, this`inMap, this`level, this`saved
    {
      saved + [Version(level, data, inMap)]
    }

    /** Before the first change in a scope, a copy is saved. */
    method MakeCurrent(current: nat) returns (changed: bool)
      requires level <= current && Ascending(Versions())
      modifies this`level, this`saved
      ensures level == current && Ascending(Versions())
      ensures changed <==> old(level) < current
      ensures Versions() == if changed then old(Versions()) + [Version(current, data, inMap)] else old(Versions())
      ensures saved == if changed then old(Versions()) else old(saved)
    {
      changed := level < current;
      if changed {
        AscendingAppend(Versions(), Version(current, data, inMap));
        saved := saved + [Version(level, data, inMap)];
        level := current;
      }
    }

    /** A pop puts the last saved copy back. Whether the element knows its map is not put back. */
    method Restore()
      requires saved != []
      modifies this`data, this`level, this`saved
      ensures saved + [Version(level, data, old(saved)[|old(saved)| - 1].inMap)] == old(saved)
    {
      var copy := saved[|saved| - 1];
      data, level, saved := copy.data, copy.level, saved[..|saved| - 1];
    }
  }

  // ----- the circular list -----

  function After(n: nat, j: nat): (k: nat)
    requires j < n
    ensures k < n
  {
    if j + 1 == n then 0 else j + 1
  }

  /** The elements are linked in a circle, in this order. */
  ghost predicate Circular<K, D>(order: seq<Element<K, D>>)
    reads order`prev, order`next
  {
    Distinct(order) &&
    forall j: nat | j < |order| ::
      var k := After(|order|, j);
      order[j].next == order[k] && order[k].prev == order[j]
  }

  /** Appends an element to the circle. */
  method Link<K, D>(first: Element?<K, D>, e: Element<K, D>, ghost order: seq<Element<K, D>>)
      returns (first': Element<K, D>)
    requires Circular(order) && e !in order
    requires first == if order == [] then null else order[0]
    modifies e`prev, e`next, order`prev, order`next
    ensures Circular(order + [e]) && first' == (order + [e])[0]
  {
    if first == null {
      first' := e;
      e.prev, e.next := e, e;
    } else {
      first' := first;
      ghost var n := |order|;
      assert After(n, n - 1) == 0;
      var last := first.prev;
      assert last == order[n - 1];
      e.prev := last;
      e.next := first;
      e.prev.next := e;
      first.prev := e;
    }
  }

  ghost function Without<T>(xs: seq<T>, j: nat): seq<T>
    requires j < |xs|
  {
    xs[..j] + xs[j + 1..]
  }

  /** Takes an element out of the circle, wherever it is. */
  method Unlink<K, D>(first: Element<K, D>, e: Element<K, D>, ghost order: seq<Element<K, D>>, ghost j: nat)
      returns (first': Element?<K, D>)
    requires Circular(order) && j < |order| && order[j] == e && first == order[0]
    modifies order`prev, order`next
    ensures Circular(Without(order, j))
    ensures first' == if |order| == 1 then null else Without(order, j)[0]
  {
    hide Distinct, Without;
    ghost var n := |order|;
    ghost var before := if j == 0 then n - 1 else j - 1;
    WithoutFirst(order, j);
    assert After(n, before) == j && e.prev == order[before] && e.next == order[After(n, j)];
    first' := first;
    if first == e {
      if e.next == e {
        first' := null;
      } else {
        first' := e.next;
      }
    }
    var next, prev := e.next, e.prev;
    ghost var rest := Without(order, j);
    assert forall i: nat | i < n :: order[i].next == order[After(n, i)] && order[After(n, i)].prev == order[i];
    next.prev := prev;
    prev.next := next;
    forall m: nat | m < |rest|
      ensures rest[m].next == rest[After(|rest|, m)] && rest[After(|rest|, m)].prev == rest[m]
    {
      var i := WithoutNeighbours(order, j, m);
      if After(n, i) == j {
        assert i == before && rest[m] == prev && rest[After(|rest|, m)] == next;
      }
    }
  }

  lemma {:induction false} WithoutFirst<T>(order: seq<T>, j: nat)
    requires Distinct(order) && j < |order|
    ensures |Without(order, j)| == |order| - 1 && Distinct(Without(order, j))
    ensures |order| > 1 ==> Without(order, j)[0] == order[if j == 0 then 1 else 0] && order[j] != order[After(|order|, j)]
    ensures j > 0 ==> order[j] != order[0]
  {
  }

  /** Who follows whom without the element at `j`. */
  lemma {:induction false} WithoutNeighbours<T>(order: seq<T>, j: nat, m: nat) returns (i: nat)
    requires Distinct(order) && j < |order| && m < |Without(order, j)|
    ensures i < |order| && i != j && Without(order, j)[m] == order[i] && Distinct(Without(order, j))
    ensures var n, k := |order|, After(|order|, i);
            Without(order, j)[After(n - 1, m)] == order[if k == j then After(n, j) else k] &&
            (k == j <==> i == if j == 0 then n - 1 else j - 1) && order[k] != order[After(n, j)] &&
            (k != j ==> order[i] != order[if j == 0 then n - 1 else j - 1])
  {
    i := if m < j then m else m + 1;
  }

  // ----- rows: an element's key and its versions -----

  datatype Row<K, D> = Row(key: K, versions: seq<Version<D>>)

  ghost function Rows<K, D>(order: seq<Element<K, D>>): seq<Row<K, D>>
    reads order
  {
    seq(|order|, j requires 0 <= j < |order| reads order => Row(order[j].key, order[j].Versions()))
  }

  ghost function Newest<D>(vs: seq<Version<D>>): Version<D>
    requires vs != []
  {
    vs[|vs| - 1]
  }

  /** In the map since the level of its second version at the latest. */
  ghost predicate RowOk<K, D>(r: Row<K, D>, level: nat) {
    Ascending(r.versions) && Newest(r.versions).level <= level && Newest(r.versions).inMap &&
    forall i | 1 <= i < |r.versions| :: r.versions[i].inMap
  }

  ghost function Contents<K, D>(rows: seq<Row<K, D>>): seq<(K, D)>
    requires forall j | 0 <= j < |rows| :: rows[j].versions != []
  {
    seq(|rows|, j requires 0 <= j < |rows| => (rows[j].key, Newest(rows[j].versions).data))
  }

  /** The row agrees with the snapshot of a level. */
  ghost predicate Agrees<K, D>(r: Row<K, D>, snap: seq<(K, D)>, j: nat, i: nat)
    requires Ascending(r.versions)
  {
    var v := ValueAt(r.versions, i);
    if j < |snap| then v.inMap && snap[j] == (r.key, v.data) else !v.inMap
  }

  /** The snapshot of level `i` is a prefix of the rows, as they were at that level. */
  ghost predicate SnapOk<K, D>(rows: seq<Row<K, D>>, snap: seq<(K, D)>, i: nat) {
    |snap| <= |rows| && forall j: nat | j < |rows| :: Ascending(rows[j].versions) && Agrees(rows[j], snap, j, i)
  }

  ghost predicate RowsOk<K, D>(rows: seq<Row<K, D>>, level: nat, snaps: seq<seq<(K, D)>>) {
    && |snaps| == level
    && (forall j | 0 <= j < |rows| :: RowOk(rows[j], level))
    && (forall i: nat | i < level :: SnapOk(rows, snaps[i], i))
  }

  ghost function NewVersions<D>(level: nat, d: D): seq<Version<D>> {
    if level == 0 then [Version(0, d, true)] else [Version(0, d, false), Version(level, d, true)]
  }

  ghost function SetVersions<D>(vs: seq<Version<D>>, level: nat, d: D): seq<Version<D>>
    requires vs != []
  {
    (if Newest(vs).level < level then vs else vs[..|vs| - 1]) + [Version(level, d, true)]
  }

  lemma {:induction false} InsertRows<K, D>(rows: seq<Row<K, D>>, level: nat, snaps: seq<seq<(K, D)>>, k: K, d: D)
    requires RowsOk(rows, level, snaps)
    ensures RowsOk(rows + [Row(k, NewVersions(level, d))], level, snaps)
  {
    var r := Row(k, NewVersions(level, d));
    var rows' := rows + [r];
    assert RowOk(r, level);
    forall i: nat | i < level ensures SnapOk(rows', snaps[i], i) {
      assert SnapOk(rows, snaps[i], i);
      assert r.versions[..1] == [Version(0, d, false)];
      assert ValueAt(r.versions, i) == Version(0, d, false);
    }
  }

  lemma {:induction false} SetVersionsOk<K, D>(r: Row<K, D>, level: nat, d: D)
    requires RowOk(r, level)
    ensures RowOk(Row(r.key, SetVersions(r.versions, level, d)), level)
    ensures forall i: nat | i < level :: ValueAt(SetVersions(r.versions, level, d), i) == ValueAt(r.versions, i)
  {
    var vs, w := r.versions, Version(level, d, true);
    if Newest(vs).level < level {
      AscendingAppend(vs, w);
      forall i: nat | i < level ensures ValueAt(vs + [w], i) == ValueAt(vs, i) {
        ValueAtOlder(vs, w, i);
      }
    } else {
      var front := vs[..|vs| - 1];
      assert vs == front + [Newest(vs)];
      SameLevel(front, Newest(vs), w);
      forall i: nat | i < level ensures ValueAt(front + [w], i) == ValueAt(vs, i) {
        ValueAtReplace(front, Newest(vs), w, i);
      }
    }
  }

  lemma {:induction false} SameLevel<D>(vs: seq<Version<D>>, v: Version<D>, w: Version<D>)
    requires Ascending(vs + [v]) && v.level == w.level
    ensures Ascending(vs + [w])
  {
    var a, b := vs + [v], vs + [w];
    assert b[0].level == a[0].level;
    forall j, k | 0 <= j < k < |b| ensures b[j].level < b[k].level {
      assert a[j].level < a[k].level;
    }
  }

  lemma {:induction false} SetRows<K, D>(rows: seq<Row<K, D>>, level: nat, snaps: seq<seq<(K, D)>>, p: nat, d: D)
    requires RowsOk(rows, level, snaps) && p < |rows|
    ensures RowsOk(rows[p := Row(rows[p].key, SetVersions(rows[p].versions, level, d))], level, snaps)
  {
    SetVersionsOk(rows[p], level, d);
    var rows' := rows[p := Row(rows[p].key, SetVersions(rows[p].versions, level, d))];
    forall i: nat | i < level ensures SnapOk(rows', snaps[i], i) {
      assert SnapOk(rows, snaps[i], i);
      assert Agrees(rows[p], snaps[i], p, i);
    }
  }

  lemma {:induction false} ValueAtNewest<D>(vs: seq<Version<D>>, i: nat)
    requires Ascending(vs) && Newest(vs).level <= i
    ensures ValueAt(vs, i) == Newest(vs)
  {
  }

  lemma {:induction false} PushRows<K, D>(rows: seq<Row<K, D>>, level: nat, snaps: seq<seq<(K, D)>>)
    requires RowsOk(rows, level, snaps)
    ensures RowsOk(rows, level + 1, snaps + [Contents(rows)])
  {
    var snaps' := snaps + [Contents(rows)];
    forall i: nat | i < level + 1 ensures SnapOk(rows, snaps'[i], i) {
      if i < level {
        assert SnapOk(rows, snaps[i], i);
      } else {
        forall j: nat | j < |rows| ensures Ascending(rows[j].versions) && Agrees(rows[j], snaps'[i], j, i) {
          assert RowOk(rows[j], level);
          ValueAtNewest(rows[j].versions, i);
        }
      }
    }
  }

  /** The row after the scope `level` is restored. */
  ghost function RestoreRow<K, D>(r: Row<K, D>, level: nat): Row<K, D>
    requires r.versions != []
  {
    if Newest(r.versions).level == level && |r.versions| > 1 then r.(versions := r.versions[..|r.versions| - 1]) else r
  }

  /** What a pop finds: the elements inserted in the scope are those after the snapshot,
      each with a saved copy that was in no map; all others were in the map before. */
  lemma {:induction false} PopRow<K, D>(rows: seq<Row<K, D>>, level: nat, snaps: seq<seq<(K, D)>>, j: nat)
    requires RowsOk(rows, level, snaps) && level > 0 && j < |rows|
    ensures var r := RestoreRow(rows[j], level);
            Ascending(r.versions) && Newest(r.versions).level < level &&
            (Newest(r.versions).inMap <==> j < |snaps[level - 1]|) &&
            (j >= |snaps[level - 1]| ==> Newest(rows[j].versions).level == level) &&
            (forall i: nat | i < level :: ValueAt(r.versions, i) == ValueAt(rows[j].versions, i))
  {
    var vs, r := rows[j].versions, RestoreRow(rows[j], level);
    assert RowOk(rows[j], level);
    assert SnapOk(rows, snaps[level - 1], level - 1);
    assert Agrees(rows[j], snaps[level - 1], j, level - 1);
    if r != rows[j] {
      AscendingFront(vs);
      assert vs == r.versions + [Newest(vs)];
      forall i: nat | i < level ensures ValueAt(r.versions, i) == ValueAt(vs, i) {
        ValueAtOlder(r.versions, Newest(vs), i);
      }
    }
    ValueAtNewest(r.versions, level - 1);
  }

  ghost function PopRows<K, D>(rows: seq<Row<K, D>>, level: nat, n: nat): seq<Row<K, D>>
    requires n <= |rows| && forall j | 0 <= j < |rows| :: rows[j].versions != []
  {
    seq(n, j requires 0 <= j < n => RestoreRow(rows[j], level))
  }

  /** Restoring every changed element of the scope gives the snapshot of the level below. */
  lemma {:induction false} PopRowsOk<K, D>(rows: seq<Row<K, D>>, level: nat, snaps: seq<seq<(K, D)>>)
    requires RowsOk(rows, level, snaps) && level > 0
    ensures |snaps[level - 1]| <= |rows|
    ensures var rows' := PopRows(rows, level, |snaps[level - 1]|);
            RowsOk(rows', level - 1, snaps[..level - 1]) && Contents(rows') == snaps[level - 1]
  {
    assert SnapOk(rows, snaps[level - 1], level - 1);
    var n := |snaps[level - 1]|;
    var rows' := PopRows(rows, level, n);
    forall j | 0 <= j < n
      ensures RowOk(rows'[j], level - 1) && snaps[level - 1][j] == (rows'[j].key, Newest(rows'[j].versions).data)
    {
      PopRow(rows, level, snaps, j);
      assert RowOk(rows[j], level);
      ValueAtNewest(rows'[j].versions, level - 1);
      assert Agrees(rows[j], snaps[level - 1], j, level - 1);
    }
    forall i: nat | i < level - 1 ensures SnapOk(rows', snaps[i], i) {
      assert SnapOk(rows, snaps[i], i);
      SnapsGrow(rows, level, snaps, i);
      forall j: nat | j < n ensures Ascending(rows'[j].versions) && Agrees(rows'[j], snaps[i], j, i) {
        PopRow(rows, level, snaps, j);
        assert Agrees(rows[j], snaps[i], j, i);
      }
    }
  }

  /** Older snapshots are no longer than the newest one. */
  lemma {:induction false} SnapsGrow<K, D>(rows: seq<Row<K, D>>, level: nat, snaps: seq<seq<(K, D)>>, i: nat)
    requires RowsOk(rows, level, snaps) && i < level
    ensures |snaps[i]| <= |snaps[level - 1]|
  {
    var n := |snaps[level - 1]|;
    assert SnapOk(rows, snaps[i], i) && SnapOk(rows, snaps[level - 1], level - 1);
    if n < |snaps[i]| {
      assert Agrees(rows[n], snaps[i], n, i) && Agrees(rows[n], snaps[level - 1], n, level - 1);
      assert RowOk(rows[n], level);
      InMapStays(rows[n], level, i, level - 1);
    }
  }

  lemma {:induction false} InMapStays<K, D>(r: Row<K, D>, level: nat, i: nat, k: nat)
    requires RowOk(r, level) && i <= k && ValueAt(r.versions, i).inMap
    ensures ValueAt(r.versions, k).inMap
  {
    var p := ValueAtIndex(r.versions, i);
    var q := ValueAtIndex(r.versions, k);
    assert p <= q;
  }

  /** The version of a level is one of the versions: the newest one up to that level. */
  lemma {:induction false} ValueAtIndex<D>(vs: seq<Version<D>>, i: nat) returns (p: nat)
    requires Ascending(vs)
    ensures p < |vs| && ValueAt(vs, i) == vs[p] && vs[p].level <= i && (p + 1 < |vs| ==> i < vs[p + 1].level)
    decreases |vs|
  {
    if |vs| == 1 || Newest(vs).level <= i {
      p := |vs| - 1;
    } else {
      AscendingFront(vs);
      p := ValueAtIndex(vs[..|vs| - 1], i);
    }
  }

  // ----- the map -----

  /** The table holds exactly the elements of the list, each under its own key. */
  ghost predicate TableOk<K, D>(table: map<K, Element<K, D>>, order: seq<Element<K, D>>) {
    (forall k | k in table :: table[k].key == k && table[k] in order) &&
    (forall e | e in order :: e.key in table && table[e.key] == e)
  }

  /** A scope lists the elements changed in it. */
  ghost predicate ChangedOk<K, D>(changed: set<Element<K, D>>, l: nat, order: seq<Element<K, D>>, rows: seq<Row<K, D>>)
    requires |rows| == |order|
  {
    (forall e | e in changed :: e in order) &&
    (forall j: nat | j < |order| :: order[j] in changed <==> HasLevel(rows[j].versions, l))
  }

  ghost predicate HasLevel<D>(vs: seq<Version<D>>, l: nat) {
    exists i: nat :: i < |vs| && vs[i].level == l
  }

  ghost predicate MapOk<K, D>(table: map<K, Element<K, D>>, first: Element?<K, D>, changed: seq<set<Element<K, D>>>,
      order: seq<Element<K, D>>, rows: seq<Row<K, D>>, level: nat, snaps: seq<seq<(K, D)>>)
  {
    && |rows| == |order|
    && (first == if order == [] then null else order[0])
    && TableOk(table, order)
    && RowsOk(rows, level, snaps)
    && |changed| == level
    && (forall l: nat | l < level :: ChangedOk(changed[l], l + 1, order, rows))
  }

  class CDHashMap<K(==), D> {
    var table: map<K, Element<K, D>>
    var first: Element?<K, D>
    /** The context: its level, and for each scope above the bottom one the elements changed in it. */
    var level: nat
    var changed: seq<set<Element<K, D>>>
    ghost var order: seq<Element<K, D>>
    /** What the map was when each open scope was opened. */
    ghost var snaps: seq<seq<(K, D)>>

    ghost predicate Valid()
      reads this, order
    {
      Circular(order) && MapOk(table, first, changed, order, Rows(order), level, snaps)
    }

    /** The entries, in insertion order. */
    ghost function Current(): seq<(K, D)>
      reads this, order
      requires Valid()
    {
      RowsNonempty(Rows(order), level, snaps);
      Contents(Rows(order))
    }

    constructor ()
      ensures Valid() && Current() == [] && snaps == []
    {
      table, first, level, changed, order, snaps := map[], null, 0, [], [], [];
    }

    method Push()
      requires Valid()
      modifies this`level, this`changed, this`snaps
      ensures Valid() && level == old(level) + 1
      ensures Current() == old(Current()) && snaps == old(snaps) + [old(Current())]
      ensures table == old(table) && order == old(order)
    {
      PushOk(table, first, changed, order, Rows(order), level, snaps);
      snaps := snaps + [Current()];
      level := level + 1;
      changed := changed + [{}];
    }

    /** The data under a key, by a lookup in the table. */
    method Find(k: K) returns (r: Option<D>)
      requires Valid()
      ensures forall d :: r == Some(d) <==> (k, d) in Current()
    {
      hide MapOk, Circular, Contents, Rows;
      if k !in table {
        NoEntry(k);
        r := None;
      } else {
        ghost var p := EntryAt(k);
        r := Some(table[k].data);
      }
    }

    /** Follows the list from its first element until it comes round. */
    method Entries() returns (xs: seq<(K, D)>)
      requires Valid()
      ensures xs == Current()
    {
      xs := [];
      var it := first;
      ghost var i := 0;
      while it != null
        invariant 0 <= i <= |order|
        invariant it == if i < |order| then order[i] else null
        invariant xs == Current()[..i]
        decreases |order| - i
      {
        assert Current()[i] == (it.key, it.data);
        xs := xs + [(it.key, it.data)];
        assert it.next == order[After(|order|, i)];
        it := if it.next == first then null else it.next;
        i := i + 1;
      }
    }

    /** Restores an element. One whose saved copy was in no map leaves the table and the list. */
    method RestoreElement(e: Element<K, D>, ghost j: nat)
      requires Circular(order) && j < |order| && order[j] == e && TableOk(table, order)
      requires first == order[0] && e.saved != []
      modifies this`table, this`first, this`order, order
      ensures order == AfterRestore(old(order), j, Newest(old(e.saved)).inMap)
      ensures Circular(order) && TableOk(table, order) && first == if order == [] then null else order[0]
      ensures Newest(old(e.saved)).inMap ==> e.saved + [Version(e.level, e.data, true)] == old(e.saved)
      ensures forall x | x in old(order) :: x.inMap == old(x.inMap)
      ensures forall x | x in old(order) && x != e :: x.Versions() == old(x.Versions())
    {
      hide Circular, TableOk;
      var copy := e.saved[|e.saved| - 1];
      if copy.inMap {
        e.Restore();
      } else {
        DistinctOfCircular(order);
        TableWithout(table, order, j);
        table := table - {e.key};
        first := Unlink(first, e, order, j);
        order := Without(order, j);
      }
    }

    /** Restoring an element changes no other row of the list as it was before the pop. */
    method RestoreRowOf(e: Element<K, D>, ghost j: nat, ghost order0: seq<Element<K, D>>, ghost i: nat)
      requires Circular(order) && j < |order| && order[j] == e && TableOk(table, order)
      requires first == order[0] && e.saved != [] && e.inMap
      requires Distinct(order0) && i < |order0| && order0[i] == e
      modifies this`table, this`first, this`order, order
      ensures Circular(order) && TableOk(table, order) && first == if order == [] then null else order[0]
      ensures order == AfterRestore(old(order), j, Newest(old(e.saved)).inMap)
      ensures forall k | 0 <= k < |order0| && k != i :: Rows(order0)[k] == old(Rows(order0)[k])
      ensures Newest(old(e.saved)).inMap ==> Rows(order0)[i] == Row(e.key, old(e.saved))
    {
      hide Circular, TableOk, AfterRestore;
      RestoreElement(e, j);
      assert forall k | 0 <= k < |order0| && k != i :: order0[k] != e;
    }

    /** All changed elements of the popped scope are restored, in any order. */
    method RestoreAll(changed: set<Element<K, D>>, ghost rows: seq<Row<K, D>>, ghost n: nat, ghost popped: nat)
      requires Circular(order) && TableOk(table, order) && first == if order == [] then null else order[0]
      requires Popping(order, n, changed, order)
      requires rows == Rows(order) && PopStart(order, rows, n, popped, changed)
      requires forall j | 0 <= j < |rows| && order[j] !in changed :: RestoreRow(rows[j], popped) == rows[j]
      modifies this`table, this`first, this`order, order
      ensures n <= |rows| && order == old(order)[..n] && Rows(order) == PopRows(rows, popped, n)
      ensures Circular(order) && TableOk(table, order) && first == if order == [] then null else order[0]
    {
      hide TableOk, Ascending, Contents, Circular, PopRows, Popping, PopStart, Restoring, AfterRestore, RestoreRow, Distinct;
      ghost var order0 := order;
      var todo := changed;
      DistinctOfCircular(order);
      RestoringStart(order, rows, n, popped, todo);
      assert Restoring(order, Rows(order), rows, n, popped, todo);
      while todo != {}
        invariant order0 == old(order) && Circular(order) && TableOk(table, order)
        invariant first == if order == [] then null else order[0]
        invariant forall x | x in order :: x in order0
        invariant Popping(order0, n, todo, order)
        invariant PopStart(order0, rows, n, popped, todo)
        invariant Restoring(order0, Rows(order0), rows, n, popped, todo)
        decreases |todo|
      {
        var e :| e in todo;
        ghost var now := Rows(order0);
        ghost var i, j := PopNext(order0, rows, now, n, popped, todo, order, e);
        assert forall k | 0 <= k < |order| :: order[k] in old(order);
        RestoreRowOf(e, j, order0, i);
        RestoringStep(order0, rows, now, Rows(order0), n, popped, todo, i);
        todo := todo - {e};
      }
      PoppingDone(order0, n, todo, order);
      RestoringDone(order0, Rows(order0), rows, n, popped, todo);
    }

    /** Drops a scope and restores every element changed in it. */
    method Pop()
      requires Valid() && level > 0
      modifies this, order
      ensures Valid() && level == old(level) - 1 && snaps == old(snaps)[..level]
      ensures Current() == old(snaps)[level]
      ensures order <= old(order)
    {
      hide RowsOk, TableOk, ChangedOk, Ascending, SnapOk, Contents, Circular, RowOk, PopRows, Popping, PopStart;
      ghost var rows, order0, popped := Rows(order), order, level;
      DistinctOfCircular(order);
      PopFacts(table, first, changed, order, rows, level, snaps);
      ghost var n := |snaps[level - 1]|;
      level := level - 1;
      RestoreAll(changed[level], rows, n, popped);
      changed := changed[..level];
      PopOk(old(table), old(first), old(changed), order0, rows, popped, snaps, table, first);
      snaps := snaps[..level];
    }

    /** Sets the data of an element, which is marked as changed in the current scope once. */
    method SetData(e: Element<K, D>, d: D)
      requires e.level <= level && Ascending(e.Versions()) && |changed| == level
      modifies this`changed, e`data, e`level, e`saved
      ensures var now := old(e.level) < level;
              e.saved == (if now then old(e.Versions()) else old(e.saved)) && e.level == level && e.data == d &&
              changed == if now then Mark(old(changed), level - 1, e) else old(changed)
    {
      var now := e.MakeCurrent(level);
      if now {
        changed := Mark(changed, level - 1, e);
      }
      e.data := d;
    }

    /** Sets the data of an element of the list; no other row changes. */
    method Overwrite(e: Element<K, D>, d: D, ghost p: nat)
      requires Distinct(order) && p < |order| && order[p] == e && |changed| == level
      requires Ascending(e.Versions()) && e.inMap && e.level <= level
      modifies this`changed, e`data, e`level, e`saved
      ensures var vs := old(e.Versions());
              Rows(order) == old(Rows(order))[p := Row(e.key, SetVersions(vs, level, d))] &&
              changed == if Newest(vs).level < level then Mark(old(changed), level - 1, e) else old(changed)
    {
      hide Ascending, Mark;
      SetData(e, d);
      assert forall j | 0 <= j < |order| && j != p :: order[j] != e;
    }

    /** Overwrites the data of an element of the map. */
    method Set(e: Element<K, D>, d: D, ghost p: nat)
      requires Valid() && p < |order| && order[p] == e
      modifies this`changed, e`data, e`level, e`saved
      ensures Valid()
      ensures Current() == old(Current())[p := (e.key, d)]
    {
      hide RowsOk, TableOk, ChangedOk, Ascending, SnapOk, Contents, Circular;
      ghost var rows := Rows(order);
      RowFacts(table, first, changed, order, rows, level, snaps, p);
      DistinctOfCircular(order);
      assert Current() == Contents(rows);
      Overwrite(e, d, p);
      SetOk(table, first, old(changed), order, rows, level, snaps, p, d);
      SetContents(rows, p, Row(e.key, SetVersions(rows[p].versions, level, d)));
    }

    /** Overwrites the entry of the key, or appends a new one. */
    method Insert(k: K, d: D) returns (isNew: bool)
      requires Valid()
      modifies this, order
      ensures Valid() && level == old(level) && snaps == old(snaps)
      ensures isNew <==> forall j | 0 <= j < |old(Current())| :: old(Current())[j].0 != k
      ensures Current() == Upsert(old(Current()), k, d)
      ensures forall e | e in order :: e in old(order) || fresh(e)
    {
      hide MapOk, Circular, Contents, Rows;
      isNew := k !in table;
      if isNew {
        NoEntry(k);
        UpsertNew(Current(), k, d);
        Append(k, d);
      } else {
        ghost var p := EntryAt(k);
        assert Current()[p].0 == k;
        UpsertAt(Current(), k, d, p);
        Set(table[k], d, p);
      }
    }

    /** The position of the entry of a key. */
    lemma {:induction false} EntryAt(k: K) returns (p: nat)
      requires Valid() && k in table
      ensures p < |order| == |Current()| && order[p] == table[k] && table[k].key == k
      ensures Current()[p] == (k, table[k].data)
      ensures forall j | 0 <= j < |Current()| :: Current()[j].0 == k <==> j == p
    {
      p :| p < |order| && order[p] == table[k];
    }

    lemma {:induction false} NoEntry(k: K)
      requires Valid() && k !in table
      ensures forall j | 0 <= j < |Current()| :: Current()[j].0 != k
    {
      assert forall j | 0 <= j < |order| :: Current()[j].0 == order[j].key;
    }

    /** Any run of insertions and scopes: the entries and the open snapshots are those of a
        list that is copied when a scope is opened, and put back when it is closed. */
    method RunOps(ops: seq<MapOp<K, D>>)
      requires Valid() && Bracketed(ops, level)
      modifies this, order
      ensures Valid() && Snapshots(Current(), snaps) == Run(old(Snapshots(Current(), snaps)), ops)
    {
      hide Circular, TableOk, RowsOk, ChangedOk, Upsert, Contents;
      SnapshotsOpen(Rows(order), level, snaps);
      var i := 0;
      while i < |ops|
        invariant 0 <= i <= |ops| && Valid() && |snaps| == level && Bracketed(ops[i..], level)
        invariant forall e | e in order :: e in old(order) || fresh(e)
        invariant Run(Snapshots(Current(), snaps), ops[i..]) == Run(old(Snapshots(Current(), snaps)), ops)
        decreases |ops| - i
      {
        assert ops[i..][1..] == ops[i + 1..];
        assert forall j | 0 <= j < |order| :: order[j] in old(order) || fresh(order[j]);
        match ops[i] {
          case Insert(k, d) => var isNew := Insert(k, d);
          case Push => Push();
          case Pop => Pop();
        }
        i := i + 1;
      }
    }

    /** The element of a key; a missing one is created with the default value. */
    method At(k: K, default: D) returns (e: Element<K, D>)
      requires Valid()
      modifies this, order
      ensures Valid() && snaps == old(snaps) && e in order && e.key == k && (k, e.data) in Current()
      ensures Current() == if exists d :: (k, d) in old(Current()) then old(Current()) else old(Current()) + [(k, default)]
    {
      hide MapOk, Circular, Contents, Rows;
      ghost var p;
      if k !in table {
        NoEntry(k);
        Append(k, default);
        assert Current()[|Current()| - 1] == (k, default);
        if k !in table {
          NoEntry(k);
          assert false;
        }
      } else {
        p := EntryAt(k);
        assert Current()[p] in Current();
      }
      p := EntryAt(k);
      e := table[k];
    }

    /** An element is made with the data and no map; only its saved copy shows that it was new. */
    method Create(k: K, d: D) returns (e: Element<K, D>)
      requires |changed| == level
      modifies this`changed
      ensures fresh(e) && e.key == k && e.Versions() == NewVersions(level, d)
      ensures changed == if level > 0 then Mark(old(changed), level - 1, e) else old(changed)
    {
      e := new Element(k, d);
      FreshVersions(e);
      SetData(e, d);
      e.inMap := true;
    }

    /** Puts an element into the table and at the end of the list. */
    method Attach(e: Element<K, D>)
      requires Circular(order) && e !in order && first == if order == [] then null else order[0]
      modifies this`table, this`first, this`order, e`prev, e`next, order`prev, order`next
      ensures table == old(table)[e.key := e] && order == old(order) + [e] && first == order[0]
      ensures Circular(order) && Rows(order) == old(Rows(order)) + [Row(e.key, e.Versions())]
    {
      hide Circular;
      first := Link(first, e, order);
      table := table[e.key := e];
      order := order + [e];
    }

    /** Creates an element and adds it to the map. */
    method Append(k: K, d: D)
      requires Valid() && k !in table
      modifies this`table, this`first, this`changed, this`order, order`prev, order`next
      ensures Valid() && snaps == old(snaps)
      ensures Current() == old(Current()) + [(k, d)]
      ensures forall e | e in order :: e in old(order) || fresh(e)
    {
      hide RowsOk, TableOk, ChangedOk, Ascending, SnapOk, Contents, Circular;
      ghost var rows := Rows(order);
      assert Current() == Contents(rows);
      var e := Create(k, d);
      Attach(e);
      ghost var r := Row(k, NewVersions(level, d));
      AppendOk(old(table), old(first), old(changed), old(order), rows, level, snaps, e, d);
      AppendContents(rows, r);
    }
  }

  /** What restoring an element does to the list: an element new in the scope leaves it. */
  ghost function AfterRestore<T>(order: seq<T>, j: nat, stays: bool): seq<T>
    requires j < |order|
  {
    if stays then order else Without(order, j)
  }

  lemma {:induction false} TableWithout<K, D>(table: map<K, Element<K, D>>, order: seq<Element<K, D>>, j: nat)
    requires TableOk(table, order) && Distinct(order) && j < |order|
    ensures TableOk(table - {order[j].key}, Without(order, j))
  {
    var table', order' := table - {order[j].key}, Without(order, j);
    forall k | k in table' ensures table'[k].key == k && table'[k] in order' {
      var i :| 0 <= i < |order| && order[i] == table[k];
      assert order'[if i < j then i else i - 1] == table[k];
    }
    forall e | e in order' ensures e.key in table' && table'[e.key] == e {
      assert e in order && table[e.key] == e && table[order[j].key] == order[j];
    }
  }

  /** The elements of a scope have a saved copy, which was in the map for the first `n` elements only. */
  ghost predicate PopStart<K, D>(order: seq<Element<K, D>>, rows: seq<Row<K, D>>, n: nat, level: nat, todo: set<Element<K, D>>)
    requires |rows| == |order|
  {
    (forall j | 0 <= j < |rows| :: rows[j].versions != []) &&
    (forall j | 0 <= j < |order| && order[j] in todo :: MustRestore(rows[j], j < n, level))
  }

  ghost predicate MustRestore<K, D>(r: Row<K, D>, stays: bool, level: nat) {
    |r.versions| > 1 && Newest(r.versions).level == level && Newest(r.versions).inMap &&
    Newest(r.versions[..|r.versions| - 1]).inMap == stays
  }

  /** What is to be restored is unchanged; what stays and needs no restoring is as at the level below. */
  ghost predicate Restoring<K, D>(order: seq<Element<K, D>>, now: seq<Row<K, D>>, rows: seq<Row<K, D>>, n: nat, level: nat,
      todo: set<Element<K, D>>)
    requires |now| == |rows| == |order| && forall j | 0 <= j < |rows| :: rows[j].versions != []
  {
    forall j | 0 <= j < |order| ::
      if order[j] in todo then now[j] == rows[j]
      else j < n ==> now[j] == RestoreRow(rows[j], level)
  }

  /** What a pop knows when it starts. */
  lemma {:induction false} PopFacts<K, D>(table: map<K, Element<K, D>>, first: Element?<K, D>,
      changed: seq<set<Element<K, D>>>, order: seq<Element<K, D>>, rows: seq<Row<K, D>>, level: nat,
      snaps: seq<seq<(K, D)>>)
    requires MapOk(table, first, changed, order, rows, level, snaps) && level > 0 && Distinct(order)
    ensures |snaps| == |changed| == level && |snaps[level - 1]| <= |rows|
    ensures forall j | 0 <= j < |rows| :: rows[j].versions != []
    ensures Popping(order, |snaps[level - 1]|, changed[level - 1], order)
    ensures PopStart(order, rows, |snaps[level - 1]|, level, changed[level - 1])
    ensures forall j | 0 <= j < |rows| && order[j] !in changed[level - 1] :: RestoreRow(rows[j], level) == rows[j]
  {
    hide RowOk, SnapOk, ChangedOk, RestoreRow, HasLevel, Newest;
    RowsNonempty(rows, level, snaps);
    var n, now := |snaps[level - 1]|, changed[level - 1];
    assert SnapOk(rows, snaps[level - 1], level - 1) && n <= |rows| by {
      SnapFits(rows, snaps[level - 1], level - 1);
    }
    ChangedInside(now, level, order, rows);
    forall j: nat | j < |order|
      ensures order[j] in now ==> MustRestore(rows[j], j < n, level)
      ensures order[j] !in now ==> j < n && RestoreRow(rows[j], level) == rows[j]
    {
      PopFact(rows, level, snaps, j);
    }
    assert forall j | n <= j < |order| :: order[n..][j - n] == order[j];
  }

  lemma {:induction false} SnapFits<K, D>(rows: seq<Row<K, D>>, snap: seq<(K, D)>, i: nat)
    requires SnapOk(rows, snap, i)
    ensures |snap| <= |rows|
  {
  }

  lemma {:induction false} ChangedInside<K, D>(changed: set<Element<K, D>>, l: nat, order: seq<Element<K, D>>, rows: seq<Row<K, D>>)
    requires |rows| == |order| && ChangedOk(changed, l, order, rows)
    ensures forall e | e in changed :: e in order
    ensures forall j: nat | j < |order| :: order[j] in changed <==> HasLevel(rows[j].versions, l)
  {
  }

  lemma {:induction false} PopFact<K, D>(rows: seq<Row<K, D>>, level: nat, snaps: seq<seq<(K, D)>>, j: nat)
    requires RowsOk(rows, level, snaps) && level > 0 && j < |rows|
    ensures HasLevel(rows[j].versions, level) ==> MustRestore(rows[j], j < |snaps[level - 1]|, level)
    ensures !HasLevel(rows[j].versions, level) ==>
              rows[j].versions != [] && j < |snaps[level - 1]| && RestoreRow(rows[j], level) == rows[j]
  {
    hide SnapOk, HasLevel, Ascending;
    assert RowOk(rows[j], level);
    PopRow(rows, level, snaps, j);
    NewestHasLevel(rows[j].versions, level);
  }

  lemma {:induction false} NewestHasLevel<D>(vs: seq<Version<D>>, l: nat)
    requires Ascending(vs) && Newest(vs).level <= l
    ensures HasLevel(vs, l) <==> Newest(vs).level == l
    ensures Newest(vs).level == l > 0 ==> |vs| > 1
  {
  }

  lemma {:induction false} AfterRestoreIn<T>(order: seq<T>, j: nat, stays: bool)
    requires j < |order|
    ensures forall x | x in AfterRestore(order, j, stays) :: x in order
  {
  }

  /** A pop on the way: the first `n` elements stay, the others are all still to be restored. */
  ghost predicate Popping<T>(order0: seq<T>, n: nat, todo: set<T>, order: seq<T>) {
    && n <= |order0|
    && n <= |order|
    && order[..n] == order0[..n]
    && Distinct(order)
    && (forall j | n <= j < |order| :: order[j] in todo && order[j] in order0[n..])
    && (forall e | e in todo :: e in order)
  }

  lemma {:induction false} InTodo<T>(order0: seq<T>, n: nat, todo: set<T>, order: seq<T>, e: T) returns (j: nat)
    requires Popping(order0, n, todo, order) && e in todo
    ensures j < |order| && order[j] == e
  {
    j :| j < |order| && order[j] == e;
  }

  /** What stays is on the same side of the list as when the pop started. */
  lemma {:induction false} SameSide<T>(order0: seq<T>, n: nat, todo: set<T>, order: seq<T>, i: nat, j: nat)
    requires Popping(order0, n, todo, order) && Distinct(order0)
    requires i < |order0| && j < |order| && order0[i] == order[j]
    ensures i < n <==> j < n
  {
    if j < n {
      assert order[..n][j] == order0[j];
    } else {
      var k :| 0 <= k < |order0[n..]| && order0[n..][k] == order[j];
      assert order0[n + k] == order0[i];
    }
  }

  /** If nothing is left to be restored, the list is what it was at the level below. */
  lemma {:induction false} PoppingDone<T>(order0: seq<T>, n: nat, todo: set<T>, order: seq<T>)
    requires Popping(order0, n, todo, order)
    ensures n <= |order0| && (todo != {} || order == order0[..n])
  {
    if n < |order| {
      assert order[n] in todo;
    }
  }

  lemma {:induction false} RestoringDone<K, D>(order: seq<Element<K, D>>, now: seq<Row<K, D>>, rows: seq<Row<K, D>>,
      n: nat, level: nat, todo: set<Element<K, D>>)
    requires |rows| == |order| && n <= |order| && PopStart(order, rows, n, level, todo) && todo == {}
    requires now == Rows(order) && Restoring(order, now, rows, n, level, todo)
    ensures Rows(order[..n]) == PopRows(rows, level, n)
  {
    assert forall j | 0 <= j < n :: Rows(order[..n])[j] == now[j];
  }

  lemma {:induction false} RestoringStart<K, D>(order: seq<Element<K, D>>, rows: seq<Row<K, D>>, n: nat, level: nat,
      todo: set<Element<K, D>>)
    requires |rows| == |order| && forall j | 0 <= j < |rows| :: rows[j].versions != []
    requires forall j | 0 <= j < |rows| && order[j] !in todo :: RestoreRow(rows[j], level) == rows[j]
    ensures Restoring(order, rows, rows, n, level, todo)
  {
  }

  /** The next element to restore: where it is, and what its newest saved copy says. */
  lemma {:induction false} PopNext<K, D>(order0: seq<Element<K, D>>, rows: seq<Row<K, D>>, now: seq<Row<K, D>>, n: nat,
      level: nat, todo: set<Element<K, D>>, order: seq<Element<K, D>>, e: Element<K, D>) returns (i: nat, j: nat)
    requires Popping(order0, n, todo, order) && Distinct(order0) && e in todo && forall x | x in order :: x in order0
    requires now == Rows(order0) && |rows| == |order0| && PopStart(order0, rows, n, level, todo)
    requires Restoring(order0, now, rows, n, level, todo)
    ensures i < |order0| && order0[i] == e && j < |order| && order[j] == e
    ensures e.saved != [] && e.inMap && (Newest(e.saved).inMap <==> i < n)
    ensures rows[i].versions != [] && Row(e.key, e.saved) == RestoreRow(rows[i], level)
    ensures Popping(order0, n, todo - {e}, AfterRestore(order, j, i < n)) && PopStart(order0, rows, n, level, todo - {e})
    ensures forall x | x in AfterRestore(order, j, i < n) :: x in order0
  {
    hide Popping, AfterRestore;
    j := InTodo(order0, n, todo, order, e);
    assert order[j] in order;
    i :| i < |order0| && order0[i] == e;
    PopStartAt(order0, rows, n, level, todo, i);
    assert now[i] == Row(e.key, e.Versions()) && e.Versions()[..|e.saved|] == e.saved;
    AfterRestoreIn(order, j, i < n);
    SameSide(order0, n, todo, order, i, j);
    PoppingStep(order0, n, todo, order, j);
    PopStartShrinks(order0, rows, n, level, todo, e);
  }

  lemma {:induction false} RestoringStep<K, D>(order: seq<Element<K, D>>, rows: seq<Row<K, D>>, now: seq<Row<K, D>>,
      now': seq<Row<K, D>>, n: nat, level: nat, todo: set<Element<K, D>>, i: nat)
    requires |now'| == |now| == |rows| == |order| && Distinct(order) && i < |order|
    requires forall j | 0 <= j < |rows| :: rows[j].versions != []
    requires Restoring(order, now, rows, n, level, todo) && forall j | 0 <= j < |rows| && j != i :: now'[j] == now[j]
    requires i < n ==> now'[i] == RestoreRow(rows[i], level)
    ensures Restoring(order, now', rows, n, level, todo - {order[i]})
  {
  }

  lemma {:induction false} PopStartShrinks<K, D>(order: seq<Element<K, D>>, rows: seq<Row<K, D>>, n: nat, level: nat,
      todo: set<Element<K, D>>, e: Element<K, D>)
    requires |rows| == |order| && PopStart(order, rows, n, level, todo)
    ensures PopStart(order, rows, n, level, todo - {e})
  {
  }

  lemma {:induction false} PopStartAt<K, D>(order: seq<Element<K, D>>, rows: seq<Row<K, D>>, n: nat, level: nat,
      todo: set<Element<K, D>>, i: nat)
    requires |rows| == |order| && PopStart(order, rows, n, level, todo) && i < |order| && order[i] in todo
    ensures MustRestore(rows[i], i < n, level)
  {
  }

  /** One more element is restored. */
  lemma {:induction false} PoppingStep<T>(order0: seq<T>, n: nat, todo: set<T>, order: seq<T>, j: nat)
    requires Popping(order0, n, todo, order) && j < |order|
    ensures Popping(order0, n, todo - {order[j]}, AfterRestore(order, j, j < n))
  {
    var order' := AfterRestore(order, j, j < n);
    forall e | e in todo - {order[j]} ensures e in order' {
      var i :| 0 <= i < |order| && order[i] == e;
      assert j >= n ==> order'[if i < j then i else i - 1] == e;
    }
    forall i | n <= i < |order'| ensures order'[i] in todo - {order[j]} && order'[i] in order0[n..] {
      assert j >= n ==> order'[i] == order[if i < j then i else i + 1];
    }
    assert j >= n ==> order'[..n] == order[..n];
  }

  /** The scope below has the same marks: what was new in the popped scope is in no older one. */
  lemma {:induction false} PopChanged<K, D>(changed: set<Element<K, D>>, l: nat, order: seq<Element<K, D>>,
      rows: seq<Row<K, D>>, level: nat, snaps: seq<seq<(K, D)>>)
    requires |rows| == |order| && ChangedOk(changed, l, order, rows) && 0 < l < level && RowsOk(rows, level, snaps)
    requires |snaps[level - 1]| <= |rows| && forall j | 0 <= j < |rows| :: rows[j].versions != []
    ensures var n := |snaps[level - 1]|;
            ChangedOk(changed, l, order[..n], PopRows(rows, level, n))
  {
    var n := |snaps[level - 1]|;
    var rows' := PopRows(rows, level, n);
    forall j: nat | j < |rows| ensures HasLevel(RestoreRow(rows[j], level).versions, l) <==> HasLevel(rows[j].versions, l) {
      RestoreHasLevel(rows[j].versions, l);
    }
    forall e | e in changed ensures e in order[..n] {
      var j: nat :| j < |order| && order[j] == e;
      assert HasLevel(rows[j].versions, l);
      if j >= n {
        PopRow(rows, level, snaps, j);
        NewHasNoLevel(rows[j], level, l);
      }
      assert order[..n][j] == e;
    }
  }

  lemma {:induction false} RestoreHasLevel<D>(vs: seq<Version<D>>, l: nat)
    requires vs != []
    ensures Newest(vs).level != l ==> (HasLevel(vs, l) <==> HasLevel(vs[..|vs| - 1], l))
  {
    if HasLevel(vs, l) && Newest(vs).level != l {
      var i: nat :| i < |vs| && vs[i].level == l;
      assert vs[..|vs| - 1][i].level == l;
    }
    if HasLevel(vs[..|vs| - 1], l) {
      var i: nat :| i < |vs| - 1 && vs[..|vs| - 1][i].level == l;
      assert vs[i].level == l;
    }
  }

  lemma {:induction false} NewHasNoLevel<K, D>(r: Row<K, D>, level: nat, l: nat)
    requires RowOk(r, level) && 0 < l < level && !Newest(RestoreRow(r, level).versions).inMap
    ensures !HasLevel(r.versions, l)
  {
  }

  lemma {:induction false} PopOk<K, D>(table0: map<K, Element<K, D>>, first0: Element?<K, D>,
      changed: seq<set<Element<K, D>>>, order: seq<Element<K, D>>, rows: seq<Row<K, D>>, level: nat,
      snaps: seq<seq<(K, D)>>, table: map<K, Element<K, D>>, first: Element?<K, D>)
    requires MapOk(table0, first0, changed, order, rows, level, snaps) && level > 0
    requires |snaps[level - 1]| <= |rows| && forall j | 0 <= j < |rows| :: rows[j].versions != []
    requires var order' := order[..|snaps[level - 1]|];
             TableOk(table, order') && first == if order' == [] then null else order'[0]
    ensures var n := |snaps[level - 1]|;
            MapOk(table, first, changed[..level - 1], order[..n], PopRows(rows, level, n), level - 1, snaps[..level - 1]) &&
            Contents(PopRows(rows, level, n)) == snaps[level - 1]
  {
    hide ChangedOk, TableOk;
    PopRowsOk(rows, level, snaps);
    var n, changed' := |snaps[level - 1]|, changed[..level - 1];
    forall l: nat | l < level - 1 ensures ChangedOk(changed'[l], l + 1, order[..n], PopRows(rows, level, n)) {
      PopChanged(changed[l], l + 1, order, rows, level, snaps);
    }
  }

  lemma {:induction false} DistinctOfCircular<K, D>(order: seq<Element<K, D>>)
    requires Circular(order)
    ensures Distinct(order)
  {
  }

  lemma {:induction false} RowFacts<K, D>(table: map<K, Element<K, D>>, first: Element?<K, D>,
      changed: seq<set<Element<K, D>>>, order: seq<Element<K, D>>, rows: seq<Row<K, D>>, level: nat,
      snaps: seq<seq<(K, D)>>, p: nat)
    requires MapOk(table, first, changed, order, rows, level, snaps) && p < |rows|
    ensures RowOk(rows[p], level) && Ascending(rows[p].versions) && |changed| == level
  {
  }

  lemma {:induction false} SetContents<K, D>(rows: seq<Row<K, D>>, p: nat, r: Row<K, D>)
    requires p < |rows| && r.versions != [] && forall j | 0 <= j < |rows| :: rows[j].versions != []
    ensures Contents(rows[p := r]) == Contents(rows)[p := (r.key, Newest(r.versions).data)]
  {
  }

  // ----- runs -----

  lemma {:induction false} SnapshotsOpen<K, D>(rows: seq<Row<K, D>>, level: nat, snaps: seq<seq<(K, D)>>)
    requires RowsOk(rows, level, snaps)
    ensures |snaps| == level
  {
  }

  /** The entry of the key is overwritten where it is, or appended. */
  function Upsert<K(==), D>(xs: seq<(K, D)>, k: K, d: D): seq<(K, D)> {
    if xs == [] then [(k, d)]
    else if xs[0].0 == k then [(k, d)] + xs[1..]
    else [xs[0]] + Upsert(xs[1..], k, d)
  }

  lemma {:induction false} UpsertNew<K, D>(xs: seq<(K, D)>, k: K, d: D)
    requires forall j | 0 <= j < |xs| :: xs[j].0 != k
    ensures Upsert(xs, k, d) == xs + [(k, d)]
  {
    if xs != [] {
      UpsertNew(xs[1..], k, d);
      assert xs + [(k, d)] == [xs[0]] + (xs[1..] + [(k, d)]);
    }
  }

  lemma {:induction false} UpsertAt<K, D>(xs: seq<(K, D)>, k: K, d: D, p: nat)
    requires p < |xs| && forall j | 0 <= j < |xs| :: xs[j].0 == k <==> j == p
    ensures Upsert(xs, k, d) == xs[p := (k, d)]
  {
    if p > 0 {
      UpsertAt(xs[1..], k, d, p - 1);
      assert xs[p := (k, d)] == [xs[0]] + xs[1..][p - 1 := (k, d)];
    } else {
      assert xs[p := (k, d)] == [(k, d)] + xs[1..];
    }
  }

  datatype MapOp<K, D> = Insert(k: K, d: D) | Push | Pop

  /** The entries, and the copies made when the open scopes were opened. */
  datatype Snapshots<K, D> = Snapshots(current: seq<(K, D)>, saved: seq<seq<(K, D)>>)

  /** Every pop has its push; `depth` scopes are open. */
  predicate Bracketed<K, D>(ops: seq<MapOp<K, D>>, depth: nat) {
    ops == [] ||
    match ops[0]
    case Insert(_, _) => Bracketed(ops[1..], depth)
    case Push => Bracketed(ops[1..], depth + 1)
    case Pop => depth > 0 && Bracketed(ops[1..], depth - 1)
  }

  ghost function Do<K, D>(s: Snapshots<K, D>, op: MapOp<K, D>): Snapshots<K, D>
    requires op.Pop? ==> s.saved != []
  {
    match op
    case Insert(k, d) => s.(current := Upsert(s.current, k, d))
    case Push => Snapshots(s.current, s.saved + [s.current])
    case Pop =>
      var n := |s.saved| - 1;
      Snapshots(s.saved[n], s.saved[..n])
  }

  ghost function Run<K, D>(s: Snapshots<K, D>, ops: seq<MapOp<K, D>>): Snapshots<K, D>
    requires Bracketed(ops, |s.saved|)
    decreases |ops|
  {
    if ops == [] then s else Run(Do(s, ops[0]), ops[1..])
  }

  /** Closes the `depth` innermost scopes and all that it opens. */
  predicate Closes<K, D>(ops: seq<MapOp<K, D>>, depth: nat) {
    if ops == [] then depth == 0
    else
      match ops[0]
      case Insert(_, _) => Closes(ops[1..], depth)
      case Push => Closes(ops[1..], depth + 1)
      case Pop => depth > 0 && Closes(ops[1..], depth - 1)
  }

  /** Running on: the outer snapshots are untouched. */
  lemma {:induction false} RunCloses<K, D>(s: Snapshots<K, D>, ops: seq<MapOp<K, D>>, depth: nat, more: seq<MapOp<K, D>>)
      returns (current: seq<(K, D)>)
    requires Closes(ops, depth) && depth <= |s.saved| && Bracketed(more, |s.saved| - depth)
    ensures Bracketed(ops + more, |s.saved|)
    ensures Run(s, ops + more) == Run(Snapshots(current, s.saved[..|s.saved| - depth]), more)
    decreases |ops|
  {
    if ops == [] {
      assert ops + more == more && s.saved[..|s.saved|] == s.saved;
      current := s.current;
    } else {
      var s' := Do(s, ops[0]);
      assert (ops + more)[1..] == ops[1..] + more;
      assert s'.saved[..|s.saved| - depth] == s.saved[..|s.saved| - depth];
      current := RunCloses(s', ops[1..], depth + |s'.saved| - |s.saved|, more);
    }
  }

  /** Whatever happens in a scope, closing it gives back the map as it was, order included. */
  lemma {:induction false} ScopeLeavesNoTrace<K, D>(s: Snapshots<K, D>, ops: seq<MapOp<K, D>>)
    requires Closes(ops, 0)
    ensures Bracketed([Push] + ops + [Pop], |s.saved|) && Run(s, [Push] + ops + [Pop]) == s
  {
    var inside, pop := Snapshots(s.current, s.saved + [s.current]), [Pop];
    assert Bracketed(pop, |inside.saved|);
    var current := RunCloses(inside, ops, 0, pop);
    assert ([Push] + ops + pop)[1..] == ops + pop;
    assert inside.saved[..|s.saved|] == s.saved && inside.saved[..|inside.saved|] == inside.saved;
    assert pop[1..] == [];
    assert Run(Snapshots(current, inside.saved), pop) == s;
  }

  function Mark<T>(changed: seq<set<T>>, l: nat, e: T): seq<set<T>>
    requires l < |changed|
  {
    changed[l := changed[l] + {e}]
  }

  lemma {:induction false} SetHasLevel<D>(vs: seq<Version<D>>, level: nat, d: D, l: nat)
    requires Ascending(vs) && Newest(vs).level <= level
    ensures HasLevel(SetVersions(vs, level, d), l) <==> HasLevel(vs, l) || l == level
  {
    var us := SetVersions(vs, level, d);
    if HasLevel(vs, l) {
      var i: nat :| i < |vs| && vs[i].level == l;
      assert us[i].level == l;
    }
    if l == level {
      assert us[|us| - 1].level == l;
    }
    if HasLevel(us, l) && l != level {
      var i: nat :| i < |us| && us[i].level == l;
      assert vs[i].level == l;
    }
  }

  lemma {:induction false} FreshVersions<K, D>(e: Element<K, D>)
    requires e.saved == [] && e.level == 0
    ensures Ascending(e.Versions())
  {
  }

  lemma {:induction false} AppendContents<K, D>(rows: seq<Row<K, D>>, r: Row<K, D>)
    requires r.versions != [] && forall j | 0 <= j < |rows| :: rows[j].versions != []
    ensures Contents(rows + [r]) == Contents(rows) + [(r.key, Newest(r.versions).data)]
  {
  }

  /** A new element at the end of the list. */
  lemma {:induction false} AppendOk<K, D>(table: map<K, Element<K, D>>, first: Element?<K, D>,
      changed: seq<set<Element<K, D>>>, order: seq<Element<K, D>>, rows: seq<Row<K, D>>, level: nat,
      snaps: seq<seq<(K, D)>>, e: Element<K, D>, d: D)
    requires MapOk(table, first, changed, order, rows, level, snaps)
    requires e !in order && e.key !in table
    ensures var changed' := if level > 0 then Mark(changed, level - 1, e) else changed;
            MapOk(table[e.key := e], (order + [e])[0], changed', order + [e],
                  rows + [Row(e.key, NewVersions(level, d))], level, snaps)
  {
    hide RowsOk, ChangedOk;
    InsertRows(rows, level, snaps, e.key, d);
    var order' := order + [e];
    var rows' := rows + [Row(e.key, NewVersions(level, d))];
    var changed' := if level > 0 then Mark(changed, level - 1, e) else changed;
    forall l: nat | l < level ensures ChangedOk(changed'[l], l + 1, order', rows') {
      AppendChanged(changed[l], l + 1, order, rows, level, e, d);
      assert changed'[l] == if l + 1 == level then changed[l] + {e} else changed[l];
    }
  }

  lemma {:induction false} AppendChanged<K, D>(changed: set<Element<K, D>>, l: nat, order: seq<Element<K, D>>,
      rows: seq<Row<K, D>>, level: nat, e: Element<K, D>, d: D)
    requires |rows| == |order| && ChangedOk(changed, l, order, rows) && 0 < l <= level && e !in order
    ensures ChangedOk(if l == level then changed + {e} else changed, l, order + [e],
                      rows + [Row(e.key, NewVersions(level, d))])
  {
    var vs := NewVersions(level, d);
    assert vs[0].level == 0 && vs[1].level == level;
    assert HasLevel(vs, l) <==> l == level;
  }

  /** Overwriting the data of one element. */
  lemma {:induction false} SetOk<K, D>(table: map<K, Element<K, D>>, first: Element?<K, D>,
      changed: seq<set<Element<K, D>>>, order: seq<Element<K, D>>, rows: seq<Row<K, D>>, level: nat,
      snaps: seq<seq<(K, D)>>, p: nat, d: D)
    requires MapOk(table, first, changed, order, rows, level, snaps)
    requires Distinct(order) && p < |rows| && Ascending(rows[p].versions)
    ensures var changed' := if Newest(rows[p].versions).level < level then Mark(changed, level - 1, order[p]) else changed;
            MapOk(table, first, changed', order, rows[p := Row(rows[p].key, SetVersions(rows[p].versions, level, d))], level, snaps)
  {
    SetRows(rows, level, snaps, p, d);
    assert RowOk(rows[p], level);
    var vs := rows[p].versions;
    var rows' := rows[p := Row(rows[p].key, SetVersions(vs, level, d))];
    var changed' := if Newest(vs).level < level then Mark(changed, level - 1, order[p]) else changed;
    forall l: nat | l < level ensures ChangedOk(changed'[l], l + 1, order, rows') {
      assert ChangedOk(changed[l], l + 1, order, rows);
      SetHasLevel(vs, level, d, l + 1);
      forall j: nat | j < |order| ensures order[j] in changed'[l] <==> HasLevel(rows'[j].versions, l + 1) {
        assert j != p ==> order[j] != order[p];
        if Newest(vs).level == level {
          assert HasLevel(vs, level);
        }
      }
    }
  }

  lemma {:induction false} RowsNonempty<K, D>(rows: seq<Row<K, D>>, level: nat, snaps: seq<seq<(K, D)>>)
    requires RowsOk(rows, level, snaps)
    ensures forall j | 0 <= j < |rows| :: rows[j].versions != []
  {
  }

  lemma {:induction false} PushOk<K, D>(table: map<K, Element<K, D>>, first: Element?<K, D>,
      changed: seq<set<Element<K, D>>>, order: seq<Element<K, D>>, rows: seq<Row<K, D>>, level: nat,
      snaps: seq<seq<(K, D)>>)
    requires MapOk(table, first, changed, order, rows, level, snaps)
    ensures forall j | 0 <= j < |rows| :: rows[j].versions != []
    ensures MapOk(table, first, changed + [{}], order, rows, level + 1, snaps + [Contents(rows)])
  {
    RowsNonempty(rows, level, snaps);
    PushRows(rows, level, snaps);
    forall l: nat | l < level + 1 ensures ChangedOk((changed + [{}])[l], l + 1, order, rows) {
      if l < level {
        assert ChangedOk(changed[l], l + 1, order, rows);
      } else {
        forall j: nat | j < |order| ensures !HasLevel(rows[j].versions, l + 1) {
          assert RowOk(rows[j], level);
          NoHigherLevel(rows[j].versions, l + 1);
        }
      }
    }
  }

  lemma {:induction false} NoHigherLevel<D>(vs: seq<Version<D>>, l: nat)
    requires Ascending(vs) && Newest(vs).level < l
    ensures !HasLevel(vs, l)
  {
  }
}
