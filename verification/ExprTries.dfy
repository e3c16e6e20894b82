/** The term trie: nodes by path, and a removal that cuts off a chain of only children. */
module ExprTries {
  import opened Terms

  /** The nodes of a trie by their paths, with the data stored at each. */
  type View<K(==), V> = map<seq<K>, Option<V>>

  ghost predicate Tree<K, V>(view: View<K, V>) {
    [] in view && forall p {:trigger Parent(p)} | p in view && p != [] :: Parent(p) in view
  }

  ghost function Last<K>(p: seq<K>): K
    requires p != []
  {
    p[|p| - 1]
  }

  ghost function Parent<K>(p: seq<K>): seq<K>
    requires p != []
  {
    p[..|p| - 1]
  }

  ghost function Lookup<K, V>(view: View<K, V>, p: seq<K>): Option<V> {
    if p in view then view[p] else None
  }

  /** At most one child. */
  ghost predicate Single<K, V>(view: View<K, V>, p: seq<K>) {
    forall q, r | q in view && r in view && IsChild(q, p) && IsChild(r, p) :: q == r
  }

  ghost predicate IsChild<K>(q: seq<K>, p: seq<K>) {
    q != [] && Parent(q) == p
  }

  ghost function Child<K>(p: seq<K>, k: K): seq<K> {
    p + [k]
  }

  /** The depth from which on the nodes of the path have at most one child each. */
  ghost function Cut<K, V>(view: View<K, V>, key: seq<K>, n: nat): nat
    requires n <= |key|
  {
    if n == 0 then 0 else if Single(view, key[..n - 1]) then Cut(view, key, n - 1) else n
  }

  lemma {:induction false} CutIsLeast<K, V>(view: View<K, V>, key: seq<K>, n: nat)
    requires n <= |key|
    ensures Cut(view, key, n) <= n
    ensures forall i | Cut(view, key, n) <= i < n :: Single(view, key[..i])
    ensures Cut(view, key, n) > 0 ==> !Single(view, key[..Cut(view, key, n) - 1])
  {
    if n > 0 {
      CutIsLeast(view, key, n - 1);
    }
  }

  /** Is the path in the part that a removal of the key cuts off? */
  ghost predicate CutOff<K, V>(view: View<K, V>, key: seq<K>, p: seq<K>) {
    var c := Cut(view, key, |key|);
    c < |key| && key[..c + 1] <= p
  }

  ghost function Removed<K, V>(view: View<K, V>, key: seq<K>): View<K, V> {
    map p | p in view && !CutOff(view, key, p) :: if p == key then None else view[p]
  }

  ghost predicate Comparable<K>(p: seq<K>, q: seq<K>) {
    p <= q || q <= p
  }

  ghost predicate Stored<K, V>(view: View<K, V>, p: seq<K>) {
    Lookup(view, p) != None
  }

  /** Every prefix of a path is a path. */
  lemma {:induction false} PrefixInTree<K, V>(view: View<K, V>, p: seq<K>, n: nat)
    requires Tree(view) && p in view && n <= |p|
    ensures p[..n] in view
    decreases |p| - n
  {
    if n < |p| {
      PrefixInTree(view, p, n + 1);
      assert Parent(p[..n + 1]) == p[..n];
    } else {
      assert p[..n] == p;
    }
  }

  /** What is cut off lies on the path of the key or below it. */
  lemma {:induction false} CutOffComparable<K, V>(view: View<K, V>, key: seq<K>, p: seq<K>)
    requires Tree(view) && key in view && p in view && CutOff(view, key, p)
    ensures Comparable(p, key)
  {
    var c := Cut(view, key, |key|);
    CutIsLeast(view, key, |key|);
    var n := c + 1;
    assert p[..n] == key[..n];
    while n < |p| && n < |key|
      invariant c < n <= |p| && n <= |key| && p[..n] == key[..n]
    {
      PrefixInTree(view, p, n + 1);
      PrefixInTree(view, key, n + 1);
      assert IsChild(p[..n + 1], key[..n]) && IsChild(key[..n + 1], key[..n]);
      assert Single(view, key[..n]);
      n := n + 1;
    }
    assert n == |p| ==> p[..n] == p;
    assert n == |key| ==> key[..n] == key;
  }

  /** Which paths are cut off: those that extend the key, and the prefixes of the key below the cut. */
  ghost predicate Exposed<K, V>(view: View<K, V>, key: seq<K>, p: seq<K>) {
    key <= p || (p <= key && |p| > Cut(view, key, |key|))
  }

  lemma {:induction false} CutOffIff<K, V>(view: View<K, V>, key: seq<K>, p: seq<K>)
    requires Tree(view) && key in view && p in view
    ensures CutOff(view, key, p) <==> Cut(view, key, |key|) < |key| && Exposed(view, key, p)
  {
    CutIsLeast(view, key, |key|);
    if CutOff(view, key, p) {
      CutOffComparable(view, key, p);
    }
  }

  /** A removal changes no other lookup exactly if the key's node has a sibling, or no other stored
      key extends the key or is a prefix of it below the last branching. */
  lemma {:induction false} RemovalExactIff<K, V>(view: View<K, V>, key: seq<K>)
    requires Tree(view) && key in view
    ensures (forall p | p != key :: Lookup(Removed(view, key), p) == Lookup(view, p)) <==>
            Cut(view, key, |key|) == |key| || forall p | p in view && p != key && Stored(view, p) :: !Exposed(view, key, p)
  {
    hide Cut, Exposed, CutOff;
    CutIsLeast(view, key, |key|);
    forall p | p in view ensures CutOff(view, key, p) <==> Cut(view, key, |key|) < |key| && Exposed(view, key, p) {
      CutOffIff(view, key, p);
    }
    forall p | p != key ensures Lookup(Removed(view, key), p) == Lookup(view, p) <==>
                                !(p in view && Stored(view, p) && CutOff(view, key, p)) {
    }
  }

  /** No stored key is a prefix of another. */
  ghost predicate PrefixFree<K, V>(view: View<K, V>) {
    forall p, q | p in view && q in view && Stored(view, p) && Stored(view, q) && p != q :: !Comparable(p, q)
  }

  /** With prefix-free keys a removal deletes exactly the key. */
  lemma {:induction false} PrefixFreeRemovesOne<K, V>(view: View<K, V>, key: seq<K>)
    requires Tree(view) && PrefixFree(view) && Stored(view, key)
    ensures forall p :: Lookup(Removed(view, key), p) == if p == key then None else Lookup(view, p)
    ensures Tree(Removed(view, key)) && PrefixFree(Removed(view, key))
  {
    forall p | p in view && p != key && Stored(view, p) ensures !Exposed(view, key, p) {
      assert !Comparable(p, key);
    }
    RemovalExactIff(view, key);
    RemovedTree(view, key);
    forall p, q | Stored(Removed(view, key), p) && Stored(Removed(view, key), q) && p != q ensures !Comparable(p, q) {
      assert Stored(view, p) && Stored(view, q);
    }
  }

  lemma {:induction false} RemovedTree<K, V>(view: View<K, V>, key: seq<K>)
    requires Tree(view)
    ensures Tree(Removed(view, key))
  {
  }

  /** A key that extends a stored key takes it along. */
  lemma {:induction false} RemovalLosesPrefix<K, V>(a: K, b: K, x: V, y: V)
    ensures var view: View<K, V> := map[[] := None, [a] := Some(x), [a, b] := Some(y)];
            Tree(view) && Lookup(view, [a]) == Some(x) && Lookup(Removed(view, [a, b]), [a]) == None
  {
    var view: View<K, V> := map[[] := None, [a] := Some(x), [a, b] := Some(y)];
    var key := [a, b];
    assert key[..1] == [a] && key[..0] == [];
    assert [a, b][..1] == [a];
    assert Single(view, key[..0]) && Single(view, key[..1]);
    assert Cut(view, key, 1) == 0 && Cut(view, key, 2) == 0;
    assert CutOff(view, key, [a]);
  }

  // ----- the trie in the heap -----

  /** The children of every node, by the path of the node. */
  ghost function Kids<K, V>(nodes: map<seq<K>, ExprTrie<K, V>>): map<seq<K>, map<K, ExprTrie<K, V>>>
    reads nodes.Values
  {
    map p | p in nodes :: nodes[p].children
  }

  ghost predicate Reached<K, V>(kids: map<seq<K>, map<K, ExprTrie<K, V>>>, p: seq<K>) {
    p != [] ==> Parent(p) in kids && Last(p) in kids[Parent(p)]
  }

  ghost predicate AllReached<K, V>(kids: map<seq<K>, map<K, ExprTrie<K, V>>>) {
    forall p {:trigger Reached(kids, p)} | p in kids :: Reached(kids, p)
  }

  ghost predicate ChildrenOk<K, V>(nodes: map<seq<K>, ExprTrie<K, V>>, kids: map<seq<K>, map<K, ExprTrie<K, V>>>) {
    forall p, k | p in kids && k in kids[p] :: Child(p, k) in nodes && kids[p][k] == nodes[Child(p, k)]
  }

  /** Nodes are reached through the children of their parents, each by one path only. */
  ghost predicate Linked<K, V>(nodes: map<seq<K>, ExprTrie<K, V>>, kids: map<seq<K>, map<K, ExprTrie<K, V>>>) {
    && kids.Keys == nodes.Keys
    && (forall p, q | p in nodes && q in nodes && p != q :: nodes[p] != nodes[q])
    && AllReached(kids)
    && ChildrenOk(nodes, kids)
  }

  lemma {:induction false} ChildInjective<K>(p: seq<K>, k: K, q: seq<K>, m: K)
    requires Child(p, k) == Child(q, m)
    ensures p == q && k == m
  {
    assert Child(p, k)[|p|] == k && Child(q, m)[|q|] == m;
    assert Child(p, k)[..|p|] == p && Child(q, m)[..|q|] == q;
  }

  lemma {:induction false} ParentChild<K>(p: seq<K>, k: K)
    ensures IsChild(Child(p, k), p) && Last(Child(p, k)) == k
  {
  }

  lemma {:induction false} ChildParent<K>(q: seq<K>)
    requires q != []
    ensures q == Child(Parent(q), Last(q))
  {
  }

  lemma {:induction false} AddLinked<K, V>(nodes: map<seq<K>, ExprTrie<K, V>>,
      kids: map<seq<K>, map<K, ExprTrie<K, V>>>, p: seq<K>, k: K, child: ExprTrie<K, V>)
    requires Linked(nodes, kids) && p in nodes && k !in kids[p] && child !in nodes.Values
    ensures Linked(nodes[Child(p, k) := child], kids[p := kids[p][k := child]][Child(p, k) := map[]])
  {
    hide AllReached, ChildrenOk;
    AddReached(kids, p, k, map[], child);
    AddChildrenOk(nodes, kids, p, k, child);
  }

  lemma {:induction false} AddReached<K, V>(kids: map<seq<K>, map<K, ExprTrie<K, V>>>, p: seq<K>, k: K,
      none: map<K, ExprTrie<K, V>>, child: ExprTrie<K, V>)
    requires AllReached(kids) && p in kids && k !in kids[p]
    ensures Child(p, k) !in kids && AllReached(kids[p := kids[p][k := child]][Child(p, k) := none])
  {
    hide Parent, Last;
    var c := Child(p, k);
    var kids' := kids[p := kids[p][k := child]][c := none];
    ParentChild(p, k);
    assert c != p && (c in kids ==> Reached(kids, c));
    forall q | q in kids' ensures Reached(kids', q) {
      assert q in kids ==> Reached(kids, q);
    }
  }

  lemma {:induction false} AddChildrenOk<K, V>(nodes: map<seq<K>, ExprTrie<K, V>>,
      kids: map<seq<K>, map<K, ExprTrie<K, V>>>, p: seq<K>, k: K, child: ExprTrie<K, V>)
    requires ChildrenOk(nodes, kids) && p in kids && k !in kids[p] && Child(p, k) !in nodes
    ensures ChildrenOk(nodes[Child(p, k) := child], kids[p := kids[p][k := child]][Child(p, k) := map[]])
  {
    hide Child;
    var c := Child(p, k);
    var nodes', kids' := nodes[c := child], kids[p := kids[p][k := child]][c := map[]];
    forall q, m | q in kids' && m in kids'[q] ensures Child(q, m) in nodes' && kids'[q][m] == nodes'[Child(q, m)] {
      if q != p || m != k {
        assert m in kids[q];
      }
    }
  }

  class ExprTrie<K(==), V> {
    var children: map<K, ExprTrie<K, V>>
    var data: Option<V>
    /** For the trie a call starts from: the nodes it reaches, by path. */
    ghost var nodes: map<seq<K>, ExprTrie<K, V>>

    constructor ()
      ensures Valid() && children == map[] && data == None && nodes == map[[] := this]
    {
      children, data := map[], None;
      new;
      nodes := map[[] := this];
      assert forall k: K :: Child([], k) != [];
    }

    ghost predicate Valid()
      reads this, nodes.Values
    {
      [] in nodes && nodes[[]] == this && Linked(nodes, Kids(nodes))
    }

    ghost function Contents(): View<K, V>
      reads this, nodes.Values
    {
      map p | p in nodes :: nodes[p].data
    }

    lemma {:induction false} OwnNode()
      requires Valid()
      ensures this in nodes.Values
    {
      assert [] in nodes;
    }

    lemma {:induction false} ContentsKeys()
      ensures Contents().Keys == nodes.Keys
    {
    }

    /** A missing child is created on access. */
    method AddChild(et: ExprTrie<K, V>, ghost p: seq<K>, k: K)
      requires Valid() && p in nodes && nodes[p] == et && k !in et.children
      modifies this`nodes, et`children
      ensures Valid() && Child(p, k) in nodes && fresh(nodes[Child(p, k)])
      ensures nodes == old(nodes)[Child(p, k) := nodes[Child(p, k)]]
      ensures Contents() == old(Contents())[Child(p, k) := None]
    {
      hide Linked, Child;
      var child := new ExprTrie();
      ghost var kids, view := Kids(nodes), Contents();
      LinkedChild(nodes, kids, p, k);
      LinkedOnce(nodes, kids, p);
      AddLinked(nodes, kids, p, k, child);
      ParentChild(p, k);
      et.children := et.children[k := child];
      nodes := nodes[Child(p, k) := child];
      KidsAdd(old(nodes), kids, p, k, child);
      ContentsAdd(this, old(nodes), view, Child(p, k), child);
    }

    /** The node of a key; missing nodes are created on the way. */
    method Get(key: seq<K>) returns (et: ExprTrie<K, V>)
      requires Valid()
      modifies this, nodes.Values
      ensures Valid() && key in nodes && et == nodes[key]
      ensures forall p :: Lookup(Contents(), p) == Lookup(old(Contents()), p)
      ensures fresh(nodes.Values - old(nodes.Values))
    {
      hide Linked;
      et := this;
      var i := 0;
      while i < |key|
        invariant 0 <= i <= |key| && Valid() && key[..i] in nodes && et == nodes[key[..i]]
        invariant forall p :: Lookup(Contents(), p) == Lookup(old(Contents()), p)
        invariant forall p | p in nodes :: (p in old(nodes) && nodes[p] == old(nodes)[p]) || fresh(nodes[p])
      {
        var k := key[i];
        assert key[..i + 1] == Child(key[..i], k);
        LinkedChild(nodes, Kids(nodes), key[..i], k);
        if k !in et.children {
          AddChild(et, key[..i], k);
        }
        LinkedChild(nodes, Kids(nodes), key[..i], k);
        et := et.children[k];
        i := i + 1;
      }
      assert key[..i] == key;
    }

    /** A term is registered under its children. */
    method Put(key: seq<K>, v: V)
      requires Valid()
      modifies this, nodes.Values
      ensures Valid()
      ensures forall p :: Lookup(Contents(), p) == if p == key then Some(v) else Lookup(old(Contents()), p)
    {
      hide Linked;
      var et := Get(key);
      SetData(et, key, v);
    }

    /** The data of a node is set. */
    method SetData(et: ExprTrie<K, V>, ghost key: seq<K>, v: V)
      requires Valid() && key in nodes && nodes[key] == et
      modifies et`data
      ensures Valid() && Contents() == old(Contents())[key := Some(v)]
    {
      hide Linked;
      ghost var kids := Kids(nodes);
      LinkedOnce(nodes, kids, key);
      et.data := Some(v);
      assert Kids(nodes) == kids;
    }

    /** The subtree at a child is erased. */
    method CutChild(et: ExprTrie<K, V>, ghost p: seq<K>, k: K)
      requires Valid() && p in nodes && nodes[p] == et && k in et.children
      modifies this`nodes, et`children
      ensures Valid() && nodes == Outside(old(nodes), Child(p, k))
      ensures Contents() == Outside(old(Contents()), Child(p, k))
    {
      hide Linked;
      ghost var kids, view := Kids(nodes), Contents();
      LinkedOnce(nodes, kids, p);
      CutLinked(nodes, kids, p, k);
      et.children := et.children - {k};
      nodes := Outside(nodes, Child(p, k));
      KidsCut(nodes, kids, p, k);
    }

    /** The node of the key, and the candidate to delete from: where the last chain of only children starts. */
    method FindCut(key: seq<K>) returns (et: ExprTrie<K, V>, etd: ExprTrie?<K, V>, at: nat)
      requires Valid() && key in nodes
      ensures et == nodes[key]
      ensures var c := Cut(Contents(), key, |key|);
              if c == |key| then etd == null else c < |key| && at == c && key[..c] in nodes && etd == nodes[key[..c]]
    {
      hide Linked, Single, Kids, Contents;
      ghost var kids, view := Kids(nodes), Contents();
      et, etd, at := this, null, 0;
      var i := 0;
      while i < |key|
        invariant 0 <= i <= |key| && key[..i] in nodes && et == nodes[key[..i]]
        invariant var c := Cut(view, key, i);
                  c <= i && key[..c] in nodes && etd == (if c < i then nodes[key[..c]] else null) && (c < i ==> at == c)
      {
        assert key[..i + 1] == Child(key[..i], key[i]);
        KeyOnPath(nodes, kids, key, i + 1);
        LinkedChild(nodes, kids, key[..i], key[i]);
        KidsAt(nodes, key[..i]);
        ContentsKeys();
        SingleIff(nodes, kids, view, key[..i]);
        if etd == null {
          etd := et;
          at := i;
        }
        if |et.children| > 1 {
          etd := null;
        }
        et := et.children[key[i]];
        i := i + 1;
      }
      assert key[..i] == key;
    }

    /** Clears a key, and erases the chain of only children that leads to it. */
    method Remove(key: seq<K>)
      requires Valid() && key in nodes
      modifies this, nodes.Values
      ensures Valid() && Contents() == Removed(old(Contents()), key)
    {
      hide Linked, Cut, Cleared, Removed;
      ghost var kids, view := Kids(nodes), Contents();
      var et, etd, at := FindCut(key);
      LinkedOnce(nodes, kids, key);
      if etd != null {
        assert key[..at + 1] == Child(key[..at], key[at]);
        KeyOnPath(nodes, kids, key, at + 1);
        LinkedChild(nodes, kids, key[..at], key[at]);
        CutChild(etd, key[..at], key[at]);
      }
      ClearData(et, key);
      RemovedIs(view, key);
    }

    /** The data of a node is cleared, whether or not the node is still in the trie. */
    method ClearData(et: ExprTrie<K, V>, ghost key: seq<K>)
      requires Valid() && forall p | p in nodes :: nodes[p] == et <==> p == key
      modifies et`data
      ensures Valid() && Contents() == Cleared(old(Contents()), key)
    {
      hide Linked;
      ghost var kids := Kids(nodes);
      et.data := None;
      assert Kids(nodes) == kids;
    }
  }

  ghost function Cleared<K, V>(view: View<K, V>, key: seq<K>): View<K, V> {
    map p | p in view :: if p == key then None else view[p]
  }

  lemma {:induction false} RemovedIs<K, V>(view: View<K, V>, key: seq<K>)
    ensures var c := Cut(view, key, |key|);
            Removed(view, key) == Cleared(if c < |key| then Outside(view, key[..c + 1]) else view, key)
  {
  }

  /** The paths that do not go through `q`. */
  ghost function Outside<K, T>(m: map<seq<K>, T>, q: seq<K>): map<seq<K>, T> {
    map p | p in m && !(q <= p) :: m[p]
  }

  lemma {:induction false} CutLinked<K, V>(nodes: map<seq<K>, ExprTrie<K, V>>,
      kids: map<seq<K>, map<K, ExprTrie<K, V>>>, p: seq<K>, k: K)
    requires Linked(nodes, kids) && p in nodes && k in kids[p]
    ensures p in Outside(nodes, Child(p, k))
    ensures Linked(Outside(nodes, Child(p, k)), Outside(kids[p := kids[p] - {k}], Child(p, k)))
  {
    hide AllReached, ChildrenOk;
    assert !(Child(p, k) <= p);
    CutReached(kids, p, k);
    CutChildrenOk(nodes, kids, p, k);
  }

  lemma {:induction false} CutReached<K, V>(kids: map<seq<K>, map<K, ExprTrie<K, V>>>, p: seq<K>, k: K)
    requires AllReached(kids) && p in kids
    ensures AllReached(Outside(kids[p := kids[p] - {k}], Child(p, k)))
  {
    hide Parent, Last;
    var kids' := Outside(kids[p := kids[p] - {k}], Child(p, k));
    forall q | q in kids' ensures Reached(kids', q) {
      assert Reached(kids, q);
      if q != [] {
        ChildParent(q);
        BelowChild(p, k, Parent(q), Last(q));
      }
    }
  }

  lemma {:induction false} CutChildrenOk<K, V>(nodes: map<seq<K>, ExprTrie<K, V>>,
      kids: map<seq<K>, map<K, ExprTrie<K, V>>>, p: seq<K>, k: K)
    requires ChildrenOk(nodes, kids) && p in kids
    ensures ChildrenOk(Outside(nodes, Child(p, k)), Outside(kids[p := kids[p] - {k}], Child(p, k)))
  {
    hide Child;
    var c := Child(p, k);
    var nodes', kids' := Outside(nodes, c), Outside(kids[p := kids[p] - {k}], c);
    forall q, m | q in kids' && m in kids'[q] ensures Child(q, m) in nodes' && kids'[q][m] == nodes'[Child(q, m)] {
      BelowChild(p, k, q, m);
    }
  }

  lemma {:induction false} BelowChild<K>(p: seq<K>, k: K, q: seq<K>, m: K)
    ensures Child(p, k) <= Child(q, m) <==> Child(p, k) <= q || (p == q && k == m)
  {
    if Child(p, k) <= Child(q, m) {
      assert Child(q, m)[..|p| + 1] == if |p| < |q| then q[..|p| + 1] else Child(q, m);
      if |p| == |q| {
        ChildInjective(p, k, q, m);
      }
    }
  }

  lemma {:induction false} KeyOnPath<K, V>(nodes: map<seq<K>, ExprTrie<K, V>>,
      kids: map<seq<K>, map<K, ExprTrie<K, V>>>, key: seq<K>, n: nat)
    requires Linked(nodes, kids) && key in nodes && n <= |key|
    ensures key[..n] in nodes
    decreases |key| - n
  {
    if n < |key| {
      KeyOnPath(nodes, kids, key, n + 1);
      assert Reached(kids, key[..n + 1]) && Parent(key[..n + 1]) == key[..n];
    } else {
      assert key[..n] == key;
    }
  }

  lemma {:induction false} SingleIff<K, V>(nodes: map<seq<K>, ExprTrie<K, V>>,
      kids: map<seq<K>, map<K, ExprTrie<K, V>>>, view: View<K, V>, p: seq<K>)
    requires Linked(nodes, kids) && view.Keys == nodes.Keys && p in nodes
    ensures p in kids && (Single(view, p) <==> |kids[p]| <= 1)
  {
    AtMostOne(kids[p].Keys);
    assert |kids[p]| == |kids[p].Keys|;
    if Single(view, p) {
      forall k, m | k in kids[p].Keys && m in kids[p].Keys ensures k == m {
        ParentChild(p, k);
        ParentChild(p, m);
        assert Child(p, k) in view && Child(p, m) in view;
      }
    }
    forall q | q in view && IsChild(q, p) ensures Last(q) in kids[p].Keys && q == Child(p, Last(q)) {
      assert Reached(kids, q);
      ChildParent(q);
    }
  }

  lemma {:induction false} AtMostOne<T>(s: set<T>)
    ensures |s| <= 1 <==> forall x, y | x in s && y in s :: x == y
  {
    if x, y :| x in s && y in s && x != y {
      assert |s - {x}| > 0;
    }
    if |s| > 1 {
      var x :| x in s;
      assert |s - {x}| > 0;
      var y :| y in s - {x};
    }
  }

  lemma {:induction false} KidsAt<K, V>(nodes: map<seq<K>, ExprTrie<K, V>>, p: seq<K>)
    requires p in nodes
    ensures p in Kids(nodes) && Kids(nodes)[p] == nodes[p].children
  {
  }

  lemma {:induction false} KidsAdd<K, V>(nodes: map<seq<K>, ExprTrie<K, V>>,
      kids: map<seq<K>, map<K, ExprTrie<K, V>>>, p: seq<K>, k: K, child: ExprTrie<K, V>)
    requires kids.Keys == nodes.Keys && p in nodes && k !in kids[p] && child.children == map[]
    requires nodes[p].children == kids[p][k := child] && Child(p, k) !in nodes
    requires forall q | q in nodes && q != p :: nodes[q].children == kids[q]
    ensures Kids(nodes[Child(p, k) := child]) == kids[p := kids[p][k := child]][Child(p, k) := map[]]
  {
  }

  lemma {:induction false} KidsCut<K, V>(nodes: map<seq<K>, ExprTrie<K, V>>,
      kids: map<seq<K>, map<K, ExprTrie<K, V>>>, p: seq<K>, k: K)
    requires nodes.Keys == Outside(kids, Child(p, k)).Keys && p in nodes
    requires nodes[p].children == kids[p] - {k}
    requires forall q | q in nodes && q != p :: nodes[q].children == kids[q]
    ensures Kids(nodes) == Outside(kids[p := kids[p] - {k}], Child(p, k))
  {
  }

  lemma {:induction false} ContentsAdd<K, V>(trie: ExprTrie<K, V>, nodes: map<seq<K>, ExprTrie<K, V>>,
      view: View<K, V>, c: seq<K>, child: ExprTrie<K, V>)
    requires view.Keys == nodes.Keys && trie.nodes == nodes[c := child] && child.data == None
    requires forall q | q in nodes :: nodes[q].data == view[q]
    ensures trie.Contents() == view[c := None]
  {
  }

  lemma {:induction false} LinkedOnce<K, V>(nodes: map<seq<K>, ExprTrie<K, V>>,
      kids: map<seq<K>, map<K, ExprTrie<K, V>>>, p: seq<K>)
    requires Linked(nodes, kids) && p in nodes
    ensures forall q | q in nodes && q != p :: nodes[q] != nodes[p]
  {
  }

  lemma {:induction false} LinkedChild<K, V>(nodes: map<seq<K>, ExprTrie<K, V>>,
      kids: map<seq<K>, map<K, ExprTrie<K, V>>>, p: seq<K>, k: K)
    requires Linked(nodes, kids) && p in nodes
    ensures p in kids && (k in kids[p] <==> Child(p, k) in nodes)
    ensures k in kids[p] ==> kids[p][k] == nodes[Child(p, k)]
  {
    ParentChild(p, k);
    assert Child(p, k) in nodes ==> Reached(kids, Child(p, k));
  }
}
