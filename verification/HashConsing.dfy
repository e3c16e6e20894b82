/** Hash-consing: objects are shared exactly when their terms are equal. */
module HashConsing {
  import opened Terms
  import opened TermDatabase
  import opened ListSpecs
  import opened ExprTries

  type Key = (Kind, seq<ExprValue>)

  /** The leaves that are shared by value: literals and `eo::?`. */
  predicate IsShared(t: Term) {
    IsLiteral(t) || t.Any?
  }

  ghost function SymbolId(t: Term): nat {
    match t
    case Param(id) => id
    case ProgramConst(id) => id
    case Symbol(id) => id
    case _ => 0
  }

  /** The objects with a kind and children are known exactly under their kind and children. */
  ghost predicate InnersOk(db: set<ExprValue>, known: map<Key, ExprValue>) {
    && (forall k | k in known :: known[k] in db && known[k].head == Inner(k.0) && known[k].children == k.1)
    && (forall n | n in db && n.head.Inner? :: (n.head.kind, n.children) in known && known[(n.head.kind, n.children)] == n)
  }

  /** Shared leaves are known by their term, and symbols have distinct numbers. */
  ghost predicate LeavesOk(db: set<ExprValue>, literals: map<Term, ExprValue>, symCount: nat) {
    && (forall t | t in literals :: literals[t] in db && literals[t].head == Leaf(t) && IsShared(t))
    && (forall n | n in db && n.head.Leaf? && IsShared(n.term) :: n.term in literals && literals[n.term] == n)
    && (forall n | n in db && n.head.Leaf? && !IsShared(n.term) :: SymbolId(n.term) < symCount)
    && (forall n, m | n in db && m in db && n.head.Leaf? && m.head.Leaf? && !IsShared(n.term) && !IsShared(m.term) &&
          SymbolId(n.term) == SymbolId(m.term) :: n == m)
  }

  lemma {:induction false} AddInner(db: set<ExprValue>, known: map<Key, ExprValue>, literals: map<Term, ExprValue>,
                                    symCount: nat, ev: ExprValue)
    requires Closed(db) && InnersOk(db, known) && LeavesOk(db, literals, symCount) && ev !in db
    requires ev.WellFormed() && ev.head.Inner? && (ev.head.kind, ev.children) !in known
    requires forall i | 0 <= i < |ev.children| :: ev.children[i] in db
    ensures Closed(db + {ev}) && LeavesOk(db + {ev}, literals, symCount)
    ensures InnersOk(db + {ev}, known[(ev.head.kind, ev.children) := ev])
  {
  }

  lemma {:induction false} AddLeaf(db: set<ExprValue>, known: map<Key, ExprValue>, literals: map<Term, ExprValue>,
                                   symCount: nat, ev: ExprValue)
    requires Closed(db) && InnersOk(db, known) && LeavesOk(db, literals, symCount) && ev !in db
    requires ev.WellFormed() && ev.head.Leaf?
    requires if IsShared(ev.term) then ev.term !in literals else SymbolId(ev.term) == symCount
    ensures Closed(db + {ev}) && InnersOk(db + {ev}, known)
    ensures if IsShared(ev.term) then LeavesOk(db + {ev}, literals[ev.term := ev], symCount)
            else LeavesOk(db + {ev}, literals, symCount + 1)
  {
  }

  lemma {:induction false} KnownIff(db: set<ExprValue>, known: map<Key, ExprValue>, k: Kind, children: seq<ExprValue>)
    requires InnersOk(db, known)
    ensures (k, children) in known <==> exists n :: n in db && n.head == Inner(k) && n.children == children
    ensures (k, children) in known ==>
              var n := known[(k, children)]; n in db && n.head == Inner(k) && n.children == children
  {
    if n :| n in db && n.head == Inner(k) && n.children == children {
      assert (n.head.kind, n.children) in known;
    }
  }

  /** A new object, with clear flags, keeps all flags right. */
  lemma {:induction false} AddFlags(db: set<ExprValue>, fm: FlagMap, ev: ExprValue)
    requires FlagsOk(db, fm) && ev !in db && Closed(db + {ev})
    ensures FlagsOk(db + {ev}, fm[ev := CLEAR])
  {
  }

  // ----- the tries -----

  type Trie = ExprTrie<ExprValue, ExprValue>
  type TrieView = View<ExprValue, ExprValue>

  /** What the trie of one kind stores. */
  ghost predicate ViewIs(k: Kind, view: TrieView, known: map<Key, ExprValue>) {
    && (forall p | p in view :: view[p] == if (k, p) in known then Some(known[(k, p)]) else None)
    && (forall key | key in known && key.0 == k :: key.1 in view)
  }

  /** Creating nodes changes nothing that is stored. */
  lemma {:induction false} ViewGrows(k: Kind, view: TrieView, view': TrieView, known: map<Key, ExprValue>)
    requires ViewIs(k, view, known) && forall p :: Lookup(view', p) == Lookup(view, p)
    ensures ViewIs(k, view', known)
  {
    forall p | p in view' ensures view'[p] == if (k, p) in known then Some(known[(k, p)]) else None {
      assert Lookup(view', p) == Lookup(view, p);
      assert (k, p) in known ==> (k, p).1 in view;
    }
    forall key | key in known && key.0 == k ensures key.1 in view' {
      assert key == (k, key.1) && Lookup(view', key.1) == Lookup(view, key.1);
    }
  }

  lemma {:induction false} ViewAt(k: Kind, view: TrieView, known: map<Key, ExprValue>, p: seq<ExprValue>)
    requires ViewIs(k, view, known) && p in view
    ensures view[p] == if (k, p) in known then Some(known[(k, p)]) else None
  {
  }

  lemma {:induction false} ViewStore(m: Kind, view: TrieView, known: map<Key, ExprValue>, k: Kind, p: seq<ExprValue>,
      ev: ExprValue)
    requires ViewIs(m, view, known) && (m == k ==> p in view)
    ensures ViewIs(m, if m == k then view[p := Some(ev)] else view, known[(k, p) := ev])
  {
  }

  /** The trie of a kind stores exactly the known objects of that kind. */
  ghost predicate TrieKnows(k: Kind, trie: Trie, known: map<Key, ExprValue>)
    reads trie, trie.nodes.Values
  {
    trie.Valid() && ViewIs(k, trie.Contents(), known)
  }

  /** Tries with these nodes share none of them, and all their nodes are in `repr`. */
  ghost predicate HeldBy(tries: map<Kind, Trie>, nodes: map<Kind, map<seq<ExprValue>, Trie>>, repr: set<Trie>) {
    && nodes.Keys == tries.Keys
    && (forall k | k in tries :: tries[k] in repr && tries[k] in nodes[k].Values && nodes[k].Values <= repr)
    && (forall k, m | k in tries && m in tries && k != m :: nodes[k].Values !! nodes[m].Values)
  }

  /** The tries of the kinds do not share nodes, and all their nodes are in `repr`. */
  ghost predicate Held(tries: map<Kind, Trie>, repr: set<Trie>)
    reads repr
  {
    (forall k | k in tries :: tries[k] in repr) && HeldBy(tries, map k | k in tries :: tries[k].nodes, repr)
  }

  ghost predicate AllKnow(tries: map<Kind, Trie>, repr: set<Trie>, known: map<Key, ExprValue>)
    requires Held(tries, repr)
    reads repr
  {
    (forall k | k in tries :: TrieKnows(k, tries[k], known)) && forall key | key in known :: key.0 in tries
  }

  /** The node of a key in the trie of a kind; missing nodes are created. */
  method GetIn(tries: map<Kind, Trie>, ghost repr: set<Trie>, ghost known: map<Key, ExprValue>,
      k: Kind, children: seq<ExprValue>) returns (et: Trie, ghost repr': set<Trie>)
    requires Held(tries, repr) && AllKnow(tries, repr, known) && k in tries
    modifies repr
    ensures Held(tries, repr') && AllKnow(tries, repr', known) && fresh(repr' - repr) && repr <= repr'
    ensures children in tries[k].nodes && et == tries[k].nodes[children]
    ensures et.data == if (k, children) in known then Some(known[(k, children)]) else None
  {
    hide Lookup, TrieKnows, ViewIs, HeldBy, ExprTrie.Valid, ExprTrie.Contents;
    var trie := tries[k];
    HeldApart(tries, repr, k);
    et := GetKnown(trie, known, k, children);
    repr' := repr + trie.nodes.Values;
    forall m | m in tries && m != k ensures tries[m].nodes == old(tries[m].nodes) && TrieKnows(m, tries[m], known) {
    }
    HeldGrows(tries, repr, old(map m | m in tries :: tries[m].nodes), map m | m in tries :: tries[m].nodes, k, repr');
  }

  lemma {:induction false} HeldApart(tries: map<Kind, Trie>, repr: set<Trie>, k: Kind)
    requires Held(tries, repr) && k in tries
    ensures tries[k] in repr && tries[k] in tries[k].nodes.Values && tries[k].nodes.Values <= repr
    ensures forall m | m in tries && m != k ::
              tries[m] !in tries[k].nodes.Values && tries[m].nodes.Values !! tries[k].nodes.Values
  {
  }

  /** New nodes in one trie. */
  lemma {:induction false} HeldGrows(tries: map<Kind, Trie>, repr: set<Trie>,
      nodes: map<Kind, map<seq<ExprValue>, Trie>>, nodes': map<Kind, map<seq<ExprValue>, Trie>>, k: Kind, repr': set<Trie>)
    requires HeldBy(tries, nodes, repr) && k in tries && nodes'.Keys == tries.Keys
    requires (nodes'[k].Values - nodes[k].Values) !! repr && tries[k] in nodes'[k].Values
    requires repr' == repr + nodes'[k].Values && forall m | m in tries && m != k :: nodes'[m] == nodes[m]
    ensures HeldBy(tries, nodes', repr')
  {
    var grown := nodes'[k].Values;
    forall m | m in tries && m != k ensures grown !! nodes'[m].Values {
      forall x | x in nodes[m].Values ensures x !in grown {
        assert x in repr && x !in nodes[k].Values;
      }
    }
  }

  method GetKnown(trie: Trie, ghost known: map<Key, ExprValue>, k: Kind, children: seq<ExprValue>) returns (et: Trie)
    requires TrieKnows(k, trie, known)
    modifies trie, trie.nodes.Values
    ensures TrieKnows(k, trie, known) && fresh(trie.nodes.Values - old(trie.nodes.Values)) && trie in trie.nodes.Values
    ensures children in trie.nodes && et == trie.nodes[children]
    ensures et.data == if (k, children) in known then Some(known[(k, children)]) else None
  {
    hide ViewIs, Lookup, ExprTrie.Valid;
    ghost var view := trie.Contents();
    et := trie.Get(children);
    trie.OwnNode();
    ViewGrows(k, view, trie.Contents(), known);
    ViewAt(k, trie.Contents(), known, children);
  }

  /** The object is stored in its node. */
  method SetIn(tries: map<Kind, Trie>, ghost repr: set<Trie>, ghost known: map<Key, ExprValue>, et: Trie,
      k: Kind, children: seq<ExprValue>, ev: ExprValue)
    requires Held(tries, repr) && AllKnow(tries, repr, known)
    requires k in tries && children in tries[k].nodes && et == tries[k].nodes[children]
    modifies et`data
    ensures Held(tries, repr) && AllKnow(tries, repr, known[(k, children) := ev])
  {
    hide ViewIs, ExprTrie.Valid;
    ghost var known' := known[(k, children) := ev];
    forall m | m in tries
      ensures ViewIs(m, if m == k then tries[m].Contents()[children := Some(ev)] else tries[m].Contents(), known')
    {
      assert TrieKnows(m, tries[m], known);
      ViewStore(m, tries[m].Contents(), known, k, children, ev);
    }
    tries[k].SetData(et, children, ev);
    forall m | m in tries && m != k ensures TrieKnows(m, tries[m], known') {
      assert et !in tries[m].nodes.Values && et != tries[m];
    }
  }

  class TermTable {
    var tries: map<Kind, Trie>
    var literals: map<Term, ExprValue>
    var symCount: nat
    /** The nil terminators of the operators, and whether they associate to the left. */
    var assoc: map<ExprValue, (ExprValue, bool)>
    ghost var db: set<ExprValue>
    ghost var repr: set<Trie>
    ghost var known: map<Key, ExprValue>

    ghost predicate Valid()
      reads this, repr
    {
      Closed(db) && InnersOk(db, known) && LeavesOk(db, literals, symCount) && NilsOk(db, assoc) && TriesKnow()
    }

    /** The tries store exactly the known objects. */
    ghost predicate TriesKnow()
      reads this`tries, this`repr, this`known, repr
    {
      Held(tries, repr) && AllKnow(tries, repr, known)
    }

    constructor ()
      ensures Valid() && db == {}
    {
      tries, literals, symCount, assoc, db, repr, known := map[], map[], 0, map[], {}, {}, map[];
    }

    /** Two objects of the table are the same object exactly when they have the same term. */
    lemma {:induction false} SameObjectIffSameTerm(x: ExprValue, y: ExprValue)
      requires Valid() && x in db && y in db
      ensures x == y <==> x.term == y.term
      decreases x.term
    {
      if x.term == y.term && x.head.Inner? {
        forall i | 0 <= i < |x.children| ensures x.children[i] == y.children[i] {
          SameObjectIffSameTerm(x.children[i], y.children[i]);
        }
        assert x.children == y.children;
      }
    }

    /** The node of a kind and children; the trie of the kind is created when it is first asked for. */
    method GetNode(k: Kind, children: seq<ExprValue>) returns (et: Trie)
      requires TriesKnow()
      modifies this`tries, this`repr, repr
      ensures TriesKnow() && k in tries && children in tries[k].nodes && et == tries[k].nodes[children]
      ensures et in repr && fresh(repr - old(repr)) && old(repr) <= repr
      ensures et.data == if (k, children) in known then Some(known[(k, children)]) else None
    {
      hide Held, AllKnow;
      if k !in tries {
        AddTrie(k);
      }
      et, repr := GetIn(tries, repr, known, k, children);
      NodeHeld(tries, repr, k, children);
    }

    method AddTrie(k: Kind)
      requires TriesKnow() && k !in tries
      modifies this`tries, this`repr
      ensures TriesKnow() && k in tries && fresh(repr - old(repr)) && old(repr) <= repr
    {
      hide TrieKnows, Held, ExprTrie.Valid;
      var trie := new ExprTrie();
      EmptyKnows(k, trie, known);
      HeldMore(tries, repr, k, trie);
      tries := tries[k := trie];
      repr := repr + {trie};
      assert forall m | m in tries && m != k :: TrieKnows(m, tries[m], known);
    }

    /** The object of that kind over those children: the one made before, if there is one. */
    method MkExprInternal(k: Kind, children: seq<ExprValue>) returns (ev: ExprValue)
      requires Valid() && forall i | 0 <= i < |children| :: children[i] in db
      modifies this`tries, this`repr, this`known, this`db, repr
      ensures Valid() && db == old(db) + {ev}
      ensures ev.head == Inner(k) && ev.children == children
      ensures if (exists n :: n in old(db) && n.head == Inner(k) && n.children == children) then ev in old(db) else fresh(ev)
      ensures old(FlagsOk(db, FlagsOf(db))) ==> FlagsOk(db, FlagsOf(db))
    {
      hide FlagsOk, Closed, LeavesOk, NilsOk, Held, AllKnow, InnersOk;
      KnownIff(db, known, k, children);
      var et := GetNode(k, children);
      if et.data.Some? {
        ev := et.data.value;
        assert db == old(db) + {ev};
      } else {
        ev := Register(et, k, children);
      }
    }

    /** A new object is made and stored in the node. */
    method Register(et: Trie, k: Kind, children: seq<ExprValue>) returns (ev: ExprValue)
      requires Valid() && (k, children) !in known && forall i | 0 <= i < |children| :: children[i] in db
      requires k in tries && children in tries[k].nodes && et == tries[k].nodes[children]
      modifies this`known, this`db, et`data
      ensures Valid() && db == old(db) + {ev}
      ensures fresh(ev) && ev.head == Inner(k) && ev.children == children
      ensures old(FlagsOk(db, FlagsOf(db))) ==> FlagsOk(db, FlagsOf(db))
    {
      hide FlagsOk, Closed, LeavesOk, NilsOk, Held, AllKnow, InnersOk;
      ghost var terms := seq(|children|, i requires 0 <= i < |children| => children[i].term);
      ev := new ExprValue(Inner(k), children, Node(k, terms));
      AddInner(db, known, literals, symCount, ev);
      NilsGrow(db, assoc, ev);
      SetIn(tries, repr, known, et, k, children, ev);
      known := known[(k, children) := ev];
      db := db + {ev};
      KeepFlags(old(db), ev);
    }

    twostate lemma KeepFlags(db0: set<ExprValue>, new ev: ExprValue)
      requires fresh(ev) && !ev.computed && !ev.eval && !ev.nonGround
      requires Closed(db0 + {ev}) && forall n | n in db0 :: unchanged(n)
      ensures old(FlagsOk(db0, FlagsOf(db0))) ==> FlagsOk(db0 + {ev}, FlagsOf(db0 + {ev}))
    {
      if old(FlagsOk(db0, FlagsOf(db0))) {
        var fm := old(FlagsOf(db0));
        AddFlags(db0, fm, ev);
        assert FlagsOf(db0 + {ev}) == fm[ev := CLEAR];
      }
    }

    method MkLiteralInternal(t: Term) returns (ev: ExprValue)
      requires Valid() && IsShared(t)
      modifies this`literals, this`db
      ensures Valid() && db == old(db) + {ev} && ev.term == t
      ensures old(FlagsOk(db, FlagsOf(db))) ==> FlagsOk(db, FlagsOf(db))
    {
      hide FlagsOk, InnersOk, NilsOk, TriesKnow;
      if t in literals {
        ev := literals[t];
        assert db == old(db) + {ev};
        return;
      }
      ev := new ExprValue(Leaf(t), [], t);
      AddLeaf(db, known, literals, symCount, ev);
      NilsGrow(db, assoc, ev);
      literals := literals[t := ev];
      db := db + {ev};
      KeepFlags(old(db), ev);
    }

    /** Every call makes a new symbol, also for a name used before. */
    method MkSymbolInternal(mk: nat -> Term) returns (ev: ExprValue)
      requires Valid() && forall id :: !mk(id).Node? && !IsShared(mk(id)) && SymbolId(mk(id)) == id
      modifies this`symCount, this`db
      ensures Valid() && db == old(db) + {ev} && fresh(ev)
      ensures ev.head == Leaf(ev.term) && ev.term == mk(old(symCount))
      ensures forall n | n in old(db) :: ev.term !in Subs(n.term)
      ensures old(FlagsOk(db, FlagsOf(db))) ==> FlagsOk(db, FlagsOf(db))
    {
      hide FlagsOk, InnersOk, LeavesOk, Closed, NilsOk, TriesKnow, Subs;
      FreshIsNew(db, literals, symCount, mk(symCount));
      ev := new ExprValue(Leaf(mk(symCount)), [], mk(symCount));
      AddLeaf(db, known, literals, symCount, ev);
      NilsGrow(db, assoc, ev);
      symCount := symCount + 1;
      db := db + {ev};
      KeepFlags(old(db), ev);
    }

    /** Declares an operator: its nil terminator is parsed before its symbol is made. */
    method DeclareOperator(nil: ExprValue, isLeft: bool) returns (op: ExprValue)
      requires Valid() && nil in db
      modifies this`symCount, this`db, this`assoc
      ensures Valid() && db == old(db) + {op} && fresh(op) && assoc == old(assoc)[op := (nil, isLeft)]
    {
      hide Closed, InnersOk, LeavesOk, TriesKnow, Subs;
      op := MkSymbolInternal((id: nat) => Symbol(id));
      assoc := assoc[op := (nil, isLeft)];
    }

    /** In every reachable table no nil terminator is an application of its operator. */
    lemma {:induction false} NilIsNoApplication(f: ExprValue)
      requires Valid() && f in assoc
      ensures !IsCons(assoc[f].0.term, f.term)
    {
      var nil := assoc[f].0.term;
      if IsCons(nil, f.term) {
        SubsSelf(nil);
        SubsChild(nil, nil, 0);
        SubsChild(nil, nil.children[0], 0);
        assert false;
      }
    }
  }

  lemma {:induction false} NodeHeld(tries: map<Kind, Trie>, repr: set<Trie>, k: Kind, p: seq<ExprValue>)
    requires Held(tries, repr) && k in tries && p in tries[k].nodes
    ensures tries[k].nodes[p] in repr
  {
    assert tries[k].nodes[p] in tries[k].nodes.Values;
  }

  lemma {:induction false} HeldMore(tries: map<Kind, Trie>, repr: set<Trie>, k: Kind, trie: Trie)
    requires Held(tries, repr) && trie !in repr && trie.nodes == map[[] := trie]
    ensures Held(tries[k := trie], repr + {trie})
  {
    assert trie.nodes[[]] == trie;
    assert trie.nodes.Values == {trie};
  }

  lemma {:induction false} EmptyKnows(k: Kind, trie: Trie, known: map<Key, ExprValue>)
    requires trie.Valid() && trie.nodes == map[[] := trie] && trie.data == None && forall key | key in known :: key.0 != k
    ensures TrieKnows(k, trie, known)
  {
  }

  /** An operator does not occur in its nil terminator. */
  ghost predicate NilsOk(db: set<ExprValue>, assoc: map<ExprValue, (ExprValue, bool)>) {
    forall f | f in assoc :: f in db && assoc[f].0 in db && f.term !in Subs(assoc[f].0.term)
  }

  lemma {:induction false} NilsGrow(db: set<ExprValue>, assoc: map<ExprValue, (ExprValue, bool)>, ev: ExprValue)
    requires NilsOk(db, assoc)
    ensures NilsOk(db + {ev}, assoc)
  {
  }

  /** What occurs in the term of an object is the term of an object. */
  lemma {:induction false} SubsAreObjects(db: set<ExprValue>, n: ExprValue, s: Term)
    requires Closed(db) && n in db && s in Subs(n.term)
    ensures exists m :: m in db && m.term == s
    decreases n.term
  {
    if s != n.term {
      var i :| 0 <= i < |n.term.children| && s in Subs(n.term.children[i]);
      SubsAreObjects(db, n.children[i], s);
    }
  }

  /** A symbol with the next number occurs in no object. */
  lemma {:induction false} FreshIsNew(db: set<ExprValue>, literals: map<Term, ExprValue>, symCount: nat, t: Term)
    requires Closed(db) && LeavesOk(db, literals, symCount) && !t.Node? && !IsShared(t) && SymbolId(t) == symCount
    ensures forall n | n in db :: t !in Subs(n.term)
  {
    forall n | n in db ensures t !in Subs(n.term) {
      if t in Subs(n.term) {
        SubsAreObjects(db, n, t);
        assert false;
      }
    }
  }
}
