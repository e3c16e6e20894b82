/** The database of term objects: hash-consing, and the flags that are computed in place. */
module TermDatabase {
  import opened Terms

  /** What an object holds besides its children: the data of a leaf, or a kind. */
  datatype Head = Leaf(t: Term) | Inner(kind: Kind)

  class ExprValue {
    const head: Head
    const children: seq<ExprValue>
    ghost const term: Term
    var computed: bool
    var eval: bool
    var nonGround: bool

    constructor (head: Head, children: seq<ExprValue>, ghost term: Term)
      ensures this.head == head && this.children == children && this.term == term
      ensures !computed && !eval && !nonGround
    {
      this.head, this.children, this.term := head, children, term;
      computed, eval, nonGround := false, false, false;
    }

    /** The term that the object and its children unfold to. */
    ghost predicate WellFormed() {
      match head
      case Leaf(t) => !t.Node? && term == t && children == []
      case Inner(k) =>
        term.Node? && term.kind == k && |term.children| == |children| &&
        forall i | 0 <= i < |children| :: children[i].term == term.children[i]
    }
  }

  /** The objects are well formed, and their children are among them. */
  ghost predicate Closed(db: set<ExprValue>) {
    forall n | n in db :: n.WellFormed() && forall i | 0 <= i < |n.children| :: n.children[i] in db
  }

  lemma {:induction false} ChildSmaller(n: ExprValue, i: nat)
    requires n.WellFormed() && i < |n.children|
    ensures Size(n.children[i].term) < Size(n.term)
  {
    SizeChild(n.term, i);
  }

  // ----- flags -----

  datatype Flags = Flags(computed: bool, eval: bool, nonGround: bool)

  type FlagMap = map<ExprValue, Flags>

  /** The flags of all objects. */
  ghost function FlagsOf(db: set<ExprValue>): FlagMap
    reads db
  {
    map n | n in db :: Flags(n.computed, n.eval, n.nonGround)
  }

  /** The flags that the term of an object should have. */
  ghost function TrueFlags(n: ExprValue): Flags {
    Flags(true, Evaluatable(n.term), !Ground(n.term))
  }

  const CLEAR := Flags(false, false, false)

  /** Flags that are computed are right, also for all children; all other flags are clear. */
  ghost predicate FlagsOk(db: set<ExprValue>, fm: FlagMap) {
    Closed(db) && fm.Keys == db &&
    forall n | n in db ::
      if fm[n].computed then fm[n] == TrueFlags(n) && forall c | c in n.children :: fm[c].computed
      else fm[n] == CLEAR
  }

  /** Position `i` of the stack holds `n`, and only smaller terms are above it. */
  ghost predicate Tops(visit: seq<ExprValue>, n: ExprValue, i: nat) {
    i < |visit| && visit[i] == n && forall j | i < j < |visit| :: Size(visit[j].term) < Size(n.term)
  }

  ghost predicate Finished(fm: FlagMap, open: set<ExprValue>, n: ExprValue)
    requires n in fm
  {
    fm[n].computed && n !in open
  }

  ghost predicate ChildrenFinished(fm: FlagMap, open: set<ExprValue>, n: ExprValue)
  {
    forall c | c in n.children :: c in fm && Finished(fm, open, c)
  }

  /** Each child is finished, or above position `i` of the stack. */
  ghost predicate Served(fm: FlagMap, open: set<ExprValue>, visit: seq<ExprValue>, n: ExprValue, i: nat)
    requires i < |visit|
  {
    forall c | c in n.children :: c in fm && (Finished(fm, open, c) || c in visit[i + 1..])
  }

  /** What holds during the traversal.  An open object is marked computed although its
      flags are still clear. */
  ghost predicate VisitInv(db: set<ExprValue>, fm: FlagMap, visited: set<ExprValue>, open: set<ExprValue>,
                           visit: seq<ExprValue>)
  {
    && Closed(db) && fm.Keys == db
    && (forall n | n in visit :: n in db && (fm[n].computed && n.children != [] ==> n in visited))
    && (forall n | n in visited :: n in db && fm[n].computed)
    && (forall n | n in db && !fm[n].computed :: fm[n] == CLEAR)
    && (forall n | n in db && Finished(fm, open, n) :: fm[n] == TrueFlags(n) && ChildrenFinished(fm, open, n))
    && (forall n | n in open :: n in visited && fm[n] == Flags(true, false, false) && exists i: nat :: Tops(visit, n, i))
    && (forall n, i: nat | n in open && Tops(visit, n, i) :: Served(fm, open, visit, n, i))
  }

  lemma {:induction false} VisitStart(db: set<ExprValue>, fm: FlagMap, root: ExprValue)
    requires FlagsOk(db, fm) && root in db && !fm[root].computed
    ensures VisitInv(db, fm, {}, {}, [root])
  {
  }

  lemma {:induction false} VisitEnd(db: set<ExprValue>, fm: FlagMap, visited: set<ExprValue>, open: set<ExprValue>)
    requires VisitInv(db, fm, visited, open, [])
    ensures FlagsOk(db, fm)
  {
  }

  lemma {:induction false} TopsUnique(visit: seq<ExprValue>, n: ExprValue, i: nat, j: nat)
    requires Tops(visit, n, i) && Tops(visit, n, j)
    ensures i == j
  {
  }

  /** The children of the object on top are finished if it has been visited. */
  lemma {:induction false} TopServed(db: set<ExprValue>, fm: FlagMap, visited: set<ExprValue>, open: set<ExprValue>,
                                     visit: seq<ExprValue>)
    requires VisitInv(db, fm, visited, open, visit) && visit != [] && visit[|visit| - 1] in visited
    ensures ChildrenFinished(fm, open, visit[|visit| - 1])
  {
    var n := |visit| - 1;
    if visit[n] in open {
      assert Tops(visit, visit[n], n);
      assert Served(fm, open, visit, visit[n], n);
      assert visit[n + 1..] == [];
    } else {
      assert Finished(fm, open, visit[n]);
    }
  }

  lemma {:induction false} PopTops(rest: seq<ExprValue>, cur: ExprValue, n: ExprValue, i: nat)
    requires Tops(rest + [cur], n, i) && n != cur
    ensures Tops(rest, n, i)
  {
    assert forall j | 0 <= j < |rest| :: (rest + [cur])[j] == rest[j];
  }

  lemma {:induction false} PopServed(db: set<ExprValue>, fm: FlagMap, visited: set<ExprValue>, open: set<ExprValue>,
                                     rest: seq<ExprValue>, cur: ExprValue, n: ExprValue, i: nat)
    requires VisitInv(db, fm, visited, open, rest + [cur]) && cur in db
    requires n in open - {cur} && Tops(rest, n, i)
    ensures Served(fm[cur := TrueFlags(cur)], open - {cur}, rest, n, i)
  {
    hide TrueFlags, ChildrenFinished;
    var visit := rest + [cur];
    var k: nat :| Tops(visit, n, k);
    PopTops(rest, cur, n, k);
    TopsUnique(rest, n, i, k);
    assert Served(fm, open, visit, n, i);
    assert visit[i + 1..] == rest[i + 1..] + [cur];
    assert (TrueFlags(cur)).computed by {
      TrueFlagsComputed(cur);
    }
  }

  lemma {:induction false} TrueFlagsComputed(n: ExprValue)
    ensures TrueFlags(n).computed
  {
  }

  lemma {:induction false} PopFinished(db: set<ExprValue>, fm: FlagMap, visited: set<ExprValue>, open: set<ExprValue>,
                                       rest: seq<ExprValue>, cur: ExprValue)
    requires VisitInv(db, fm, visited, open, rest + [cur]) && cur in db
    requires ChildrenFinished(fm, open, cur)
    ensures var fm', open' := fm[cur := TrueFlags(cur)], open - {cur};
            forall n | n in db && Finished(fm', open', n) :: fm'[n] == TrueFlags(n) && ChildrenFinished(fm', open', n)
  {
    var fm', open' := fm[cur := TrueFlags(cur)], open - {cur};
    forall n | n in db && Finished(fm', open', n)
      ensures fm'[n] == TrueFlags(n) && ChildrenFinished(fm', open', n)
    {
      if n != cur {
        assert Finished(fm, open, n);
      }
      assert ChildrenFinished(fm, open, n);
    }
  }

  /** Taking the top off with its true flags, once its children are finished. */
  lemma {:induction false} VisitPop(db: set<ExprValue>, fm: FlagMap, visited: set<ExprValue>, open: set<ExprValue>,
                                    rest: seq<ExprValue>, cur: ExprValue)
    requires VisitInv(db, fm, visited, open, rest + [cur])
    requires ChildrenFinished(fm, open, cur) && (cur in visited || cur.children == [])
    ensures VisitInv(db, fm[cur := TrueFlags(cur)], visited, open - {cur}, rest)
  {
    hide Served, Tops, ChildrenFinished;
    var visit := rest + [cur];
    assert visit[|rest|] == cur;
    assert cur in visit;
    TrueFlagsComputed(cur);
    PopFinished(db, fm, visited, open, rest, cur);
    var fm', open' := fm[cur := TrueFlags(cur)], open - {cur};
    assert forall n | n in rest :: n in visit;
    forall n | n in open' ensures exists i: nat :: Tops(rest, n, i) {
      var i: nat :| Tops(visit, n, i);
      PopTops(rest, cur, n, i);
    }
    forall n, i: nat | n in open' && Tops(rest, n, i) ensures i < |rest| && Served(fm', open', rest, n, i) {
      TopsIn(rest, n, i);
      PopServed(db, fm, visited, open, rest, cur, n, i);
    }
  }

  /** The top, visited for the first time, with its unmarked children `more`. */
  ghost predicate Expands(db: set<ExprValue>, fm: FlagMap, visited: set<ExprValue>, open: set<ExprValue>,
                          visit: seq<ExprValue>, cur: ExprValue, more: seq<ExprValue>)
  {
    && VisitInv(db, fm, visited, open, visit) && visit != [] && cur == visit[|visit| - 1]
    && cur !in visited && cur.children != []
    && (forall c | c in more :: c in cur.children && c in fm && !fm[c].computed)
    && (forall c | c in cur.children :: c in fm && (fm[c].computed || c in more))
  }

  lemma {:induction false} ExpandFacts(db: set<ExprValue>, fm: FlagMap, visited: set<ExprValue>, open: set<ExprValue>,
                                       visit: seq<ExprValue>, cur: ExprValue, more: seq<ExprValue>)
    requires Expands(db, fm, visited, open, visit, cur, more)
    ensures cur in db && fm[cur] == CLEAR && cur !in open
    ensures forall c | c in cur.children :: c in db && c != cur && Size(c.term) < Size(cur.term) && c !in open
  {
    assert cur in visit;
    forall c | c in cur.children ensures c in db && c != cur && Size(c.term) < Size(cur.term) && c !in open {
      var i :| 0 <= i < |cur.children| && cur.children[i] == c;
      ChildSmaller(cur, i);
      OpenLarger(visit, cur, open);
    }
  }

  /** Open objects are below the top of the stack, so they are larger. */
  lemma {:induction false} OpenLarger(visit: seq<ExprValue>, cur: ExprValue, open: set<ExprValue>)
    requires visit != [] && cur == visit[|visit| - 1]
    requires forall n | n in open :: exists i: nat :: Tops(visit, n, i)
    ensures forall n | n in open :: n == cur || Size(cur.term) < Size(n.term)
  {
  }

  lemma {:induction false} ExpandFinished(db: set<ExprValue>, fm: FlagMap, visited: set<ExprValue>, open: set<ExprValue>,
                                          visit: seq<ExprValue>, cur: ExprValue, more: seq<ExprValue>)
    requires Expands(db, fm, visited, open, visit, cur, more)
    ensures var fm', open' := fm[cur := Flags(true, false, false)], open + {cur};
            forall n | n in db && Finished(fm', open', n) :: fm'[n] == TrueFlags(n) && ChildrenFinished(fm', open', n)
  {
    ExpandFacts(db, fm, visited, open, visit, cur, more);
    var fm', open' := fm[cur := Flags(true, false, false)], open + {cur};
    forall n | n in db && Finished(fm', open', n)
      ensures fm'[n] == TrueFlags(n) && ChildrenFinished(fm', open', n)
    {
      assert Finished(fm, open, n);
      assert forall c | c in n.children :: c in fm && Finished(fm, open, c) && c != cur;
    }
  }

  lemma {:induction false} ServedSelf(fm: FlagMap, open: set<ExprValue>, visit: seq<ExprValue>, cur: ExprValue, more: seq<ExprValue>)
    requires visit != [] && cur in fm && forall c | c in cur.children :: c in fm && c != cur && c !in open && (fm[c].computed || c in more)
    ensures Served(fm[cur := Flags(true, false, false)], open + {cur}, visit + more, cur, |visit| - 1)
  {
  }

  lemma {:induction false} ServedOld(fm: FlagMap, open: set<ExprValue>, visit: seq<ExprValue>, cur: ExprValue, more: seq<ExprValue>,
                                     n: ExprValue, i: nat)
    requires visit != [] && cur in fm && !fm[cur].computed && i < |visit| && Served(fm, open, visit, n, i)
    ensures Served(fm[cur := Flags(true, false, false)], open + {cur}, visit + more, n, i)
  {
    assert (visit + more)[i + 1..] == visit[i + 1..] + more;
    forall c | c in n.children
      ensures c in fm && (Finished(fm[cur := Flags(true, false, false)], open + {cur}, c) || c in (visit + more)[i + 1..])
    {
      assert Finished(fm, open, c) || c in visit[i + 1..];
    }
  }

  lemma {:induction false} ExpandServed(db: set<ExprValue>, fm: FlagMap, visited: set<ExprValue>, open: set<ExprValue>,
                                        visit: seq<ExprValue>, cur: ExprValue, more: seq<ExprValue>, n: ExprValue, i: nat)
    requires Expands(db, fm, visited, open, visit, cur, more)
    requires n in open + {cur} && Tops(visit + more, n, i)
    ensures i < |visit + more| && Served(fm[cur := Flags(true, false, false)], open + {cur}, visit + more, n, i)
  {
    hide TrueFlags, ChildrenFinished, Served, Tops;
    ExpandFacts(db, fm, visited, open, visit, cur, more);
    var k := ExpandTops(visit, cur, more, open, n);
    TopsUnique(visit + more, n, i, k);
    if n == cur {
      ServedSelf(fm, open, visit, cur, more);
    } else {
      TopsIn(visit, n, i);
      ServedOld(fm, open, visit, cur, more, n, i);
    }
  }

  /** Marking the top on its first visit, with its unmarked children put above it. */
  lemma {:induction false} VisitExpand(db: set<ExprValue>, fm: FlagMap, visited: set<ExprValue>, open: set<ExprValue>,
                                       visit: seq<ExprValue>, cur: ExprValue, more: seq<ExprValue>)
    requires Expands(db, fm, visited, open, visit, cur, more)
    ensures cur in db && fm[cur] == CLEAR
    ensures VisitInv(db, fm[cur := Flags(true, false, false)], visited + {cur}, open + {cur}, visit + more)
  {
    hide TrueFlags, Served, Tops, ChildrenFinished;
    ExpandFacts(db, fm, visited, open, visit, cur, more);
    ExpandFinished(db, fm, visited, open, visit, cur, more);
    var fm', open', visit' := fm[cur := Flags(true, false, false)], open + {cur}, visit + more;
    forall n | n in open' ensures exists i: nat :: Tops(visit', n, i) {
      var i := ExpandTops(visit, cur, more, open, n);
    }
    forall n, i: nat | n in open' && Tops(visit', n, i)
      ensures i < |visit'| && Served(fm', open', visit', n, i)
    {
      TopsIn(visit', n, i);
      ExpandServed(db, fm, visited, open, visit, cur, more, n, i);
    }
  }

  lemma {:induction false} TopsIn(visit: seq<ExprValue>, n: ExprValue, i: nat)
    requires Tops(visit, n, i)
    ensures i < |visit|
  {
  }

  lemma {:induction false} ExpandTops(visit: seq<ExprValue>, cur: ExprValue, more: seq<ExprValue>,
                                      open: set<ExprValue>, n: ExprValue) returns (i: nat)
    requires visit != [] && cur == visit[|visit| - 1] && (n == cur || n in open)
    requires n != cur ==> exists i: nat :: Tops(visit, n, i)
    requires forall c | c in more :: Size(c.term) < Size(cur.term)
    ensures Tops(visit + more, n, i)
    ensures if n == cur then i == |visit| - 1 else Tops(visit, n, i)
  {
    if n == cur {
      i := |visit| - 1;
    } else {
      i :| Tops(visit, n, i);
      assert Size(cur.term) < Size(n.term);
    }
  }

  // ----- the flags of one object -----

  predicate IsLiteralOp(h: Head) {
    h.Inner? && h.kind.Op?
  }

  /** The flags of an object are its own contribution and those of its children. */
  lemma {:induction false} TrueFlagsIff(n: ExprValue)
    requires n.WellFormed() && n.children != []
    ensures TrueFlags(n).eval <==> IsLiteralOp(n.head) || exists c :: c in n.children && TrueFlags(c).eval
    ensures TrueFlags(n).nonGround <==> exists c :: c in n.children && TrueFlags(c).nonGround
  {
    if TrueFlags(n).eval && !IsLiteralOp(n.head) {
      var i :| 0 <= i < |n.term.children| && Evaluatable(n.term.children[i]);
      assert n.children[i] in n.children;
    }
    if TrueFlags(n).nonGround {
      var i :| 0 <= i < |n.term.children| && !Ground(n.term.children[i]);
      assert n.children[i] in n.children;
    }
    forall c | c in n.children
      ensures TrueFlags(c).eval ==> TrueFlags(n).eval
      ensures TrueFlags(c).nonGround ==> TrueFlags(n).nonGround
    {
      var i :| 0 <= i < |n.children| && n.children[i] == c;
      assert n.term.children[i] == c.term;
    }
  }

  /** The flags of an object and the union of those of its children. */
  method UnionFlags(cur: ExprValue)
    requires cur !in cur.children
    modifies cur
    ensures cur.computed == old(cur.computed)
    ensures cur.eval <==> old(cur.eval) || IsLiteralOp(cur.head) || exists c :: c in cur.children && c.eval
    ensures cur.nonGround <==> old(cur.nonGround) || exists c :: c in cur.children && c.nonGround
  {
    if IsLiteralOp(cur.head) {
      // literal operator kinds are evaluatable
      cur.eval := true;
    }
    var i := 0;
    while i < |cur.children|
      invariant i <= |cur.children|
      invariant cur.computed == old(cur.computed)
      invariant cur.eval <==> old(cur.eval) || IsLiteralOp(cur.head) || exists c :: c in cur.children[..i] && c.eval
      invariant cur.nonGround <==> old(cur.nonGround) || exists c :: c in cur.children[..i] && c.nonGround
    {
      var c := cur.children[i];
      assert cur.children[..i + 1] == cur.children[..i] + [c];
      cur.eval := cur.eval || c.eval;
      cur.nonGround := cur.nonGround || c.nonGround;
      i := i + 1;
    }
    assert cur.children[..i] == cur.children;
  }

  /** The union of the flags of finished children gives the true flags of the object on top. */
  lemma {:induction false} UnionIsTrue(db: set<ExprValue>, fm: FlagMap, visited: set<ExprValue>, open: set<ExprValue>,
                                       visit: seq<ExprValue>, cur: ExprValue)
    requires VisitInv(db, fm, visited, open, visit) && visit != [] && cur == visit[|visit| - 1]
    requires cur in visited && cur.children != []
    ensures cur in db && cur !in cur.children && forall c | c in cur.children :: c in fm && fm[c] == TrueFlags(c)
    ensures TrueFlags(cur).eval <==> fm[cur].eval || IsLiteralOp(cur.head) || exists c :: c in cur.children && fm[c].eval
    ensures TrueFlags(cur).nonGround <==> fm[cur].nonGround || exists c :: c in cur.children && fm[c].nonGround
    ensures TrueFlags(cur).computed
  {
    TopServed(db, fm, visited, open, visit);
    TrueFlagsIff(cur);
    forall c | c in cur.children ensures c in fm && fm[c] == TrueFlags(c) && c != cur {
      assert Finished(fm, open, c);
      var i :| 0 <= i < |cur.children| && cur.children[i] == c;
      ChildSmaller(cur, i);
    }
    if cur !in open {
      assert Finished(fm, open, cur);
    }
  }

  /** The children whose flags are still to be computed. */
  method Uncomputed(children: seq<ExprValue>) returns (more: seq<ExprValue>)
    ensures forall c | c in more :: c in children && !c.computed
    ensures forall c | c in children :: c.computed || c in more
  {
    more := [];
    var i := 0;
    while i < |children|
      invariant i <= |children|
      invariant forall c | c in more :: c in children && !c.computed
      invariant forall c | c in children[..i] :: c.computed || c in more
    {
      assert children[..i + 1] == children[..i] + [children[i]];
      if !children[i].computed {
        more := more + [children[i]];
      }
      i := i + 1;
    }
    assert children[..i] == children;
  }

  lemma {:induction false} LeafTrueFlags(n: ExprValue)
    requires n.WellFormed() && n.children == []
    ensures TrueFlags(n) == Flags(true, n.head.Leaf? && (n.head.t.ProgramConst? || n.head.t.Any?),
                                  n.head.Leaf? && (n.head.t.Param? || n.head.t.Any?))
  {
  }

  /** The object on top is one of the database; its flags are clear unless it was visited. */
  lemma {:induction false} TopKnown(db: set<ExprValue>, fm: FlagMap, visited: set<ExprValue>, open: set<ExprValue>,
                                    visit: seq<ExprValue>)
    requires VisitInv(db, fm, visited, open, visit) && visit != []
    ensures var cur := visit[|visit| - 1];
            cur in db && cur in fm && cur.WellFormed() && cur !in cur.children &&
            (forall c | c in cur.children :: c in db) &&
            (cur.children != [] && cur !in visited ==> fm[cur] == CLEAR) &&
            (cur in visited ==> fm[cur].computed) &&
            (cur.children == [] ==> ChildrenFinished(fm, open, cur))
  {
    var cur := visit[|visit| - 1];
    assert cur in visit;
    forall c | c in cur.children ensures c != cur && c in db {
      var i :| 0 <= i < |cur.children| && cur.children[i] == c;
      ChildSmaller(cur, i);
    }
  }

  lemma {:induction false} ExpandsNow(db: set<ExprValue>, fm: FlagMap, visited: set<ExprValue>, open: set<ExprValue>,
                                      visit: seq<ExprValue>, cur: ExprValue, more: seq<ExprValue>)
    requires VisitInv(db, fm, visited, open, visit) && visit != [] && cur == visit[|visit| - 1]
    requires cur !in visited && cur.children != []
    requires forall c | c in cur.children :: c in fm
    requires forall c | c in more :: c in cur.children && !fm[c].computed
    requires forall c | c in cur.children :: fm[c].computed || c in more
    ensures Expands(db, fm, visited, open, visit, cur, more)
  {
  }

  lemma {:induction false} RootFlags(db: set<ExprValue>, fm: FlagMap, root: ExprValue)
    requires FlagsOk(db, fm) && root in db && fm[root].computed
    ensures fm[root].eval == Evaluatable(root.term) && fm[root].nonGround == !Ground(root.term)
  {
  }

  /** A leaf on top of the stack gets its flags and is taken off. */
  method FinishLeaf(cur: ExprValue, ghost db: set<ExprValue>, ghost visited: set<ExprValue>, ghost open: set<ExprValue>,
                    ghost rest: seq<ExprValue>)
    requires VisitInv(db, FlagsOf(db), visited, open, rest + [cur])
    requires cur.children == [] && cur in db
    modifies cur
    ensures VisitInv(db, FlagsOf(db), visited, open - {cur}, rest)
    ensures cur.computed && FlagsOf(db) == old(FlagsOf(db))[cur := Flags(cur.computed, cur.eval, cur.nonGround)]
  {
    hide VisitInv, TrueFlags;
    ghost var fm := FlagsOf(db);
    TopKnown(db, fm, visited, open, rest + [cur]);
    cur.computed := true;
    cur.eval := cur.head.Leaf? && (cur.head.t.ProgramConst? || cur.head.t.Any?);
    cur.nonGround := cur.head.Leaf? && (cur.head.t.Param? || cur.head.t.Any?);
    LeafTrueFlags(cur);
    VisitPop(db, fm, visited, open, rest, cur);
    assert FlagsOf(db) == fm[cur := Flags(cur.computed, cur.eval, cur.nonGround)];
  }

  /** The first visit of an object with children: it is marked, and its unmarked children
      are put on top of it. */
  method FirstVisit(cur: ExprValue, ghost db: set<ExprValue>, ghost visited: set<ExprValue>, ghost open: set<ExprValue>,
                    ghost visit: seq<ExprValue>) returns (more: seq<ExprValue>)
    requires VisitInv(db, FlagsOf(db), visited, open, visit)
    requires visit != [] && cur == visit[|visit| - 1] && cur !in visited && cur.children != [] && cur in db
    modifies cur
    ensures VisitInv(db, FlagsOf(db), visited + {cur}, open + {cur}, visit + more)
    ensures cur.computed && FlagsOf(db) == old(FlagsOf(db))[cur := Flags(cur.computed, cur.eval, cur.nonGround)]
  {
    hide VisitInv, Expands;
    ghost var fm := FlagsOf(db);
    TopKnown(db, fm, visited, open, visit);
    cur.computed := true;
    more := Uncomputed(cur.children);
    assert forall c | c in cur.children :: c in fm && c.computed == fm[c].computed;
    ExpandsNow(db, fm, visited, open, visit, cur, more);
    VisitExpand(db, fm, visited, open, visit, cur, more);
    assert FlagsOf(db) == fm[cur := Flags(true, false, false)];
  }

  /** A visited object on top of the stack gets the union of its children's flags and is taken off. */
  method FinishInner(cur: ExprValue, ghost db: set<ExprValue>, ghost visited: set<ExprValue>, ghost open: set<ExprValue>,
                     ghost rest: seq<ExprValue>)
    requires VisitInv(db, FlagsOf(db), visited, open, rest + [cur])
    requires cur in visited && cur.children != [] && cur in db
    modifies cur
    ensures VisitInv(db, FlagsOf(db), visited, open - {cur}, rest)
    ensures cur.computed && FlagsOf(db) == old(FlagsOf(db))[cur := Flags(cur.computed, cur.eval, cur.nonGround)]
  {
    hide VisitInv, TrueFlags;
    ghost var fm, visit := FlagsOf(db), rest + [cur];
    assert visit[|visit| - 1] == cur;
    UnionIsTrue(db, fm, visited, open, visit, cur);
    TopServed(db, fm, visited, open, visit);
    cur.computed := true;
    UnionFlags(cur);
    assert forall c | c in cur.children :: c.eval == fm[c].eval && c.nonGround == fm[c].nonGround;
    assert TrueFlags(cur) == Flags(cur.computed, cur.eval, cur.nonGround);
    VisitPop(db, fm, visited, open, rest, cur);
    assert FlagsOf(db) == fm[cur := Flags(cur.computed, cur.eval, cur.nonGround)];
  }

  /** Computes the flags of an object and of everything below it; on every database whose
      computed flags are right they are right afterwards, and the object's flags are computed. */
  method ComputeFlags(root: ExprValue, ghost db: set<ExprValue>)
    requires root in db && FlagsOk(db, FlagsOf(db))
    modifies db
    ensures FlagsOk(db, FlagsOf(db)) && root.computed
    ensures root.eval == Evaluatable(root.term) && root.nonGround == !Ground(root.term)
  {
    hide VisitInv, FlagsOk;
    if root.computed {
      RootFlags(db, FlagsOf(db), root);
      return;
    }
    VisitStart(db, FlagsOf(db), root);
    var visited: set<ExprValue> := {};
    ghost var open: set<ExprValue> := {};
    var visit := [root];
    while visit != []
      invariant VisitInv(db, FlagsOf(db), visited, open, visit)
      invariant visit == [root] || root.computed
      decreases db - visited, |visit|
    {
      var cur := visit[|visit| - 1];
      var rest := visit[..|visit| - 1];
      assert visit == rest + [cur];
      TopKnown(db, FlagsOf(db), visited, open, visit);
      if cur.children == [] {
        visit := rest;
        FinishLeaf(cur, db, visited, open, rest);
        open := open - {cur};
      } else if cur !in visited {
        var more := FirstVisit(cur, db, visited, open, visit);
        visited := visited + {cur};
        open := open + {cur};
        visit := visit + more;
      } else {
        visit := rest;
        FinishInner(cur, db, visited, open, rest);
        open := open - {cur};
      }
    }
    VisitEnd(db, FlagsOf(db), visited, open);
    RootFlags(db, FlagsOf(db), root);
  }
}
