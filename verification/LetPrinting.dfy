/** Printing a term with its shared subterms named: which are named, in what order, and
    that the names stand for what they replace. */
module LetPrinting {
  import opened Terms

  /** A term with something to print below it. */
  predicate Inner(t: Term) {
    t.Node? && t.children != []
  }

  // ----- parent edges -----

  /** How often a term is a child of the terms in the set. */
  ghost function EdgesFrom(parents: set<Term>, t: Term): nat {
    if parents == {} then 0
    else
      var p :| p in parents;
      EdgesOf(p, t) + EdgesFrom(parents - {p}, t)
  }

  ghost function EdgesOf(p: Term, t: Term): nat {
    if p.Node? then multiset(p.children)[t] else 0
  }

  lemma {:induction false} EdgesFromOne(parents: set<Term>, p: Term, t: Term)
    requires p in parents
    ensures EdgesFrom(parents, t) == EdgesOf(p, t) + EdgesFrom(parents - {p}, t)
    decreases parents
  {
    var q :| q in parents && EdgesFrom(parents, t) == EdgesOf(q, t) + EdgesFrom(parents - {q}, t);
    if q != p {
      EdgesFromOne(parents - {q}, p, t);
      EdgesFromOne(parents - {p}, q, t);
      assert parents - {q} - {p} == parents - {p} - {q};
    }
  }

  ghost function Inners(e: Term): set<Term> {
    set t | t in Subs(e) && Inner(t)
  }

  /** The parent edges of a term inside `e`; `e` itself is asked for once from outside. */
  ghost function Edges(e: Term, t: Term): nat {
    EdgesFrom(Inners(e), t) + if t == e then 1 else 0
  }

  // ----- the traversal -----

  /** Every term comes after the terms below it. */
  ghost predicate Ordered(llv: seq<Term>) {
    forall k | 0 <= k < |llv| :: Inner(llv[k]) && ListedChildren(llv[..k], llv[k])
  }

  ghost predicate ListedChildren(llv: seq<Term>, t: Term)
    requires t.Node?
  {
    forall c | c in t.children && Inner(c) :: c in llv
  }

  /** Each inner child is listed, or above position `i` of the stack. */
  ghost predicate Served(llv: seq<Term>, visit: seq<Term>, t: Term, i: nat)
    requires i < |visit| && t.Node?
  {
    forall c | c in t.children && Inner(c) :: c in llv || c in visit[i + 1..]
  }

  ghost predicate VisitInv(e: Term, visited: set<Term>, llv: seq<Term>, visit: seq<Term>) {
    && Ordered(llv) && Distinct(llv)
    && (forall t | t in llv :: t in visited)
    && (forall t | t in visited :: Inner(t) && t in Subs(e))
    && (forall t | t in visit :: t in Subs(e))
    && (forall t | t in visited && t !in llv :: exists i: nat :: Tops(visit, t, i))
    && (forall t, i: nat | t in visited && t !in llv && Tops(visit, t, i) :: Served(llv, visit, t, i))
    && (e in visit || e in llv || !Inner(e))
  }

  lemma {:induction false} PopLeaf(e: Term, visited: set<Term>, llv: seq<Term>, visit: seq<Term>)
    requires VisitInv(e, visited, llv, visit) && visit != [] && !Inner(visit[|visit| - 1])
    ensures VisitInv(e, visited, llv, visit[..|visit| - 1])
  {
    PopKeeps(e, visited, llv, visit, llv);
  }

  /** The top of the stack goes, and whatever was served by it is listed or is no inner term. */
  lemma {:induction false} PopKeeps(e: Term, visited: set<Term>, llv: seq<Term>, visit: seq<Term>, llv': seq<Term>)
    requires VisitInv(e, visited, llv, visit) && visit != [] && Ordered(llv') && Distinct(llv')
    requires var top := visit[|visit| - 1];
             (Inner(top) ==> top in llv') && llv <= llv' && forall t | t in llv' :: t in visited && (t in llv || t == top)
    ensures VisitInv(e, visited, llv', visit[..|visit| - 1])
  {
    hide Ordered, Distinct, Subs, Size;
    var n := |visit| - 1;
    var top, visit' := visit[n], visit[..n];
    forall t | t in visited && t !in llv' ensures exists i: nat :: Tops(visit', t, i) {
      var i: nat :| Tops(visit, t, i);
      assert Tops(visit', t, i);
    }
    forall t, i: nat | t in visited && t !in llv' && Tops(visit', t, i) ensures Served(llv', visit', t, i) {
      var j: nat :| Tops(visit, t, j);
      assert Tops(visit', t, j);
      TopsUnique(visit', t, i, j);
      assert Served(llv, visit, t, i);
      assert visit[i + 1..] == visit'[i + 1..] + [top];
    }
  }

  /** A visited term on top of the stack has its inner children listed. */
  lemma {:induction false} PopDone(e: Term, visited: set<Term>, llv: seq<Term>, visit: seq<Term>)
    requires VisitInv(e, visited, llv, visit) && visit != [] && visit[|visit| - 1] in visited
    ensures var top := visit[|visit| - 1];
            VisitInv(e, visited, if top in llv then llv else llv + [top], visit[..|visit| - 1])
  {
    hide Distinct, Ordered, Subs, Size;
    var n := |visit| - 1;
    var top := visit[n];
    if top in llv {
      PopKeeps(e, visited, llv, visit, llv);
    } else {
      assert Tops(visit, top, n);
      assert Served(llv, visit, top, n);
      assert visit[n + 1..] == [];
      OrderedAppend(llv, top);
      PopKeeps(e, visited, llv, visit, llv + [top]);
    }
  }

  lemma {:induction false} OrderedAppend(llv: seq<Term>, t: Term)
    requires Ordered(llv) && Distinct(llv) && t !in llv && Inner(t) && ListedChildren(llv, t)
    ensures Ordered(llv + [t]) && Distinct(llv + [t])
  {
    var llv' := llv + [t];
    forall k | 0 <= k < |llv'| ensures Inner(llv'[k]) && ListedChildren(llv'[..k], llv'[k]) {
      if k == |llv| {
        assert llv'[..k] == llv;
      } else {
        assert llv'[..k] == llv[..k];
      }
    }
  }

  lemma {:induction false} FirstVisit(e: Term, visited: set<Term>, llv: seq<Term>, visit: seq<Term>)
    requires VisitInv(e, visited, llv, visit) && visit != []
    requires var top := visit[|visit| - 1]; Inner(top) && top !in visited
    ensures var top := visit[|visit| - 1];
            VisitInv(e, visited + {top}, llv, visit + top.children)
  {
    hide Ordered, Distinct, Subs, Size;
    var n := |visit| - 1;
    var top, visited', visit' := visit[n], visited + {visit[n]}, visit + visit[n].children;
    forall i | 0 <= i < |top.children| ensures Size(top.children[i]) < Size(top) && top.children[i] in Subs(e) {
      SizeChild(top, i);
      SubsChild(e, top, i);
    }
    assert Tops(visit', top, n);
    forall t | t in visited && t !in llv ensures exists i: nat :: Tops(visit', t, i) && Served(llv, visit', t, i) {
      var i: nat :| Tops(visit, t, i);
      StillServed(llv, visit, t, i);
    }
    forall t, i: nat | t in visited' && t !in llv && Tops(visit', t, i) ensures Served(llv, visit', t, i) {
      if t == top {
        TopsUnique(visit', t, i, n);
        assert visit'[n + 1..] == top.children;
      } else {
        var j: nat :| Tops(visit', t, j) && Served(llv, visit', t, j);
        TopsUnique(visit', t, i, j);
      }
    }
  }

  /** A term lower in the stack stays served when the children of the top are pushed. */
  lemma {:induction false} StillServed(llv: seq<Term>, visit: seq<Term>, t: Term, i: nat)
    requires Tops(visit, t, i) && t.Node? && Served(llv, visit, t, i)
    requires visit[|visit| - 1].Node? && visit[|visit| - 1] != t
    ensures var visit' := visit + visit[|visit| - 1].children;
            Tops(visit', t, i) && Served(llv, visit', t, i)
  {
    var n := |visit| - 1;
    var visit' := visit + visit[n].children;
    forall j | 0 <= j < |visit[n].children| ensures Size(visit[n].children[j]) < Size(visit[n]) {
      SizeChild(visit[n], j);
    }
    assert visit'[i + 1..] == visit[i + 1..] + visit[n].children;
  }

  /** All inner terms below a listed term are listed. */
  lemma {:induction false} SubsListed(llv: seq<Term>, t: Term, s: Term)
    requires Ordered(llv) && (t in llv || !Inner(t)) && s in Subs(t) && Inner(s)
    ensures s in llv
    decreases t
  {
    if s != t {
      var i :| 0 <= i < |t.children| && s in Subs(t.children[i]);
      var k :| 0 <= k < |llv| && llv[k] == t;
      assert ListedChildren(llv[..k], t);
      SubsListed(llv, t.children[i], s);
    }
  }

  lemma {:induction false} SubsBefore(llv: seq<Term>, k: nat, s: Term)
    requires Ordered(llv) && k < |llv| && s in Subs(llv[k]) && Inner(s) && s != llv[k]
    ensures s in llv[..k]
  {
    var t := llv[k];
    var i :| 0 <= i < |t.children| && s in Subs(t.children[i]);
    assert ListedChildren(llv[..k], t);
    assert Ordered(llv[..k]) by {
      forall j | 0 <= j < k ensures ListedChildren(llv[..k][..j], llv[j]) {
        assert llv[..k][..j] == llv[..j];
      }
    }
    SubsListed(llv[..k], t.children[i], s);
  }

  lemma {:induction false} NotBelowEarlier(llv: seq<Term>, j: nat, i: nat)
    requires Ordered(llv) && Distinct(llv) && j < i < |llv|
    ensures llv[i] !in Subs(llv[j])
  {
    if llv[i] in Subs(llv[j]) {
      SubsBefore(llv, j, llv[i]);
      assert false;
    }
  }

  // ----- counts -----

  type Counts = map<Term, nat>

  function Count(lcount: Counts, t: Term): nat {
    if t in lcount then lcount[t] else 0
  }

  /** Every time a term was pushed, it is still on the stack or has been counted. */
  ghost predicate CountsOk(e: Term, visited: set<Term>, lcount: Counts, visit: seq<Term>) {
    forall t | Inner(t) :: multiset(visit)[t] + Count(lcount, t) == EdgesFrom(visited, t) + if t == e then 1 else 0
  }

  lemma {:induction false} CountsPop(e: Term, visited: set<Term>, lcount: Counts, visit: seq<Term>)
    requires CountsOk(e, visited, lcount, visit) && visit != []
    ensures var top, visit' := visit[|visit| - 1], visit[..|visit| - 1];
            CountsOk(e, visited, if Inner(top) then lcount[top := Count(lcount, top) + 1] else lcount, visit')
  {
    var n := |visit| - 1;
    assert visit == visit[..n] + [visit[n]];
  }

  lemma {:induction false} CountsVisit(e: Term, visited: set<Term>, lcount: Counts, visit: seq<Term>, t: Term)
    requires CountsOk(e, visited, lcount, visit) && Inner(t) && t !in visited
    ensures CountsOk(e, visited + {t}, lcount, visit + t.children)
  {
    forall s | Inner(s)
      ensures multiset(visit + t.children)[s] + Count(lcount, s) == EdgesFrom(visited + {t}, s) + if s == e then 1 else 0
    {
      EdgesFromOne(visited + {t}, t, s);
      assert visited + {t} - {t} == visited;
    }
  }

  // ----- the let list -----

  /** The inner terms with two parent edges or more, each once and after all those below it. */
  ghost predicate LetList(e: Term, ll: seq<Term>) {
    && Distinct(ll)
    && (forall t :: t in ll <==> t in Inners(e) && Edges(e, t) >= 2)
    && (forall k | 0 <= k < |ll| :: Below(ll, k))
  }

  ghost predicate Below(ll: seq<Term>, k: nat)
    requires k < |ll|
  {
    forall s | s in ll && s in Subs(ll[k]) && s != ll[k] :: s in ll[..k]
  }

  ghost predicate Numbers(lbind: map<Term, nat>, ll: seq<Term>) {
    (forall t | t in lbind :: t in ll) && forall i | 0 <= i < |ll| :: ll[i] in lbind && lbind[ll[i]] == i
  }

  method ComputeLetBinding(e: Term) returns (ll: seq<Term>, lbind: map<Term, nat>)
    ensures LetList(e, ll) && Numbers(lbind, ll)
  {
    hide *;
    var llv, lcount := CountSubterms(e);
    ll, lbind := [], map[];
    var i := 0;
    CountedFacts(e, llv, lcount);
    while i < |llv|
      invariant 0 <= i <= |llv|
      invariant Kept(llv[..i], lcount, ll) && Numbers(lbind, ll)
    {
      KeptStep(llv, lcount, ll, i);
      NumbersStep(lbind, ll, llv, lcount, i);
      if Count(lcount, llv[i]) > 1 {
        lbind := lbind[llv[i] := |ll|];
        ll := ll + [llv[i]];
      }
      i := i + 1;
    }
    assert llv[..i] == llv;
    KeptIsLetList(e, llv, lcount, ll);
  }

  /** All inner subterms, in the order in which they are finished, and how often each was met. */
  ghost predicate Counted(e: Term, llv: seq<Term>, lcount: Counts) {
    Ordered(llv) && Distinct(llv) && (forall t :: t in llv <==> t in Inners(e)) &&
    forall t | Inner(t) :: Count(lcount, t) == Edges(e, t)
  }

  method CountSubterms(e: Term) returns (llv: seq<Term>, lcount: Counts)
    ensures Counted(e, llv, lcount)
  {
    hide Subs, EdgesFrom, VisitInv, CountsOk, Ordered, Distinct;
    llv, lcount := [], map[];
    var visited: set<Term> := {};
    var visit := [e];
    StartOk(e);
    while visit != []
      invariant VisitInv(e, visited, llv, visit) && CountsOk(e, visited, lcount, visit)
      invariant forall t :: t in lcount <==> t in llv
      decreases Subs(e) - visited, |visit|
    {
      var cur := visit[|visit| - 1];
      if !Inner(cur) {
        PopLeaf(e, visited, llv, visit);
        CountsPop(e, visited, lcount, visit);
        visit := visit[..|visit| - 1];
      } else if cur !in visited {
        FirstVisit(e, visited, llv, visit);
        CountsVisit(e, visited, lcount, visit, cur);
        InSubs(e, visited, llv, visit);
        visited := visited + {cur};
        visit := visit + cur.children;
      } else {
        PopDone(e, visited, llv, visit);
        CountsPop(e, visited, lcount, visit);
        visit := visit[..|visit| - 1];
        if cur !in lcount {
          llv := llv + [cur];
        }
        lcount := lcount[cur := Count(lcount, cur) + 1];
      }
    }
    VisitDone(e, visited, llv, lcount);
  }

  lemma {:induction false} StartOk(e: Term)
    ensures VisitInv(e, {}, [], [e]) && CountsOk(e, {}, map[], [e])
  {
  }

  lemma {:induction false} InSubs(e: Term, visited: set<Term>, llv: seq<Term>, visit: seq<Term>)
    requires VisitInv(e, visited, llv, visit) && visit != []
    ensures visit[|visit| - 1] in Subs(e)
  {
  }

  lemma {:induction false} VisitDone(e: Term, visited: set<Term>, llv: seq<Term>, lcount: Counts)
    requires VisitInv(e, visited, llv, []) && CountsOk(e, visited, lcount, [])
    ensures Counted(e, llv, lcount)
  {
    assert forall t, i: nat :: !Tops([], t, i);
    forall t ensures t in llv <==> t in Inners(e) {
      if t in Inners(e) {
        SubsListed(llv, e, t);
      }
    }
    assert visited == Inners(e) by {
      forall t ensures t in visited <==> t in Inners(e) {
        assert t in visited <==> t in llv;
      }
    }
  }

  /** The part of a list that is met more than once. */
  ghost predicate Kept(llv: seq<Term>, lcount: Counts, ll: seq<Term>) {
    && Distinct(ll)
    && (forall t :: t in ll <==> t in llv && Count(lcount, t) > 1)
    && (forall k | 0 <= k < |ll| :: Below(ll, k))
  }

  lemma {:induction false} KeptStep(llv: seq<Term>, lcount: Counts, ll: seq<Term>, i: nat)
    requires Ordered(llv) && Distinct(llv) && i < |llv| && Kept(llv[..i], lcount, ll)
    ensures Kept(llv[..i + 1], lcount, if Count(lcount, llv[i]) > 1 then ll + [llv[i]] else ll)
  {
    assert llv[..i + 1] == llv[..i] + [llv[i]];
    if Count(lcount, llv[i]) > 1 {
      var ll' := ll + [llv[i]];
      forall k | 0 <= k < |ll'| ensures Below(ll', k) {
        forall s | s in ll' && s in Subs(ll'[k]) && s != ll'[k] ensures s in ll'[..k] {
          if k == |ll| {
            assert ll'[..k] == ll;
          } else {
            assert ll[k] in ll;
            var j :| 0 <= j < |llv[..i]| && llv[..i][j] == ll[k];
            NotBelowEarlier(llv, j, i);
            assert Below(ll, k) && ll'[..k] == ll[..k];
          }
        }
      }
    }
  }

  lemma {:induction false} CountedFacts(e: Term, llv: seq<Term>, lcount: Counts)
    requires Counted(e, llv, lcount)
    ensures Ordered(llv) && Distinct(llv) && Kept(llv[..0], lcount, []) && Numbers(map[], [])
  {
  }

  lemma {:induction false} NumbersStep(lbind: map<Term, nat>, ll: seq<Term>, llv: seq<Term>, lcount: Counts, i: nat)
    requires Numbers(lbind, ll) && Distinct(llv) && i < |llv| && Kept(llv[..i], lcount, ll)
    ensures Numbers(lbind[llv[i] := |ll|], ll + [llv[i]])
  {
  }

  lemma {:induction false} KeptIsLetList(e: Term, llv: seq<Term>, lcount: Counts, ll: seq<Term>)
    requires Counted(e, llv, lcount) && Kept(llv, lcount, ll)
    ensures LetList(e, ll)
  {
  }

  // ----- spelling -----

  function Digit(d: nat): char
    requires d < 10
  {
    ('0' as int + d) as char
  }

  function Decimal(n: nat): string {
    if n < 10 then [Digit(n)] else Decimal(n / 10) + [Digit(n % 10)]
  }

  /** The name of a definition. */
  function RefName(i: nat): string {
    "_v" + Decimal(i)
  }

  lemma {:induction false} DecimalInjective(a: nat, b: nat)
    requires Decimal(a) == Decimal(b)
    ensures a == b
  {
    var x, y := Decimal(a), Decimal(b);
    assert x[|x| - 1] == Digit(a % 10) && y[|y| - 1] == Digit(b % 10);
    if a >= 10 && b >= 10 {
      assert x[..|x| - 1] == Decimal(a / 10) && y[..|y| - 1] == Decimal(b / 10);
      DecimalInjective(a / 10, b / 10);
    }
  }

  lemma {:induction false} RefNameInjective(i: nat, j: nat)
    requires RefName(i) == RefName(j)
    ensures i == j
  {
    assert RefName(i)[2..] == Decimal(i) && RefName(j)[2..] == Decimal(j);
    DecimalInjective(i, j);
  }

  predicate IsSimple(c: char) {
    'A' <= c <= 'Z' || 'a' <= c <= 'z' || '0' <= c <= '9' || c in "~!@$%^&*_-+=<>.?/"
  }

  function Unbarred(s: string): string {
    seq(|s|, i requires 0 <= i < |s| => if s[i] == '|' || s[i] == '\\' then '_' else s[i])
  }

  /** A symbol is quoted if it has characters that a simple symbol must not have. */
  function QuoteSymbol(s: string): string {
    if s == "" then "||"
    else if "eo::" <= s then s
    else if (forall i | 0 <= i < |s| :: IsSimple(s[i])) && !('0' <= s[0] <= '9') then s
    else if |s| > 1 && s[0] == '|' && s[|s| - 1] == '|' then "|" + Unbarred(s[1..|s| - 1]) + "|"
    else "|" + Unbarred(s) + "|"
  }

  lemma {:induction false} DecimalSimple(n: nat)
    ensures Decimal(n) != [] && forall i | 0 <= i < |Decimal(n)| :: IsSimple(Decimal(n)[i])
  {
    if n >= 10 {
      DecimalSimple(n / 10);
    }
  }

  /** Quoting does not keep a symbol apart from the name of a definition. */
  lemma {:induction false} QuotedAsRef(s: string, i: nat)
    ensures QuoteSymbol(s) == RefName(i) <==> s == RefName(i)
  {
    DecimalSimple(i);
    var r := RefName(i);
    assert r[0] == '_' && r[1] == 'v';
    assert forall j | 2 <= j < |r| :: r[j] == Decimal(i)[j - 2];
    assert "eo::"[0] == 'e';
  }

  /** What the printer looks up: the functions that are printed with a type, the names of
      symbols, and how the other leaves and the kinds are written. */
  datatype Printer = Printer(amb: set<Term>, name: Term -> string, other: Term -> string, kind: Kind -> string)

  predicate IsSymbolLeaf(t: Term) {
    t.Param? || t.ProgramConst? || t.Symbol?
  }

  function Spelling(pr: Printer, t: Term): string {
    if IsSymbolLeaf(t) then QuoteSymbol(pr.name(t)) else pr.other(t)
  }

  // ----- printing -----

  /** The printed text: a reference and a leaf are both words. */
  datatype Tok = Open | Close | Space | KindTok(kind: Kind) | Word(name: string) | Define(name: string) | EndDefine

  type Text = seq<Tok>

  /** What follows the parenthesis; the `as` of an ambiguous function is also the word for `AsReturn`. */
  function Head(t: Term, pr: Printer): Text
    requires Inner(t)
  {
    if t.kind == ApplyOpaque then if t.children[0] in pr.amb then [KindTok(AsReturn)] else []
    else if t.kind != Apply || Inner(t.children[0]) then [KindTok(t.kind)] else []
  }

  /** A term as text, with the name of each named subterm. */
  ghost function Print(t: Term, pr: Printer, lbind: map<Term, nat>): Text
    decreases t, 1
  {
    if t in lbind then [Word(RefName(lbind[t]))]
    else if !Inner(t) then [Word(Spelling(pr, t))]
    else [Open] + Head(t, pr) + Print(t.children[0], pr, lbind) + PrintRest(t, 1, pr, lbind)
  }

  /** The children from `i` on, and the closing parenthesis. */
  ghost function PrintRest(t: Term, i: nat, pr: Printer, lbind: map<Term, nat>): Text
    requires Inner(t)
    decreases t, 0, |t.children| - i
  {
    if i >= |t.children| then [Close]
    else [Space] + Print(t.children[i], pr, lbind) + PrintRest(t, i + 1, pr, lbind)
  }

  type Frame = (Term, nat)

  ghost predicate FrameOk(f: Frame) {
    f.1 > 0 ==> Inner(f.0) && f.1 <= |f.0.children|
  }

  /** What the frames of the stack still have to print, from the top down. */
  ghost function Pending(visit: seq<Frame>, pr: Printer, lbind: map<Term, nat>): Text
    requires FramesOk(visit)
  {
    if visit == [] then []
    else
      var n := |visit| - 1;
      PendingFrame(visit[n], pr, lbind) + Pending(visit[..n], pr, lbind)
  }

  ghost function PendingFrame(f: Frame, pr: Printer, lbind: map<Term, nat>): Text
    requires FrameOk(f)
  {
    if f.1 == 0 then Print(f.0, pr, lbind) else PrintRest(f.0, f.1, pr, lbind)
  }

  ghost predicate FramesOk(visit: seq<Frame>) {
    forall f | f in visit :: FrameOk(f)
  }

  method PrintDebugInternal(e: Term, pr: Printer, lbind: map<Term, nat>) returns (os: Text)
    ensures os == Print(e, pr, lbind)
  {
    hide Print, PrintRest, Pending, PendingFrame;
    os := [];
    var visit: seq<Frame> := [(e, 0)];
    PendingStart(e, pr, lbind);
    while visit != []
      invariant FramesOk(visit) && os + Pending(visit, pr, lbind) == Print(e, pr, lbind)
      decreases |Pending(visit, pr, lbind)|
    {
      var n := |visit| - 1;
      assert visit == visit[..n] + [visit[n]];
      var out, visit' := PrintStep(visit[n], visit[..n], pr, lbind);
      assert os + (out + Pending(visit', pr, lbind)) == os + out + Pending(visit', pr, lbind);
      os, visit := os + out, visit';
    }
    PendingNone(pr, lbind);
  }

  /** The top frame is printed or entered, or goes to its next child. */
  method PrintStep(cur: Frame, below: seq<Frame>, pr: Printer, lbind: map<Term, nat>) returns (out: Text, visit: seq<Frame>)
    requires FrameOk(cur) && FramesOk(below)
    ensures FramesOk(visit) && out != []
    ensures Pending(below + [cur], pr, lbind) == out + Pending(visit, pr, lbind)
  {
    hide Pending;
    var (t, i) := cur;
    PendingTop(below, cur, pr, lbind);
    ghost var rest := Pending(below, pr, lbind);
    if i == 0 {
      if t in lbind {
        out, visit := [Word(RefName(lbind[t]))], below;
      } else if !Inner(t) {
        out, visit := [Word(Spelling(pr, t))], below;
      } else {
        out, visit := [Open] + Head(t, pr), below + [(t, 1)] + [(t.children[0], 0)];
        PendingPush(below, t, 1, 0, pr, lbind);
        Regroup(out, Print(t.children[0], pr, lbind), PrintRest(t, 1, pr, lbind), rest);
      }
    } else if i >= |t.children| {
      out, visit := [Close], below;
    } else {
      out, visit := [Space], below + [(t, i + 1)] + [(t.children[i], 0)];
      PendingPush(below, t, i + 1, i, pr, lbind);
      Regroup(out, Print(t.children[i], pr, lbind), PrintRest(t, i + 1, pr, lbind), rest);
    }
  }

  lemma {:induction false} Regroup(a: Text, b: Text, c: Text, d: Text)
    ensures a + b + c + d == a + (b + c + d)
  {
  }

  lemma {:induction false} PendingStart(e: Term, pr: Printer, lbind: map<Term, nat>)
    ensures [] + Pending([(e, 0)], pr, lbind) == Print(e, pr, lbind)
  {
  }

  lemma {:induction false} PendingNone(pr: Printer, lbind: map<Term, nat>)
    ensures Pending([], pr, lbind) == []
  {
  }

  lemma {:induction false} PendingTop(below: seq<Frame>, f: Frame, pr: Printer, lbind: map<Term, nat>)
    requires FrameOk(f) && FramesOk(below)
    ensures Pending(below + [f], pr, lbind) == PendingFrame(f, pr, lbind) + Pending(below, pr, lbind)
  {
  }

  lemma {:induction false} PendingPush(below: seq<Frame>, t: Term, i: nat, c: nat, pr: Printer, lbind: map<Term, nat>)
    requires Inner(t) && 0 < i <= |t.children| && c < |t.children| && FramesOk(below)
    ensures Pending(below + [(t, i)] + [(t.children[c], 0)], pr, lbind) ==
            Print(t.children[c], pr, lbind) + PrintRest(t, i, pr, lbind) + Pending(below, pr, lbind)
  {
  }

  /** The definitions around a body, one inside the other. */
  function Dag(defs: seq<Text>, i: nat, body: Text): Text
    decreases |defs| - i
  {
    if i >= |defs| then body
    else [Define(RefName(i))] + defs[i] + [EndDefine] + Dag(defs, i + 1, body) + [Close]
  }

  /** What each name is defined as: the printed term, in which only the name itself is not used. */
  ghost function Definitions(ll: seq<Term>, pr: Printer, lbind: map<Term, nat>): seq<Text> {
    seq(|ll|, i requires 0 <= i < |ll| => Print(ll[i], pr, lbind - {ll[i]}))
  }

  lemma {:induction false} DagStep(os: Text, defs: seq<Text>, i: nat, body: Text, cparen: Text)
    requires i < |defs|
    ensures os + Dag(defs, i, body) + cparen ==
            (os + [Define(RefName(i))] + defs[i] + [EndDefine]) + Dag(defs, i + 1, body) + ([Close] + cparen)
  {
    hide RefName;
    var front, inner := [Define(RefName(i))] + defs[i] + [EndDefine], Dag(defs, i + 1, body);
    assert Dag(defs, i, body) == front + inner + [Close];
    assert os + (front + inner + [Close]) + cparen == os + front + inner + ([Close] + cparen);
    assert os + front == os + [Define(RefName(i))] + defs[i] + [EndDefine];
  }

  lemma {:induction false} DagEnd(defs: seq<Text>, body: Text)
    ensures Dag(defs, |defs|, body) == body
  {
  }

  method PrintDebug(e: Term, pr: Printer, printDag: bool) returns (os: Text, ghost ll: seq<Term>, ghost lbind: map<Term, nat>)
    ensures !printDag ==> os == Print(e, pr, map[])
    ensures printDag ==> LetList(e, ll) && Numbers(lbind, ll) &&
                         os == Dag(Definitions(ll, pr, lbind), 0, Print(e, pr, lbind))
  {
    hide Print, LetList, Subs, RefName, Dag;
    os, ll, lbind := [], [], map[];
    var bind := map[];
    var cparen := [];
    if printDag {
      var ls;
      ls, bind := ComputeLetBinding(e);
      ll, lbind := ls, bind;
      ghost var defs, body := Definitions(ll, pr, lbind), Print(e, pr, lbind);
      var i := 0;
      while i < |ls|
        invariant 0 <= i <= |ls| && bind == lbind
        invariant Dag(defs, 0, body) == os + Dag(defs, i, body) + cparen
      {
        var id := bind[ls[i]];
        DagStep(os, defs, i, body, cparen);
        os := os + [Define(RefName(id))];
        bind := bind - {ls[i]};
        var def := PrintDebugInternal(ls[i], pr, bind);
        bind := bind[ls[i] := id];
        os := os + def + [EndDefine];
        cparen := [Close] + cparen;
        i := i + 1;
      }
      DagEnd(defs, body);
    }
    var body := PrintDebugInternal(e, pr, bind);
    os := os + body + cparen;
  }

  // ----- expanding the names -----

  /** The text printed without names. */
  ghost function Plain(t: Term, pr: Printer): Text {
    Print(t, pr, map[])
  }

  ghost predicate IsRef(s: string, n: nat) {
    exists i: nat :: i < n && s == RefName(i)
  }

  /** The definition of a name, if it has one. */
  ghost function Definition(s: string, full: seq<Text>): Option<Text> {
    if full == [] then None
    else
      var n := |full| - 1;
      if s == RefName(n) then Some(full[n]) else Definition(s, full[..n])
  }

  lemma {:induction false} DefinitionIs(s: string, full: seq<Text>)
    ensures Definition(s, full).Some? <==> IsRef(s, |full|)
    ensures forall i: nat | i < |full| && s == RefName(i) :: Definition(s, full) == Some(full[i])
  {
    if full != [] {
      var n := |full| - 1;
      DefinitionIs(s, full[..n]);
      forall i: nat | i < |full| && s == RefName(i) ensures Definition(s, full) == Some(full[i]) {
        if s == RefName(n) {
          RefNameInjective(i, n);
        } else {
          assert i < n && full[..n][i] == full[i];
        }
      }
    }
  }

  /** Every word that is the name of a definition is replaced by the text that the name stands for. */
  ghost function Expand(text: Text, full: seq<Text>): Text {
    if text == [] then [] else ExpandTok(text[0], full) + Expand(text[1..], full)
  }

  ghost function ExpandTok(tok: Tok, full: seq<Text>): Text {
    if tok.Word? && Definition(tok.name, full).Some? then Definition(tok.name, full).value else [tok]
  }

  /** The definitions in order, each expanded with those before it. */
  ghost function Expanded(defs: seq<Text>): seq<Text> {
    if defs == [] then []
    else
      var n := |defs| - 1;
      var full := Expanded(defs[..n]);
      full + [Expand(defs[n], full)]
  }

  lemma {:induction false} ExpandConcat(a: Text, b: Text, full: seq<Text>)
    ensures Expand(a + b, full) == Expand(a, full) + Expand(b, full)
    decreases |a|
  {
    if a == [] {
      assert a + b == b;
    } else {
      assert (a + b)[1..] == a[1..] + b;
      ExpandConcat(a[1..], b, full);
    }
  }

  lemma {:induction false} ExpandOne(tok: Tok, full: seq<Text>)
    ensures Expand([tok], full) == ExpandTok(tok, full)
  {
    assert [tok][1..] == [] && ExpandTok(tok, full) + [] == ExpandTok(tok, full);
  }

  lemma {:induction false} ExpandHead(t: Term, pr: Printer, full: seq<Text>)
    requires Inner(t)
    ensures Expand([Open] + Head(t, pr), full) == [Open] + Head(t, pr)
  {
    ExpandConcat([Open], Head(t, pr), full);
    ExpandOne(Open, full);
    if Head(t, pr) != [] {
      assert Head(t, pr) == [Head(t, pr)[0]];
      ExpandOne(Head(t, pr)[0], full);
    }
  }

  // ----- what a reader gets back -----

  /** A text that stands for the term, or one that is too long. */
  ghost predicate ExactOrLonger(text: Text, t: Term, pr: Printer) {
    text == Plain(t, pr) || |text| > |Plain(t, pr)|
  }

  /** The named terms below `t` have definitions that are right or too long. */
  ghost predicate Known(t: Term, pr: Printer, lbind: map<Term, nat>, full: seq<Text>) {
    (forall i | 0 <= i < |full| :: |full[i]| > 1) &&
    forall s | s in Subs(t) && s in lbind :: lbind[s] < |full| && ExactOrLonger(full[lbind[s]], s, pr)
  }

  /** Printing `t` shows a leaf spelled like one of the first `n` names, or the name of a wrong definition. */
  ghost predicate Wrong(t: Term, pr: Printer, lbind: map<Term, nat>, full: seq<Text>) {
    if t in lbind then lbind[t] < |full| && full[lbind[t]] != Plain(t, pr)
    else if !Inner(t) then IsRef(Spelling(pr, t), |full|)
    else exists i | 0 <= i < |t.children| :: Wrong(t.children[i], pr, lbind, full)
  }

  ghost predicate WrongFrom(t: Term, i: nat, pr: Printer, lbind: map<Term, nat>, full: seq<Text>)
    requires Inner(t)
  {
    exists j | i <= j < |t.children| :: Wrong(t.children[j], pr, lbind, full)
  }

  /** Expanding the printed text gives the plain text back, or a longer one if something shown is wrong. */
  ghost predicate Expands(text: Text, plain: Text, full: seq<Text>, wrong: bool) {
    if wrong then |Expand(text, full)| > |plain| else Expand(text, full) == plain
  }

  lemma {:induction false} ExpandsConcat(a: Text, pa: Text, wa: bool, b: Text, pb: Text, wb: bool, full: seq<Text>)
    requires Expands(a, pa, full, wa) && Expands(b, pb, full, wb)
    ensures Expands(a + b, pa + pb, full, wa || wb)
  {
    ExpandConcat(a, b, full);
  }

  lemma {:induction false} ExpandPrint(t: Term, pr: Printer, lbind: map<Term, nat>, full: seq<Text>)
    requires Known(t, pr, lbind, full)
    ensures Expands(Print(t, pr, lbind), Plain(t, pr), full, Wrong(t, pr, lbind, full))
    decreases t, 1
  {
    hide Expand, Expands, RefName, Spelling, Known, Subs;
    if t in lbind || !Inner(t) {
      ExpandWord(t, pr, lbind, full);
    } else {
      var head, c := [Open] + Head(t, pr), t.children[0];
      ExpandHead(t, pr, full);
      KnownChild(t, 0, pr, lbind, full);
      ExpandPrint(c, pr, lbind, full);
      ExpandPrintRest(t, 1, pr, lbind, full);
      assert Expands(head, head, full, false) by {
        ExpandsSame(head, full);
      }
      var w := Wrong(c, pr, lbind, full);
      ExpandsConcat(head, head, false, Print(c, pr, lbind), Plain(c, pr), w, full);
      ExpandsConcat(head + Print(c, pr, lbind), head + Plain(c, pr), w,
        PrintRest(t, 1, pr, lbind), PrintRest(t, 1, pr, map[]), WrongFrom(t, 1, pr, lbind, full), full);
      assert Wrong(t, pr, lbind, full) <==> w || WrongFrom(t, 1, pr, lbind, full);
    }
  }

  lemma {:induction false} ExpandsSame(text: Text, full: seq<Text>)
    requires Expand(text, full) == text
    ensures Expands(text, text, full, false)
  {
  }

  lemma {:induction false} ExpandWord(t: Term, pr: Printer, lbind: map<Term, nat>, full: seq<Text>)
    requires Known(t, pr, lbind, full) && (t in lbind || !Inner(t))
    ensures Expands(Print(t, pr, lbind), Plain(t, pr), full, Wrong(t, pr, lbind, full))
  {
    var word := Print(t, pr, lbind)[0];
    SubsSelf(t);
    ExpandOne(word, full);
    DefinitionIs(word.name, full);
  }

  lemma {:induction false} ExpandPrintRest(t: Term, i: nat, pr: Printer, lbind: map<Term, nat>, full: seq<Text>)
    requires Inner(t) && Known(t, pr, lbind, full)
    ensures Expands(PrintRest(t, i, pr, lbind), PrintRest(t, i, pr, map[]), full, WrongFrom(t, i, pr, lbind, full))
    decreases t, 0, |t.children| - i
  {
    hide Expand, Expands, Known, Subs, Wrong;
    if i < |t.children| {
      var c := t.children[i];
      KnownChild(t, i, pr, lbind, full);
      ExpandPrint(c, pr, lbind, full);
      ExpandPrintRest(t, i + 1, pr, lbind, full);
      ExpandOne(Space, full);
      ExpandsSame([Space], full);
      var w := Wrong(c, pr, lbind, full);
      ExpandsConcat([Space], [Space], false, Print(c, pr, lbind), Plain(c, pr), w, full);
      ExpandsConcat([Space] + Print(c, pr, lbind), [Space] + Plain(c, pr), w,
        PrintRest(t, i + 1, pr, lbind), PrintRest(t, i + 1, pr, map[]), WrongFrom(t, i + 1, pr, lbind, full), full);
    } else {
      ExpandOne(Close, full);
      ExpandsSame([Close], full);
    }
  }

  lemma {:induction false} KnownChild(t: Term, i: nat, pr: Printer, lbind: map<Term, nat>, full: seq<Text>)
    requires Inner(t) && i < |t.children| && Known(t, pr, lbind, full)
    ensures Known(t.children[i], pr, lbind, full)
  {
  }

  /** Text that is printed for an inner term has its parentheses. */
  lemma {:induction false} InnerLength(t: Term, pr: Printer)
    requires Inner(t)
    ensures |Plain(t, pr)| > 1
  {
    assert |PrintRest(t, 1, pr, map[])| > 0;
  }

  /** What the expanded definitions are: right, or too long exactly if the definition shows something wrong. */
  ghost predicate DefinitionOk(ll: seq<Term>, pr: Printer, lbind: map<Term, nat>, full: seq<Text>, i: nat)
    requires i < |ll| && i < |full|
  {
    ExactOrLonger(full[i], ll[i], pr) && |full[i]| > 1 &&
    (full[i] != Plain(ll[i], pr) <==> Wrong(ll[i], pr, lbind - {ll[i]}, full[..i]))
  }

  /** A definition refers to smaller numbers only, so the terms that it names are known. */
  lemma {:induction false} KnownBefore(e: Term, ll: seq<Term>, pr: Printer, lbind: map<Term, nat>, full: seq<Text>)
    requires LetList(e, ll) && Numbers(lbind, ll) && |full| < |ll|
    requires forall i: nat | i < |full| :: DefinitionOk(ll, pr, lbind, full, i)
    ensures Known(ll[|full|], pr, lbind - {ll[|full|]}, full)
  {
    hide Print, Subs;
    var n := |full|;
    var t := ll[n];
    forall i | 0 <= i < n ensures |full[i]| > 1 {
      assert DefinitionOk(ll, pr, lbind, full, i);
    }
    forall s | s in Subs(t) && s in lbind - {t} ensures lbind[s] < n && ExactOrLonger(full[lbind[s]], s, pr) {
      assert Below(ll, n);
      var j :| 0 <= j < n && ll[..n][j] == s;
      assert lbind[ll[j]] == j && DefinitionOk(ll, pr, lbind, full, j);
    }
  }

  lemma {:induction false} DefinitionsExpand(e: Term, ll: seq<Term>, pr: Printer, lbind: map<Term, nat>, n: nat)
    requires LetList(e, ll) && Numbers(lbind, ll) && n <= |ll|
    ensures var full := Expanded(Definitions(ll, pr, lbind)[..n]);
            |full| == n && forall i: nat | i < n :: DefinitionOk(ll, pr, lbind, full, i)
  {
    hide Print, Expand, LetList, Numbers, Subs, Known, Wrong;
    if n > 0 {
      var defs, t := Definitions(ll, pr, lbind), ll[n - 1];
      var front := Expanded(defs[..n - 1]);
      DefinitionsExpand(e, ll, pr, lbind, n - 1);
      KnownBefore(e, ll, pr, lbind, front);
      ExpandPrint(t, pr, lbind - {t}, front);
      ListedInner(e, ll, n - 1);
      InnerLength(t, pr);
      assert defs[..n][..n - 1] == defs[..n - 1];
      var full := Expanded(defs[..n]);
      assert full == front + [Expand(defs[n - 1], front)];
      forall i: nat | i < n ensures DefinitionOk(ll, pr, lbind, full, i) {
        if i < n - 1 {
          assert full[..i] == front[..i] && DefinitionOk(ll, pr, lbind, front, i);
        } else {
          assert full[..i] == front;
        }
      }
    }
  }

  lemma {:induction false} ListedInner(e: Term, ll: seq<Term>, i: nat)
    requires LetList(e, ll) && i < |ll|
    ensures Inner(ll[i]) && ll[i] in Subs(e)
  {
    assert ll[i] in ll;
  }

  // ----- every definition is used -----

  /** Printing `r` shows `s`, without passing through a named term. */
  ghost predicate Shown(r: Term, s: Term, lbind: map<Term, nat>) {
    s == r || (r.Node? && exists i | 0 <= i < |r.children| :: r.children[i] !in lbind && Shown(r.children[i], s, lbind))
  }

  lemma {:induction false} ShownBelow(r: Term, s: Term, lbind: map<Term, nat>)
    requires Shown(r, s, lbind)
    ensures s in Subs(r)
  {
    if s == r {
      SubsSelf(r);
    } else {
      var i :| 0 <= i < |r.children| && r.children[i] !in lbind && Shown(r.children[i], s, lbind);
      ShownBelow(r.children[i], s, lbind);
    }
  }

  /** Every subterm is shown by the body or by a definition. */
  lemma {:induction false} ShownSomewhere(r: Term, s: Term, lbind: map<Term, nat>) returns (root: Term)
    requires s in Subs(r)
    ensures (root == r || root in lbind) && Shown(root, s, lbind)
  {
    root := r;
    if s != r {
      var i :| 0 <= i < |r.children| && s in Subs(r.children[i]);
      root := ShownSomewhere(r.children[i], s, lbind);
      if root == r.children[i] && root !in lbind {
        root := r;
      }
    }
  }

  /** A wrong name shown anywhere makes the root wrong. */
  lemma {:induction false} ShownWrong(r: Term, p: Term, k: nat, pr: Printer, lbind: map<Term, nat>, full: seq<Text>)
    requires Shown(r, p, lbind) && r !in lbind && Inner(p) && k < |p.children| && p.children[k] in lbind
    requires Wrong(p.children[k], pr, lbind, full)
    ensures Wrong(r, pr, lbind, full)
  {
    if p != r {
      var i :| 0 <= i < |r.children| && r.children[i] !in lbind && Shown(r.children[i], p, lbind);
      ShownWrong(r.children[i], p, k, pr, lbind, full);
    }
  }

  lemma {:induction false} ShownWithout(r: Term, s: Term, lbind: map<Term, nat>, x: Term)
    requires Shown(r, s, lbind)
    ensures Shown(r, s, lbind - {x})
  {
    if s != r {
      var i :| 0 <= i < |r.children| && r.children[i] !in lbind && Shown(r.children[i], s, lbind);
      ShownWithout(r.children[i], s, lbind, x);
    }
  }

  /** A term with two parent edges has a parent. */
  lemma {:induction false} HasParent(parents: set<Term>, t: Term) returns (p: Term, k: nat)
    requires EdgesFrom(parents, t) > 0
    ensures p in parents && p.Node? && k < |p.children| && p.children[k] == t
    decreases parents
  {
    p :| p in parents && EdgesFrom(parents, t) == EdgesOf(p, t) + EdgesFrom(parents - {p}, t);
    if EdgesOf(p, t) > 0 {
      assert t in p.children;
      k :| 0 <= k < |p.children| && p.children[k] == t;
    } else {
      p, k := HasParent(parents - {p}, t);
    }
  }

  lemma {:induction false} SubsSize(t: Term, s: Term)
    requires s in Subs(t) && s != t
    ensures Size(s) < Size(t)
  {
    var i :| 0 <= i < |t.children| && s in Subs(t.children[i]);
    SizeChild(t, i);
    if s != t.children[i] {
      SubsSize(t.children[i], s);
    }
  }

  lemma {:induction false} SubsTrans(t: Term, s: Term, u: Term)
    requires s in Subs(t) && u in Subs(s)
    ensures u in Subs(t)
  {
    if s != t {
      var i :| 0 <= i < |t.children| && s in Subs(t.children[i]);
      SubsTrans(t.children[i], s, u);
    }
  }

  lemma {:induction false} RootNotListed(e: Term, ll: seq<Term>)
    requires LetList(e, ll)
    ensures e !in ll
  {
    if e in ll {
      var p, k := HasParent(Inners(e), e);
      SizeChild(p, k);
      if p != e {
        SubsSize(e, p);
      }
      assert false;
    }
  }

  /** A leaf spelled like one of the first `n` names is printed. */
  ghost predicate Captures(t: Term, pr: Printer, lbind: map<Term, nat>, n: nat) {
    t !in lbind &&
    if Inner(t) then exists i | 0 <= i < |t.children| :: Captures(t.children[i], pr, lbind, n)
    else IsRef(Spelling(pr, t), n)
  }

  /** If the definitions are right, only captured leaves are wrong. */
  lemma {:induction false} WrongIffCaptures(t: Term, pr: Printer, lbind: map<Term, nat>, full: seq<Text>)
    requires forall s | s in Subs(t) && s in lbind :: lbind[s] < |full| && full[lbind[s]] == Plain(s, pr)
    ensures Wrong(t, pr, lbind, full) <==> Captures(t, pr, lbind, |full|)
  {
    SubsSelf(t);
    if t !in lbind && Inner(t) {
      forall i | 0 <= i < |t.children|
        ensures Wrong(t.children[i], pr, lbind, full) <==> Captures(t.children[i], pr, lbind, |full|)
      {
        WrongIffCaptures(t.children[i], pr, lbind, full);
      }
    }
  }

  /** No leaf is taken for a name: neither in the body, nor in a definition for an earlier name. */
  ghost predicate NamesApart(e: Term, ll: seq<Term>, pr: Printer, lbind: map<Term, nat>) {
    !Captures(e, pr, lbind, |ll|) && forall k: nat | k < |ll| :: !Captures(ll[k], pr, lbind - {ll[k]}, k)
  }

  /** A wrong definition is used by the body or by a later wrong definition, so it shows in the body. */
  lemma {:induction false} WrongReachesBody(e: Term, ll: seq<Term>, pr: Printer, lbind: map<Term, nat>, full: seq<Text>, k: nat)
    requires LetList(e, ll) && Numbers(lbind, ll) && |full| == |ll| && k < |ll|
    requires forall i: nat | i < |full| :: DefinitionOk(ll, pr, lbind, full, i)
    requires full[k] != Plain(ll[k], pr)
    ensures Wrong(e, pr, lbind, full)
    decreases |ll| - k
  {
    hide Print, Subs, EdgesFrom, Plain;
    var t := ll[k];
    assert t in ll && Edges(e, t) >= 2 && lbind[t] == k;
    var p, c := HasParent(Inners(e), t);
    var root := ShownSomewhere(e, p, lbind);
    RootNotListed(e, ll);
    if root == e {
      assert Wrong(p.children[c], pr, lbind, full);
      ShownWrong(e, p, c, pr, lbind, full);
    } else {
      var j: nat :| j < |ll| && ll[j] == root;
      EarlierUsed(e, ll, j, p, c, k, lbind);
      ShownWithout(root, p, lbind, root);
      assert full[..j][k] == full[k] && Wrong(p.children[c], pr, lbind - {root}, full[..j]);
      ShownWrong(root, p, c, pr, lbind - {root}, full[..j]);
      assert DefinitionOk(ll, pr, lbind, full, j);
      WrongReachesBody(e, ll, pr, lbind, full, j);
    }
  }

  /** What a definition uses is defined before. */
  lemma {:induction false} EarlierUsed(e: Term, ll: seq<Term>, j: nat, p: Term, c: nat, k: nat, lbind: map<Term, nat>)
    requires LetList(e, ll) && j < |ll| && k < |ll| && Inner(p) && c < |p.children| && p.children[c] == ll[k]
    requires Shown(ll[j], p, lbind)
    ensures k < j && ll[k] != ll[j]
  {
    hide EdgesFrom;
    ShownBelow(ll[j], p, lbind);
    SubsChild(ll[j], p, c);
    SizeChild(p, c);
    if p != ll[j] {
      SubsSize(ll[j], p);
    }
    assert Below(ll, j) && ll[k] in ll;
    var i :| 0 <= i < j && ll[..j][i] == ll[k];
  }

  /** With right definitions for the names before it, a definition is wrong only by a captured leaf. */
  lemma {:induction false} DefinitionWrong(e: Term, ll: seq<Term>, pr: Printer, lbind: map<Term, nat>, full: seq<Text>, k: nat)
    requires LetList(e, ll) && Numbers(lbind, ll) && k < |ll| && k <= |full|
    requires forall i: nat | i < k :: full[i] == Plain(ll[i], pr)
    ensures Wrong(ll[k], pr, lbind - {ll[k]}, full[..k]) <==> Captures(ll[k], pr, lbind - {ll[k]}, k)
  {
    hide Subs, Plain, EdgesFrom, Wrong, Captures;
    var t := ll[k];
    forall s | s in Subs(t) && s in lbind - {t} ensures lbind[s] < k && full[..k][lbind[s]] == Plain(s, pr) {
      assert Below(ll, k);
      var j: nat :| j < k && ll[..k][j] == s;
      assert lbind[ll[j]] == j;
    }
    WrongIffCaptures(t, pr, lbind - {t}, full[..k]);
  }

  lemma {:induction false} ApartMeansExact(e: Term, ll: seq<Term>, pr: Printer, lbind: map<Term, nat>, full: seq<Text>, n: nat)
    requires LetList(e, ll) && Numbers(lbind, ll) && NamesApart(e, ll, pr, lbind) && n <= |ll| == |full|
    requires forall i: nat | i < |full| :: DefinitionOk(ll, pr, lbind, full, i)
    ensures forall i: nat | i < n :: full[i] == Plain(ll[i], pr)
  {
    hide LetList, Numbers, Plain, Wrong, Captures;
    if n > 0 {
      ApartMeansExact(e, ll, pr, lbind, full, n - 1);
      DefinitionWrong(e, ll, pr, lbind, full, n - 1);
      assert DefinitionOk(ll, pr, lbind, full, n - 1);
    }
  }

  lemma {:induction false} ExactMeansApart(e: Term, ll: seq<Term>, pr: Printer, lbind: map<Term, nat>, full: seq<Text>)
    requires LetList(e, ll) && Numbers(lbind, ll) && |full| == |ll|
    requires forall i: nat | i < |full| :: DefinitionOk(ll, pr, lbind, full, i) && full[i] == Plain(ll[i], pr)
    ensures NamesApart(e, ll, pr, lbind) <==> !Wrong(e, pr, lbind, full)
  {
    hide LetList, Plain, Wrong, Captures, Subs;
    forall s | s in lbind ensures lbind[s] < |full| && full[lbind[s]] == Plain(s, pr) {
      var j: nat :| j < |ll| && ll[j] == s;
    }
    WrongIffCaptures(e, pr, lbind, full);
    forall k: nat | k < |ll| ensures !Captures(ll[k], pr, lbind - {ll[k]}, k) {
      DefinitionWrong(e, ll, pr, lbind, full, k);
      assert DefinitionOk(ll, pr, lbind, full, k);
    }
  }

  /** Replacing every word that is a name by what it stands for gives the text printed without
      names exactly if no leaf is spelled like a name that is defined where the leaf is printed. */
  lemma {:induction false} LetPrintFaithfulIff(e: Term, ll: seq<Term>, pr: Printer, lbind: map<Term, nat>)
    requires LetList(e, ll) && Numbers(lbind, ll)
    ensures Expand(Print(e, pr, lbind), Expanded(Definitions(ll, pr, lbind))) == Plain(e, pr) <==>
            NamesApart(e, ll, pr, lbind)
  {
    hide Expand, Print, Plain, Subs, EdgesFrom, Wrong, Captures, LetList;
    var full := Expanded(Definitions(ll, pr, lbind));
    assert Definitions(ll, pr, lbind)[..|ll|] == Definitions(ll, pr, lbind);
    DefinitionsExpand(e, ll, pr, lbind, |ll|);
    KnownAll(e, ll, pr, lbind, full);
    ExpandPrint(e, pr, lbind, full);
    if !Wrong(e, pr, lbind, full) {
      forall k: nat | k < |ll| ensures full[k] == Plain(ll[k], pr) {
        if full[k] != Plain(ll[k], pr) {
          WrongReachesBody(e, ll, pr, lbind, full, k);
          assert false;
        }
      }
      ExactMeansApart(e, ll, pr, lbind, full);
    }
    if NamesApart(e, ll, pr, lbind) {
      ApartMeansExact(e, ll, pr, lbind, full, |ll|);
      ExactMeansApart(e, ll, pr, lbind, full);
    }
  }

  lemma {:induction false} KnownAll(e: Term, ll: seq<Term>, pr: Printer, lbind: map<Term, nat>, full: seq<Text>)
    requires Numbers(lbind, ll) && |full| == |ll| && forall i: nat | i < |full| :: DefinitionOk(ll, pr, lbind, full, i)
    ensures Known(e, pr, lbind, full)
  {
    hide Subs, Plain;
    forall i | 0 <= i < |full| ensures |full[i]| > 1 {
      assert DefinitionOk(ll, pr, lbind, full, i);
    }
    forall s | s in lbind ensures lbind[s] < |full| && ExactOrLonger(full[lbind[s]], s, pr) {
      var j: nat :| j < |ll| && ll[j] == s;
      assert DefinitionOk(ll, pr, lbind, full, j);
    }
  }

  // ----- a captured name -----

  function App(x: Term, y: Term): Term {
    Node(Apply, [x, y])
  }

  lemma {:induction false} SubsApp(x: Term, y: Term, t: Term)
    ensures t in Subs(App(x, y)) <==> t == App(x, y) || t in Subs(x) || t in Subs(y)
  {
    var e := App(x, y);
    assert e.children[0] == x && e.children[1] == y;
  }

  lemma {:induction false} EdgesOfApp(x: Term, y: Term, t: Term)
    ensures EdgesOf(App(x, y), t) == (if t == x then 1 else 0) + if t == y then 1 else 0
  {
    assert multiset([x, y]) == multiset{x, y};
  }

  /** The inner terms of `(f u u w)`, where `u` is `(g a)` and `w` is a symbol or `u`. */
  lemma {:induction false} InnersOfThree(f: Term, g: Term, a: Term, w: Term)
    requires f.Symbol? && g.Symbol? && a.Symbol? && (w.Symbol? || w == App(g, a))
    ensures var u := App(g, a);
            var e1 := App(f, u);
            var e2 := App(e1, u);
            Inners(App(e2, w)) == {App(e2, w), e2, e1, u}
  {
    hide Inner;
    var u := App(g, a);
    var e1 := App(f, u);
    var e2 := App(e1, u);
    forall t ensures t in Inners(App(e2, w)) <==> t in {App(e2, w), e2, e1, u} {
      SubsApp(e2, w, t);
      SubsApp(e1, u, t);
      SubsApp(f, u, t);
      SubsApp(g, a, t);
      LeavesNotInner(f, g, a, w, t);
    }
  }

  lemma {:induction false} LeavesNotInner(f: Term, g: Term, a: Term, w: Term, t: Term)
    requires f.Symbol? && g.Symbol? && a.Symbol?
    ensures !Inner(f) && !Inner(g) && !Inner(a) && (w.Symbol? ==> !Inner(w))
    ensures forall x, y :: Inner(App(x, y))
    ensures Subs(f) == {f} && Subs(g) == {g} && Subs(a) == {a} && (w.Symbol? ==> Subs(w) == {w})
  {
  }

  lemma {:induction false} SharedList(f: Term, g: Term, a: Term, w: Term)
    requires f.Symbol? && g.Symbol? && a.Symbol? && (w.Symbol? || w == App(g, a))
    ensures var u := App(g, a);
            LetList(App(App(App(f, u), u), w), [u])
  {
    hide Inner, Subs, EdgesFrom, EdgesOf, Inners;
    var u := App(g, a);
    var e1 := App(f, u);
    var e2 := App(e1, u);
    var e := App(e2, w);
    InnersOfThree(f, g, a, w);
    forall t ensures t in [u] <==> t in Inners(e) && Edges(e, t) >= 2 {
      EdgesFromOne({e, e2, e1, u}, e, t);
      assert {e, e2, e1, u} - {e} == {e2, e1, u};
      EdgesFromOne({e2, e1, u}, e2, t);
      assert {e2, e1, u} - {e2} == {e1, u};
      EdgesFromOne({e1, u}, e1, t);
      assert {e1, u} - {e1} == {u};
      EdgesFromOne({u}, u, t);
      NoEdges({u} - {u}, t);
      EdgesOfApp(e2, w, t);
      EdgesOfApp(e1, u, t);
      EdgesOfApp(f, u, t);
      EdgesOfApp(g, a, t);
    }
  }

  lemma {:induction false} NoEdges(parents: set<Term>, t: Term)
    requires parents == {}
    ensures EdgesFrom(parents, t) == 0
  {
  }

  /** With a symbol named `_v0`, the terms `(f (g a) (g a) _v0)` and `(f (g a) (g a) (g a))` have
      the same text. */
  lemma {:induction false} SameTextForTwoTerms(pr: Printer)
    requires pr.name(Symbol(3)) == "_v0"
    ensures var u := App(Symbol(1), Symbol(2));
            var e2, ll, lbind := App(App(Symbol(0), u), u), [u], map[u := 0];
            var first, second := App(e2, Symbol(3)), App(e2, u);
            LetList(first, ll) && LetList(second, ll) && Numbers(lbind, ll) && first != second &&
            Print(first, pr, lbind) == Print(second, pr, lbind) && !NamesApart(first, ll, pr, lbind)
  {
    hide LetList, Print, Spelling, Captures;
    var u, v := App(Symbol(1), Symbol(2)), Symbol(3);
    var e2, lbind := App(App(Symbol(0), u), u), map[u := 0];
    SharedList(Symbol(0), Symbol(1), Symbol(2), v);
    SharedList(Symbol(0), Symbol(1), Symbol(2), u);
    LastChild(e2, v, pr, lbind);
    LastChild(e2, u, pr, lbind);
    SpelledAsRef(pr, v, u, lbind);
    CapturedChild(e2, v, pr, lbind);
  }

  lemma {:induction false} SpelledAsRef(pr: Printer, v: Term, u: Term, lbind: map<Term, nat>)
    requires v.Symbol? && pr.name(v) == "_v0" && v !in lbind && u in lbind && lbind[u] == 0
    ensures Print(u, pr, lbind) == Print(v, pr, lbind) && Captures(v, pr, lbind, 1)
  {
    assert Decimal(0) == "0" && RefName(0) == "_v0";
    QuotedAsRef("_v0", 0);
    assert Spelling(pr, v) == RefName(0) && IsRef(Spelling(pr, v), 1);
  }

  lemma {:induction false} CapturedChild(x: Term, y: Term, pr: Printer, lbind: map<Term, nat>)
    requires App(x, y) !in lbind && Captures(y, pr, lbind, 1)
    ensures Captures(App(x, y), pr, lbind, 1)
  {
    assert App(x, y).children[1] == y;
  }

  lemma {:induction false} LastChild(x: Term, y: Term, pr: Printer, lbind: map<Term, nat>)
    requires Inner(x) && App(x, y) !in lbind
    ensures Print(App(x, y), pr, lbind) == [Open] + [KindTok(Apply)] + Print(x, pr, lbind) + ([Space] + Print(y, pr, lbind) + [Close])
  {
    var t := App(x, y);
    assert PrintRest(t, 2, pr, lbind) == [Close];
  }
}
