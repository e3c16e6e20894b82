/** What each list operator returns, said on the elements of its argument lists. */
module ListLaws {
  import opened Terms
  import opened ListSpecs

  /** A right-associative list is `(f x (f y nil))`, its outermost element first; a left-associative one is
      `(f (f nil y) x)`.  Any other term is a list only if it is the nil terminator. */
  lemma {:induction false} ListShape(l: Assoc, x: Term, tail: Term, e: Term)
    ensures var outer := if l.isLeft then Node(Apply, [Node(Apply, [l.op, tail]), x])
                         else Node(Apply, [Node(Apply, [l.op, x]), tail]);
            Elements(outer, l) == match Elements(tail, l)
                                  case Some(xs) => Some([x] + xs)
                                  case None => None
    ensures !(exists y, z :: e == Node(Apply, [Node(Apply, [l.op, y]), z])) ==>
              Elements(e, l) == if e == l.nil then Some([]) else None
  {
    ConsStrip(l, x, tail);
    if IsCons(e, l.op) {
      var y, z := e.children[0].children[1], e.children[1];
      assert e.children[0].children == [l.op, y] && e.children == [e.children[0], z];
    }
  }

  /** `zs` are the elements of `xs` at the positions `ps`, in their order. */
  ghost predicate ReadsOff(xs: seq<Term>, zs: seq<Term>, ps: seq<nat>) {
    && |ps| == |zs|
    && (forall i | 0 <= i < |ps| :: ps[i] < |xs| && zs[i] == xs[ps[i]])
    && (forall i, j | 0 <= i < j < |ps| :: ps[i] < ps[j])
  }

  lemma {:induction false} KeepReadsOff(l: Assoc, f: Filter, xs: seq<Term>) returns (zs: seq<Term>, ps: seq<nat>)
    requires !IsCons(l.nil, l.op)
    ensures zs == Keep(f, xs) && Elements(MkList(l, zs, l.nil), l) == Some(zs) && ReadsOff(xs, zs, ps)
    ensures forall i | 0 <= i < |xs| :: i in ps <==> Keeps(f, xs[..i], xs[i])
  {
    hide Elements, MkList, Keep, Kept, Keeps;
    zs, ps := Keep(f, xs), Kept(f, xs);
    ElementsIff(MkList(l, zs, l.nil), l, zs);
    KeepPositions(f, xs);
    forall i | 0 <= i < |xs| ensures i in ps <==> Keeps(f, xs[..i], xs[i]) {
      KeptIff(f, xs, i);
    }
  }

  lemma {:induction false} OnList(op: LitOp, l: Assoc, f: Term, e: Term, y: Term)
    ensures IsUnaryOp(op) ==>
              ListOp(op, l, [f, e]) == if Elements(e, l).Some? then Some(UnaryOp(op, l, Elements(e, l).value, e)) else None
    ensures IsSearchOp(op) ==>
              ListOp(op, l, [f, e, y]) == if Elements(e, l).Some? then SearchOp(op, l, Elements(e, l).value, y) else None
  {
    hide Elements, UnaryOp, SearchOp;
  }

  /** `list_rev` */
  lemma {:induction false} RevLaw(l: Assoc, f: Term, e: Term, xs: seq<Term>) returns (zs: seq<Term>)
    requires !IsCons(l.nil, l.op) && Elements(e, l) == Some(xs)
    ensures ListOp(ListRev, l, [f, e]).Some? && Elements(ListOp(ListRev, l, [f, e]).value, l) == Some(zs)
    ensures |zs| == |xs| && forall i | 0 <= i < |xs| :: zs[i] == xs[|xs| - 1 - i]
  {
    hide Elements, MkList, ListOp;
    OnList(ListRev, l, f, e, e);
    zs := Reverse(xs);
    ElementsIff(MkList(l, zs, l.nil), l, zs);
  }

  /** `list_setof`: the elements that did not occur before, in order. */
  lemma {:induction false} SetOfLaw(l: Assoc, f: Term, e: Term, xs: seq<Term>) returns (zs: seq<Term>, ps: seq<nat>)
    requires !IsCons(l.nil, l.op) && Elements(e, l) == Some(xs)
    ensures ListOp(ListSetOf, l, [f, e]).Some? && Elements(ListOp(ListSetOf, l, [f, e]).value, l) == Some(zs)
    ensures ReadsOff(xs, zs, ps) && forall i | 0 <= i < |xs| :: i in ps <==> xs[i] !in xs[..i]
  {
    hide Elements, MkList, ListOp, ReadsOff, Keep;
    OnList(ListSetOf, l, f, e, e);
    zs, ps := KeepReadsOff(l, FirstOccurrences, xs);
  }

  /** `list_erase`: without the first occurrence, if there is one. */
  lemma {:induction false} EraseLaw(l: Assoc, f: Term, e: Term, y: Term, xs: seq<Term>) returns (zs: seq<Term>)
    requires !IsCons(l.nil, l.op) && Elements(e, l) == Some(xs)
    ensures ListOp(ListErase, l, [f, e, y]).Some? && Elements(ListOp(ListErase, l, [f, e, y]).value, l) == Some(zs)
    ensures y !in xs ==> zs == xs
    ensures forall k | 0 <= k < |xs| && xs[k] == y && y !in xs[..k] :: zs == xs[..k] + xs[k + 1..]
  {
    hide Elements, MkList, ListOp, Keep;
    OnList(ListErase, l, f, e, y);
    zs := Keep(DropFirst(y), xs);
    ElementsIff(MkList(l, zs, l.nil), l, zs);
    if y !in xs {
      KeepAll(DropFirst(y), xs);
    }
    forall k | 0 <= k < |xs| && xs[k] == y && y !in xs[..k] ensures zs == xs[..k] + xs[k + 1..] {
      DropFirstAt(xs, y, k);
    }
  }

  /** `list_erase_all`: the elements other than `y`, in order. */
  lemma {:induction false} EraseAllLaw(l: Assoc, f: Term, e: Term, y: Term, xs: seq<Term>)
      returns (zs: seq<Term>, ps: seq<nat>)
    requires !IsCons(l.nil, l.op) && Elements(e, l) == Some(xs)
    ensures ListOp(ListEraseAll, l, [f, e, y]).Some? && Elements(ListOp(ListEraseAll, l, [f, e, y]).value, l) == Some(zs)
    ensures ReadsOff(xs, zs, ps) && forall i | 0 <= i < |xs| :: i in ps <==> xs[i] != y
  {
    hide Elements, MkList, ListOp, ReadsOff, Keep;
    OnList(ListEraseAll, l, f, e, y);
    zs, ps := KeepReadsOff(l, DropEvery(y), xs);
  }

  /** `list_diff` and `list_inter`: an element of the first list is in the intersection as long as the
      second list has it more often than it came before, and in the difference after that, in order. */
  lemma {:induction false} DiffInterLaw(l: Assoc, f: Term, a: Term, b: Term, xs: seq<Term>, ys: seq<Term>)
      returns (ds: seq<Term>, ps: seq<nat>, ns: seq<Term>, qs: seq<nat>)
    requires !IsCons(l.nil, l.op) && Elements(a, l) == Some(xs) && Elements(b, l) == Some(ys)
    ensures ListOp(ListDiff, l, [f, a, b]).Some? && Elements(ListOp(ListDiff, l, [f, a, b]).value, l) == Some(ds)
    ensures ListOp(ListInter, l, [f, a, b]).Some? && Elements(ListOp(ListInter, l, [f, a, b]).value, l) == Some(ns)
    ensures ReadsOff(xs, ds, ps) && ReadsOff(xs, ns, qs)
    ensures forall i | 0 <= i < |xs| :: i in qs <==> multiset(xs[..i])[xs[i]] < multiset(ys)[xs[i]]
    ensures forall i | 0 <= i < |xs| :: i in ps <==> i !in qs
  {
    hide Elements, MkList, ListOp, ReadsOff, Keep;
    ListOpBinary(ListDiff, l, f, a, b);
    ListOpBinary(ListInter, l, f, a, b);
    ds, ps := KeepReadsOff(l, Beyond(multiset(ys)), xs);
    ns, qs := KeepReadsOff(l, Within(multiset(ys)), xs);
  }

  /** `list_minclude` and `list_meq` compare how often each term occurs. */
  lemma {:induction false} CompareLaw(l: Assoc, f: Term, a: Term, b: Term, xs: seq<Term>, ys: seq<Term>)
    requires Elements(a, l) == Some(xs) && Elements(b, l) == Some(ys)
    ensures ListOp(ListMinclude, l, [f, a, b]) == Some(Bool(forall t :: multiset(xs)[t] <= multiset(ys)[t]))
    ensures ListOp(ListMeq, l, [f, a, b]) == Some(Bool(forall t :: multiset(xs)[t] == multiset(ys)[t]))
  {
    hide Elements, ListOp;
    ListOpBinary(ListMinclude, l, f, a, b);
    ListOpBinary(ListMeq, l, f, a, b);
    assert (forall t :: multiset(xs)[t] == multiset(ys)[t]) ==> multiset(xs) == multiset(ys);
  }

  /** `list_len`, `list_singleton_elim` and `nil` */
  lemma {:induction false} ReadLaw(l: Assoc, f: Term, e: Term, xs: seq<Term>)
    requires Elements(e, l) == Some(xs)
    ensures ListOp(ListLength, l, [f, e]) == Some(Numeral(|xs|))
    ensures ListOp(ListSingletonElim, l, [f, e]) == Some(if |xs| == 1 then xs[0] else e)
    ensures ListOp(ListNil, l, [f, e]) == Some(l.nil)
  {
    hide Elements;
    OnList(ListLength, l, f, e, e);
    OnList(ListSingletonElim, l, f, e, e);
  }

  /** `list_nth`: positions that fit into 32 bits. */
  lemma {:induction false} NthLaw(l: Assoc, f: Term, e: Term, y: Term, xs: seq<Term>)
    requires Elements(e, l) == Some(xs)
    ensures ListOp(ListNth, l, [f, e, y]) ==
            if y.Numeral? && 0 <= y.n < 0x1_0000_0000 && y.n < |xs| then Some(xs[y.n]) else None
  {
    hide Elements, ListOp;
    OnList(ListNth, l, f, e, y);
  }

  /** `list_find`: the first position. */
  lemma {:induction false} FindLaw(l: Assoc, f: Term, e: Term, y: Term, xs: seq<Term>)
    requires Elements(e, l) == Some(xs)
    ensures forall k | 0 <= k < |xs| && xs[k] == y && y !in xs[..k] :: ListOp(ListFind, l, [f, e, y]) == Some(Numeral(k))
    ensures y !in xs ==> ListOp(ListFind, l, [f, e, y]) == Some(Numeral(-1))
  {
    hide Elements, ListOp;
    OnList(ListFind, l, f, e, y);
    var r := IndexOf(xs, y);
    forall k | 0 <= k < |xs| && xs[k] == y && y !in xs[..k] ensures r == k {
      assert forall j | 0 <= j < k :: xs[..k][j] == xs[j];
      assert forall j | 0 <= j < r :: xs[..r][j] == xs[j];
    }
  }

  /** `cons` adds an outermost element. */
  lemma {:induction false} ConsLaw(l: Assoc, f: Term, x: Term, e: Term, xs: seq<Term>)
    requires !IsCons(l.nil, l.op) && Elements(e, l) == Some(xs)
    ensures ListOp(ListCons, l, [f, x, e]).Some? && Elements(ListOp(ListCons, l, [f, x, e]).value, l) == Some([x] + xs)
  {
    ElementsIff(e, l, xs);
    MkListAppend(l, [x], xs, l.nil);
    ElementsIff(MkList(l, [x] + xs, l.nil), l, [x] + xs);
  }

  /** The elements as they are written: a left-associative list has its first element innermost. */
  ghost predicate Written(l: Assoc, e: Term, ws: seq<Term>) {
    Elements(e, l).Some? && |ws| == |Elements(e, l).value| &&
    forall i | 0 <= i < |ws| :: ws[i] == Elements(e, l).value[if l.isLeft then |ws| - 1 - i else i]
  }

  /** `list_concat` writes the first list before the second one, in both orientations. */
  lemma {:induction false} ConcatLaw(l: Assoc, f: Term, a: Term, b: Term, xs: seq<Term>, ys: seq<Term>)
    requires !IsCons(l.nil, l.op) && Written(l, a, xs) && Written(l, b, ys)
    ensures ListOp(ListConcat, l, [f, a, b]).Some? && Written(l, ListOp(ListConcat, l, [f, a, b]).value, xs + ys)
  {
    var (head, tail) := if l.isLeft then (b, a) else (a, b);
    var zs := Elements(head, l).value + Elements(tail, l).value;
    ConcatIs(l, f, a, b);
    ElementsIff(MkList(l, zs, l.nil), l, zs);
  }

  lemma {:induction false} ConcatIs(l: Assoc, f: Term, a: Term, b: Term)
    ensures var (head, tail) := if l.isLeft then (b, a) else (a, b);
            ListOp(ListConcat, l, [f, a, b]) ==
              if Elements(head, l).Some? && Elements(tail, l).Some?
              then Some(MkList(l, Elements(head, l).value + Elements(tail, l).value, l.nil)) else None
  {
    hide Elements, MkList;
  }

  /** On a term that is no list every operator but `nil` is stuck. */
  lemma {:induction false} StuckLaw(op: LitOp, l: Assoc, args: seq<Term>)
    requires IsListOp(op) && op != ListNil && |args| == Arity(op)
    requires if op == ListCons then Elements(args[2], l).None?
             else Elements(args[1], l).None? || ((op == ListConcat || IsBinaryOp(op)) && Elements(args[2], l).None?)
    ensures ListOp(op, l, args) == None
  {
    hide Elements;
  }
}
