/** What the list operators mean, on sequences of terms. */
module ListSpecs {
  import opened Terms

  /** An associative operator with a ground nil terminator. */
  datatype Assoc = Assoc(op: Term, nil: Term, isLeft: bool)

  // ----- lists as nested applications -----

  predicate IsCons(e: Term, op: Term) {
    e.Node? && e.kind == Apply && |e.children| == 2 &&
    var cop := e.children[0];
    cop.Node? && cop.kind == Apply && |cop.children| == 2 && cop.children[0] == op
  }

  function ConsHead(e: Term, op: Term, isLeft: bool): Term
    requires IsCons(e, op)
  {
    if isLeft then e.children[1] else e.children[0].children[1]
  }

  function ConsTail(e: Term, op: Term, isLeft: bool): (t: Term)
    requires IsCons(e, op)
    ensures t < e
  {
    if isLeft then e.children[0].children[1] else e.children[1]
  }

  function MkCons(op: Term, isLeft: bool, x: Term, tail: Term): Term {
    if isLeft then Node(Apply, [Node(Apply, [op, tail]), x])
    else Node(Apply, [Node(Apply, [op, x]), tail])
  }

  /** The elements of `e`, outermost first, and what remains when they are stripped. */
  function Items(e: Term, op: Term, isLeft: bool): seq<Term> {
    if IsCons(e, op) then [ConsHead(e, op, isLeft)] + Items(ConsTail(e, op, isLeft), op, isLeft) else []
  }

  function EndOf(e: Term, op: Term, isLeft: bool): Term {
    if IsCons(e, op) then EndOf(ConsTail(e, op, isLeft), op, isLeft) else e
  }

  function MkList(l: Assoc, xs: seq<Term>, tail: Term): Term {
    if xs == [] then tail else MkCons(l.op, l.isLeft, xs[0], MkList(l, xs[1..], tail))
  }

  /** The elements of a proper list: one that ends in the nil terminator. */
  function Elements(e: Term, l: Assoc): Option<seq<Term>> {
    if EndOf(e, l.op, l.isLeft) == l.nil then Some(Items(e, l.op, l.isLeft)) else None
  }

  lemma {:induction false} ConsStrip(l: Assoc, x: Term, tail: Term)
    ensures var e := MkCons(l.op, l.isLeft, x, tail);
            Items(e, l.op, l.isLeft) == [x] + Items(tail, l.op, l.isLeft) &&
            EndOf(e, l.op, l.isLeft) == EndOf(tail, l.op, l.isLeft)
  {
  }

  lemma {:induction false} MkListStrip(l: Assoc, xs: seq<Term>, tail: Term)
    ensures Items(MkList(l, xs, tail), l.op, l.isLeft) == xs + Items(tail, l.op, l.isLeft)
    ensures EndOf(MkList(l, xs, tail), l.op, l.isLeft) == EndOf(tail, l.op, l.isLeft)
  {
    hide Items, EndOf, MkCons;
    if xs != [] {
      var rest := MkList(l, xs[1..], tail);
      ConsStrip(l, xs[0], rest);
      MkListStrip(l, xs[1..], tail);
      assert xs + Items(tail, l.op, l.isLeft) == [xs[0]] + (xs[1..] + Items(tail, l.op, l.isLeft));
    } else {
      assert xs + Items(tail, l.op, l.isLeft) == Items(tail, l.op, l.isLeft);
    }
  }

  lemma {:induction false} MkListAppend(l: Assoc, xs: seq<Term>, ys: seq<Term>, tail: Term)
    ensures MkList(l, xs + ys, tail) == MkList(l, xs, MkList(l, ys, tail))
  {
    if xs == [] {
      assert xs + ys == ys;
    } else {
      assert (xs + ys)[1..] == xs[1..] + ys;
      MkListAppend(l, xs[1..], ys, tail);
    }
  }

  lemma {:induction false} MkListItems(l: Assoc, e: Term)
    ensures MkList(l, Items(e, l.op, l.isLeft), EndOf(e, l.op, l.isLeft)) == e
    decreases e
  {
    if IsCons(e, l.op) {
      var cop := e.children[0];
      MkListItems(l, ConsTail(e, l.op, l.isLeft));
      assert e.children == [cop, e.children[1]];
      assert cop.children == [l.op, cop.children[1]];
      assert Items(e, l.op, l.isLeft)[1..] == Items(ConsTail(e, l.op, l.isLeft), l.op, l.isLeft);
    }
  }

  /** A term is a proper list with elements `xs` exactly when it is the list built from
      `xs`, provided the nil terminator is not itself an application of the operator. */
  lemma {:induction false} ElementsIff(e: Term, l: Assoc, xs: seq<Term>)
    requires !IsCons(l.nil, l.op)
    ensures Elements(e, l) == Some(xs) <==> e == MkList(l, xs, l.nil)
  {
    MkListStrip(l, xs, l.nil);
    MkListItems(l, e);
    assert xs + [] == xs;
  }

  /** With a nil terminator that is an application of the operator, no term is a list:
      the walk strips the terminator too. */
  lemma {:induction false} ElementsNone(e: Term, l: Assoc)
    ensures (forall t :: Elements(t, l).None?) <==> IsCons(l.nil, l.op)
  {
    if IsCons(l.nil, l.op) {
      forall t ensures Elements(t, l).None? {
        EndNotCons(t, l.op, l.isLeft);
      }
    } else {
      assert Elements(l.nil, l).Some?;
    }
  }

  lemma {:induction false} MkListGround(l: Assoc, xs: seq<Term>, tail: Term)
    requires Ground(l.op) && AllGround(xs) && Ground(tail)
    ensures Ground(MkList(l, xs, tail))
  {
    if xs != [] {
      MkListGround(l, xs[1..], tail);
      var rest := MkList(l, xs[1..], tail);
      assert Ground(Node(Apply, [l.op, rest])) && Ground(Node(Apply, [l.op, xs[0]]));
    }
  }

  lemma {:induction false} EndNotCons(e: Term, op: Term, isLeft: bool)
    ensures !IsCons(EndOf(e, op, isLeft), op)
    decreases e
  {
    if IsCons(e, op) {
      EndNotCons(ConsTail(e, op, isLeft), op, isLeft);
    }
  }

  // ----- filters -----

  /** Which elements of a list an operator keeps. */
  datatype Filter =
    | DropFirst(x: Term)
    | DropEvery(x: Term)
    | FirstOccurrences
    | Beyond(m: multiset<Term>)
    | Within(m: multiset<Term>)

  /** Is the element `y`, which follows the elements `before`, kept? */
  predicate Keeps(f: Filter, before: seq<Term>, y: Term) {
    match f
    case DropFirst(x) => y != x || x in before
    case DropEvery(x) => y != x
    case FirstOccurrences => y !in before
    case Beyond(m) => m[y] <= multiset(before)[y]
    case Within(m) => multiset(before)[y] < m[y]
  }

  function Keep(f: Filter, xs: seq<Term>): seq<Term> {
    if xs == [] then []
    else
      var before, y := xs[..|xs| - 1], xs[|xs| - 1];
      Keep(f, before) + if Keeps(f, before, y) then [y] else []
  }

  lemma {:induction false} KeepSnoc(f: Filter, xs: seq<Term>, y: Term)
    ensures Keep(f, xs + [y]) == Keep(f, xs) + if Keeps(f, xs, y) then [y] else []
  {
  }

  lemma {:induction false} MultisetSnoc(xs: seq<Term>, y: Term)
    ensures multiset(xs + [y]) == multiset(xs) + multiset{y}
  {
  }

  lemma {:induction false} SplitLast(xs: seq<Term>)
    requires xs != []
    ensures xs == xs[..|xs| - 1] + [xs[|xs| - 1]]
  {
  }

  /** Keeping what lies beyond `m` is multiset difference. */
  lemma {:induction false} BeyondIsDifference(xs: seq<Term>, m: multiset<Term>)
    ensures multiset(Keep(Beyond(m), xs)) == multiset(xs) - m
  {
    if xs != [] {
      SplitLast(xs);
      BeyondIsDifference(xs[..|xs| - 1], m);
      MultisetSnoc(xs[..|xs| - 1], xs[|xs| - 1]);
      MultisetSnoc(Keep(Beyond(m), xs[..|xs| - 1]), xs[|xs| - 1]);
    }
  }

  /** Keeping what lies within `m` is multiset intersection. */
  lemma {:induction false} WithinIsIntersection(xs: seq<Term>, m: multiset<Term>)
    ensures multiset(Keep(Within(m), xs)) == multiset(xs) * m
  {
    if xs != [] {
      SplitLast(xs);
      WithinIsIntersection(xs[..|xs| - 1], m);
      MultisetSnoc(xs[..|xs| - 1], xs[|xs| - 1]);
      MultisetSnoc(Keep(Within(m), xs[..|xs| - 1]), xs[|xs| - 1]);
    }
  }

  /** The difference and the intersection share out the elements of the first list. */
  lemma {:induction false} DiffInterPartition(xs: seq<Term>, m: multiset<Term>)
    ensures multiset(Keep(Beyond(m), xs)) + multiset(Keep(Within(m), xs)) == multiset(xs)
  {
    BeyondIsDifference(xs, m);
    WithinIsIntersection(xs, m);
  }

  /** The difference is empty exactly under multiset inclusion. */
  lemma {:induction false} DiffEmptyIff(xs: seq<Term>, m: multiset<Term>)
    ensures Keep(Beyond(m), xs) == [] <==> multiset(xs) <= m
  {
    BeyondIsDifference(xs, m);
    if Keep(Beyond(m), xs) == [] {
      assert multiset(xs) - m == multiset{};
      forall x | x in multiset(xs) ensures multiset(xs)[x] <= m[x] {
        assert (multiset(xs) - m)[x] == 0;
      }
    } else {
      assert Keep(Beyond(m), xs)[0] in multiset(Keep(Beyond(m), xs));
    }
  }

  /** A filter that keeps nothing or everything. */
  lemma {:induction false} KeepAll(f: Filter, xs: seq<Term>)
    requires forall i | 0 <= i < |xs| :: Keeps(f, xs[..i], xs[i])
    ensures Keep(f, xs) == xs
  {
    if xs != [] {
      var before := xs[..|xs| - 1];
      assert forall i | 0 <= i < |before| :: before[..i] == xs[..i];
      KeepAll(f, before);
      SplitLast(xs);
    }
  }

  lemma {:induction false} WithinSelf(xs: seq<Term>, m: multiset<Term>)
    requires multiset(xs) <= m
    ensures Keep(Within(m), xs) == xs
  {
    forall i | 0 <= i < |xs| ensures Keeps(Within(m), xs[..i], xs[i]) {
      assert xs == xs[..i] + [xs[i]] + xs[i + 1..];
      assert multiset(xs) == multiset(xs[..i]) + multiset{xs[i]} + multiset(xs[i + 1..]);
    }
    KeepAll(Within(m), xs);
  }

  /** Dropping the first occurrence takes one element away, if it is there. */
  lemma {:induction false} DropFirstCount(xs: seq<Term>, x: Term)
    ensures multiset(Keep(DropFirst(x), xs)) == multiset(xs) - multiset{x}
  {
    if xs != [] {
      SplitLast(xs);
      DropFirstCount(xs[..|xs| - 1], x);
      MultisetSnoc(xs[..|xs| - 1], xs[|xs| - 1]);
      MultisetSnoc(Keep(DropFirst(x), xs[..|xs| - 1]), xs[|xs| - 1]);
    }
  }

  lemma {:induction false} DropFirstAt(xs: seq<Term>, x: Term, k: nat)
    requires k < |xs| && xs[k] == x && x !in xs[..k]
    ensures Keep(DropFirst(x), xs) == xs[..k] + xs[k + 1..]
  {
    var before := xs[..|xs| - 1];
    if k == |xs| - 1 {
      KeepAll(DropFirst(x), before);
    } else {
      assert before[..k] == xs[..k] && before[k] == x;
      DropFirstAt(before, x, k);
      assert xs[k + 1..] == before[k + 1..] + [xs[|xs| - 1]];
    }
  }

  /** Keeping first occurrences gives each element of the list exactly once. */
  lemma {:induction false} FirstOccurrencesOnce(xs: seq<Term>, x: Term)
    ensures multiset(Keep(FirstOccurrences, xs))[x] == if x in xs then 1 else 0
  {
    if xs != [] {
      SplitLast(xs);
      FirstOccurrencesOnce(xs[..|xs| - 1], x);
      MultisetSnoc(Keep(FirstOccurrences, xs[..|xs| - 1]), xs[|xs| - 1]);
    }
  }

  /** Dropping every occurrence leaves no occurrence, and all others as often as before. */
  lemma {:induction false} DropEveryCount(xs: seq<Term>, x: Term, y: Term)
    ensures multiset(Keep(DropEvery(x), xs))[y] == if y == x then 0 else multiset(xs)[y]
  {
    if xs != [] {
      SplitLast(xs);
      DropEveryCount(xs[..|xs| - 1], x, y);
      MultisetSnoc(xs[..|xs| - 1], xs[|xs| - 1]);
      MultisetSnoc(Keep(DropEvery(x), xs[..|xs| - 1]), xs[|xs| - 1]);
    }
  }

  /** The positions that a filter keeps, in increasing order. */
  ghost function Kept(f: Filter, xs: seq<Term>): (at: seq<nat>)
    ensures forall i | 0 <= i < |at| :: at[i] < |xs|
  {
    if xs == [] then []
    else
      var before, n := xs[..|xs| - 1], |xs| - 1;
      Kept(f, before) + if Keeps(f, before, xs[n]) then [n] else []
  }

  /** Every filter keeps the order of the elements: the result is read off at
      increasing positions, and these are exactly the positions that the filter keeps. */
  lemma {:induction false} KeepPositions(f: Filter, xs: seq<Term>)
    ensures |Kept(f, xs)| == |Keep(f, xs)|
    ensures forall i | 0 <= i < |Kept(f, xs)| :: Keep(f, xs)[i] == xs[Kept(f, xs)[i]]
    ensures forall i, j | 0 <= i < j < |Kept(f, xs)| :: Kept(f, xs)[i] < Kept(f, xs)[j]
  {
    if xs != [] {
      KeepPositions(f, xs[..|xs| - 1]);
    }
  }

  lemma {:induction false} KeptIff(f: Filter, xs: seq<Term>, p: nat)
    requires p < |xs|
    ensures p in Kept(f, xs) <==> Keeps(f, xs[..p], xs[p])
  {
    var before, n := xs[..|xs| - 1], |xs| - 1;
    if p < n {
      KeptIff(f, before, p);
      assert before[..p] == xs[..p];
    } else {
      assert p !in Kept(f, before);
    }
  }

  // ----- the operators -----

  function Reverse(xs: seq<Term>): (r: seq<Term>)
    ensures |r| == |xs|
  {
    seq(|xs|, i requires 0 <= i < |xs| => xs[|xs| - 1 - i])
  }

  function IndexOf(xs: seq<Term>, x: Term): (r: int)
    ensures r == -1 <==> x !in xs
    ensures r != -1 ==> 0 <= r < |xs| && xs[r] == x && x !in xs[..r]
  {
    if xs == [] then -1
    else if xs[0] == x then 0
    else
      var r := IndexOf(xs[1..], x);
      assert xs == [xs[0]] + xs[1..];
      assert r != -1 ==> xs[..r + 1] == [xs[0]] + xs[1..][..r];
      if r == -1 then -1 else r + 1
  }

  predicate IsListOp(op: LitOp) {
    op.ListNil? || op.ListCons? || op.ListConcat? || IsUnaryOp(op) || IsSearchOp(op) || IsBinaryOp(op)
  }

  predicate IsUnaryOp(op: LitOp) {
    op.ListLength? || op.ListRev? || op.ListSetOf? || op.ListSingletonElim?
  }

  predicate IsSearchOp(op: LitOp) {
    op.ListNth? || op.ListFind? || op.ListErase? || op.ListEraseAll?
  }

  predicate IsBinaryOp(op: LitOp) {
    op.ListMinclude? || op.ListMeq? || op.ListDiff? || op.ListInter?
  }

  function Arity(op: LitOp): nat
    requires IsListOp(op)
  {
    if op.ListNil? || IsUnaryOp(op) then 2 else 3
  }

  const UINT32_MAX: int := 0xFFFF_FFFF

  /** The value of a list operator on ground arguments; none if it is stuck.  Argument 0
      is the operator; argument 1 is the list, except for `ListCons` and `ListNil`. */
  function ListOp(op: LitOp, l: Assoc, args: seq<Term>): Option<Term>
    requires IsListOp(op) && |args| == Arity(op)
  {
    if op.ListNil? then Some(l.nil)
    else if op.ListCons? then
      if Elements(args[2], l).Some? then Some(MkList(l, [args[1]], args[2])) else None
    else if op.ListConcat? then
      var head, tail := if l.isLeft then args[2] else args[1], if l.isLeft then args[1] else args[2];
      if Elements(head, l).Some? && Elements(tail, l).Some? then
        Some(MkList(l, Elements(head, l).value + Elements(tail, l).value, l.nil))
      else None
    else if Elements(args[1], l).None? then None
    else
      var xs := Elements(args[1], l).value;
      if IsBinaryOp(op) then
        if Elements(args[2], l).Some? then Some(BinaryOp(op, l, xs, Elements(args[2], l).value)) else None
      else if IsUnaryOp(op) then Some(UnaryOp(op, l, xs, args[1]))
      else SearchOp(op, l, xs, args[2])
  }

  function BinaryOp(op: LitOp, l: Assoc, xs: seq<Term>, ys: seq<Term>): Term
    requires IsBinaryOp(op)
  {
    if op.ListMinclude? then Bool(multiset(xs) <= multiset(ys))
    else if op.ListMeq? then Bool(multiset(xs) == multiset(ys))
    else if op.ListDiff? then MkList(l, Keep(Beyond(multiset(ys)), xs), l.nil)
    else MkList(l, Keep(Within(multiset(ys)), xs), l.nil)
  }

  function UnaryOp(op: LitOp, l: Assoc, xs: seq<Term>, e: Term): Term
    requires IsUnaryOp(op)
  {
    if op.ListLength? then Numeral(|xs|)
    else if op.ListRev? then MkList(l, Reverse(xs), l.nil)
    else if op.ListSetOf? then MkList(l, Keep(FirstOccurrences, xs), l.nil)
    else if |xs| == 1 then xs[0] else e
  }

  function SearchOp(op: LitOp, l: Assoc, xs: seq<Term>, y: Term): Option<Term>
    requires IsSearchOp(op)
  {
    if op.ListNth? then
      if y.Numeral? && 0 <= y.n <= UINT32_MAX && y.n < |xs| then Some(xs[y.n]) else None
    else if op.ListFind? then Some(Numeral(IndexOf(xs, y)))
    else if op.ListErase? then Some(MkList(l, Keep(DropFirst(y), xs), l.nil))
    else Some(MkList(l, Keep(DropEvery(y), xs), l.nil))
  }

  lemma {:induction false} EmptyListIff(l: Assoc, xs: seq<Term>)
    requires !IsCons(l.nil, l.op)
    ensures MkList(l, xs, l.nil) == l.nil <==> xs == []
  {
  }

  lemma {:induction false} ListOpBinary(op: LitOp, l: Assoc, f: Term, a: Term, b: Term)
    requires IsBinaryOp(op)
    ensures ListOp(op, l, [f, a, b]) ==
              if Elements(a, l).Some? && Elements(b, l).Some?
              then Some(BinaryOp(op, l, Elements(a, l).value, Elements(b, l).value)) else None
  {
    hide Elements, BinaryOp;
  }

  /** `minclude` holds exactly when `diff` is nil. */
  lemma {:induction false} MincludeIffDiffNil(l: Assoc, f: Term, a: Term, b: Term)
    requires !IsCons(l.nil, l.op)
    ensures ListOp(ListMinclude, l, [f, a, b]) == Some(Bool(true)) <==>
            ListOp(ListDiff, l, [f, a, b]) == Some(l.nil)
  {
    hide ListOp, Elements, MkList, Keep;
    ListOpBinary(ListMinclude, l, f, a, b);
    ListOpBinary(ListDiff, l, f, a, b);
    if Elements(a, l).Some? && Elements(b, l).Some? {
      var xs, ys := Elements(a, l).value, Elements(b, l).value;
      DiffEmptyIff(xs, multiset(ys));
      EmptyListIff(l, Keep(Beyond(multiset(ys)), xs));
    }
  }

  /** `meq` holds exactly when `minclude` holds both ways. */
  lemma {:induction false} MeqIffMincludeBoth(l: Assoc, f: Term, a: Term, b: Term)
    ensures ListOp(ListMeq, l, [f, a, b]) == Some(Bool(true)) <==>
            ListOp(ListMinclude, l, [f, a, b]) == Some(Bool(true)) &&
            ListOp(ListMinclude, l, [f, b, a]) == Some(Bool(true))
  {
    hide ListOp, Elements, MkList, Keep;
    ListOpBinary(ListMeq, l, f, a, b);
    ListOpBinary(ListMinclude, l, f, a, b);
    ListOpBinary(ListMinclude, l, f, b, a);
    if Elements(a, l).Some? && Elements(b, l).Some? {
      var xs, ys := Elements(a, l).value, Elements(b, l).value;
      if multiset(xs) <= multiset(ys) && multiset(ys) <= multiset(xs) {
        assert multiset(xs) == multiset(ys);
      }
    }
  }

  /** What `diff` and `inter` return are lists that share out the elements of the first list. */
  lemma {:induction false} DiffInterElements(l: Assoc, f: Term, a: Term, b: Term, xs: seq<Term>, ys: seq<Term>)
    requires !IsCons(l.nil, l.op)
    requires Elements(a, l) == Some(xs) && Elements(b, l) == Some(ys)
    ensures exists d, n: seq<Term> ::
              ListOp(ListDiff, l, [f, a, b]) == Some(MkList(l, d, l.nil)) &&
              ListOp(ListInter, l, [f, a, b]) == Some(MkList(l, n, l.nil)) &&
              multiset(d) == multiset(xs) - multiset(ys) &&
              multiset(n) == multiset(xs) * multiset(ys) &&
              multiset(d) + multiset(n) == multiset(xs)
  {
    hide ListOp, Elements, MkList, Keep;
    ListOpBinary(ListDiff, l, f, a, b);
    ListOpBinary(ListInter, l, f, a, b);
    var m := multiset(ys);
    var d, n := Keep(Beyond(m), xs), Keep(Within(m), xs);
    BeyondIsDifference(xs, m);
    WithinIsIntersection(xs, m);
    DiffInterPartition(xs, m);
    assert ListOp(ListDiff, l, [f, a, b]) == Some(MkList(l, d, l.nil));
    assert ListOp(ListInter, l, [f, a, b]) == Some(MkList(l, n, l.nil));
  }

  /** Reversing a list twice gives the list back. */
  lemma {:induction false} RevRev(l: Assoc, f: Term, e: Term)
    requires !IsCons(l.nil, l.op) && Elements(e, l).Some?
    ensures ListOp(ListRev, l, [f, e]).Some?
    ensures ListOp(ListRev, l, [f, ListOp(ListRev, l, [f, e]).value]) == Some(e)
  {
    var xs := Elements(e, l).value;
    var r := ListOp(ListRev, l, [f, e]).value;
    ElementsIff(r, l, Reverse(xs));
    assert Reverse(Reverse(xs)) == xs;
    ElementsIff(e, l, xs);
  }
}
