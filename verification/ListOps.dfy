/** The list operators as the checker runs them: walks over the nested
    applications, counters, and results that share the unchanged tail. */
module ListOps {
  import opened Terms
  import opened ListSpecs

  /** Collects the children of an `op`-application; fails if `checkNil` is given and the
      walk ends elsewhere. */
  method GetNAryChildren(e0: Term, op: Term, checkNil: Option<Term>, isLeft: bool)
      returns (end: Option<Term>, children: seq<Term>)
    ensures children == Items(e0, op, isLeft)
    ensures end == if checkNil.None? || checkNil.value == EndOf(e0, op, isLeft)
                   then Some(EndOf(e0, op, isLeft)) else None
  {
    var e := e0;
    children := [];
    while IsCons(e, op)
      invariant children + Items(e, op, isLeft) == Items(e0, op, isLeft)
      invariant EndOf(e, op, isLeft) == EndOf(e0, op, isLeft)
      decreases e
    {
      children := children + [ConsHead(e, op, isLeft)];
      e := ConsTail(e, op, isLeft);
    }
    end := if checkNil.Some? && e != checkNil.value then None else Some(e);
  }

  method IsNAryList(e0: Term, op: Term, nil: Term, isLeft: bool) returns (r: bool)
    ensures r <==> EndOf(e0, op, isLeft) == nil
  {
    var e := e0;
    while IsCons(e, op)
      invariant EndOf(e, op, isLeft) == EndOf(e0, op, isLeft)
      decreases e
    {
      e := ConsTail(e, op, isLeft);
    }
    r := e == nil;
  }

  /** The n-th tail of a list is the list of the elements from position n on. */
  method GetNAryNthTail(e0: Term, l: Assoc, n: nat) returns (e: Term)
    requires n <= |Items(e0, l.op, l.isLeft)|
    ensures e == MkList(l, Items(e0, l.op, l.isLeft)[n..], EndOf(e0, l.op, l.isLeft))
  {
    e := e0;
    for i := 0 to n
      invariant Items(e, l.op, l.isLeft) == Items(e0, l.op, l.isLeft)[i..]
      invariant EndOf(e, l.op, l.isLeft) == EndOf(e0, l.op, l.isLeft)
    {
      assert Items(e, l.op, l.isLeft) != [];
      e := ConsTail(e, l.op, l.isLeft);
    }
    MkListItems(l, e);
  }

  method PrependNAryChildren(l: Assoc, tail: Term, hargs: seq<Term>) returns (ret: Term)
    ensures ret == MkList(l, hargs, tail)
  {
    ret := tail;
    var i := |hargs|;
    while i > 0
      invariant 0 <= i <= |hargs|
      invariant ret == MkList(l, hargs[i..], tail)
    {
      i := i - 1;
      var c1;
      if l.isLeft {
        c1 := Node(Apply, [l.op, ret]);
        ret := Node(Apply, [c1, hargs[i]]);
      } else {
        c1 := Node(Apply, [l.op, hargs[i]]);
        ret := Node(Apply, [c1, ret]);
      }
      assert hargs[i..] == [hargs[i]] + hargs[i + 1..];
    }
    assert hargs[0..] == hargs;
  }

  /** The elements of a proper list; none if `e` does not end in the nil terminator. */
  method ListChildren(e: Term, l: Assoc) returns (ok: bool, hargs: seq<Term>)
    ensures ok <==> Elements(e, l).Some?
    ensures ok ==> Elements(e, l) == Some(hargs) && e == MkList(l, hargs, l.nil)
  {
    var end;
    end, hargs := GetNAryChildren(e, l.op, Some(l.nil), l.isLeft);
    ok := end.Some?;
    MkListItems(l, e);
  }

  // ----- sharing the unchanged tail -----

  /** The loops below keep in `result` what the filter keeps of `xs[..i]`; after the last
      change, at `changeIndex`, they only copied. */
  ghost predicate Shared(f: Filter, xs: seq<Term>, i: nat, result: seq<Term>, changeIndex: nat, changeSize: nat)
  {
    && changeIndex <= i <= |xs|
    && changeSize <= |result|
    && result == Keep(f, xs[..i])
    && result == result[..changeSize] + xs[changeIndex..i]
    && (changeIndex == 0 ==> changeSize == 0)
  }

  lemma {:induction false} SharedKeep(f: Filter, xs: seq<Term>, i: nat, result: seq<Term>,
                                      changeIndex: nat, changeSize: nat)
    requires Shared(f, xs, i, result, changeIndex, changeSize)
    requires i < |xs| && Keeps(f, xs[..i], xs[i])
    ensures Shared(f, xs, i + 1, result + [xs[i]], changeIndex, changeSize)
  {
    KeepSnoc(f, xs[..i], xs[i]);
    assert xs[..i + 1] == xs[..i] + [xs[i]];
    assert xs[changeIndex..i + 1] == xs[changeIndex..i] + [xs[i]];
    var result' := result + [xs[i]];
    assert result'[..changeSize] == result[..changeSize];
  }

  lemma {:induction false} SharedDrop(f: Filter, xs: seq<Term>, i: nat, result: seq<Term>,
                                      changeIndex: nat, changeSize: nat)
    requires Shared(f, xs, i, result, changeIndex, changeSize)
    requires i < |xs| && !Keeps(f, xs[..i], xs[i])
    ensures Shared(f, xs, i + 1, result, i + 1, |result|)
  {
    KeepSnoc(f, xs[..i], xs[i]);
    assert xs[..i + 1] == xs[..i] + [xs[i]];
    assert xs[i + 1..i + 1] == [];
  }

  /** Once the loop is through, the shared form is the list of what the filter keeps. */
  method ShareTail(l: Assoc, e: Term, ghost f: Filter, ghost xs: seq<Term>, result: seq<Term>,
                   changeIndex: nat, changeSize: nat) returns (r: Term)
    requires Elements(e, l) == Some(xs)
    requires Shared(f, xs, |xs|, result, changeIndex, changeSize)
    ensures r == MkList(l, Keep(f, xs), l.nil)
  {
    assert xs[..|xs|] == xs;
    if changeIndex == 0 {
      assert xs[0..|xs|] == xs;
      MkListItems(l, e);
      return e;
    }
    var kept := result[..changeSize];
    var ret := GetNAryNthTail(e, l, changeIndex);
    assert xs[changeIndex..|xs|] == xs[changeIndex..];
    MkListAppend(l, kept, xs[changeIndex..], l.nil);
    r := PrependNAryChildren(l, ret, kept);
  }

  // ----- erase and erase-all -----

  /** Drops the elements equal to `x`, or stops at the first one; what follows the
      last change is shared as it is. */
  method EraseLoop(isAll: bool, xs: seq<Term>, x: Term)
      returns (result: seq<Term>, changeIndex: nat, changeSize: nat)
    ensures isAll ==> Shared(DropEvery(x), xs, |xs|, result, changeIndex, changeSize)
    ensures !isAll && changeIndex == 0 ==> x !in xs
    ensures !isAll && changeIndex != 0 ==>
              changeIndex <= |xs| && result == xs[..changeIndex - 1] &&
              xs[changeIndex - 1] == x && x !in xs[..changeIndex - 1]
  {
    changeIndex, changeSize, result := 0, 0, [];
    var i := 0;
    while i < |xs|
      invariant i <= |xs|
      invariant isAll ==> Shared(DropEvery(x), xs, i, result, changeIndex, changeSize)
      invariant !isAll ==> changeIndex == 0 && result == xs[..i] && x !in xs[..i]
    {
      if xs[i] == x {
        if !isAll {
          changeIndex := i + 1;
          return;
        }
        SharedDrop(DropEvery(x), xs, i, result, changeIndex, changeSize);
        changeIndex, changeSize := i + 1, |result|;
      } else {
        if isAll {
          SharedKeep(DropEvery(x), xs, i, result, changeIndex, changeSize);
        }
        result := result + [xs[i]];
      }
      i := i + 1;
    }
    if !isAll {
      assert xs[..i] == xs;
    }
  }

  /** Rebuilds the list without its first `x`, which is at position `k`. */
  method DropAt(l: Assoc, e: Term, hargs: seq<Term>, k: nat) returns (t: Term)
    requires Elements(e, l) == Some(hargs)
    requires k < |hargs| && hargs[k] !in hargs[..k]
    ensures t == MkList(l, Keep(DropFirst(hargs[k]), hargs), l.nil)
  {
    DropFirstAt(hargs, hargs[k], k);
    var ret := GetNAryNthTail(e, l, k + 1);
    MkListAppend(l, hargs[..k], hargs[k + 1..], l.nil);
    t := PrependNAryChildren(l, ret, hargs[..k]);
  }

  method EvaluateListErase(op: LitOp, l: Assoc, args: seq<Term>) returns (r: Option<Term>)
    requires (op.ListErase? || op.ListEraseAll?) && |args| == 3
    ensures r == ListOp(op, l, args)
  {
    hide Shared, Keep, Items, EndOf, MkList;
    var ok, hargs := ListChildren(args[1], l);
    if !ok {
      return None;
    }
    var isAll := op.ListEraseAll?;
    var result, changeIndex, changeSize := EraseLoop(isAll, hargs, args[2]);
    var t;
    if isAll {
      t := ShareTail(l, args[1], DropEvery(args[2]), hargs, result, changeIndex, changeSize);
    } else if changeIndex == 0 {
      KeepAll(DropFirst(args[2]), hargs);
      t := args[1];
    } else {
      t := DropAt(l, args[1], hargs, changeIndex - 1);
    }
    return Some(t);
  }

  // ----- setof -----

  method SetOfLoop(xs: seq<Term>) returns (result: seq<Term>, changeIndex: nat, changeSize: nat)
    ensures Shared(FirstOccurrences, xs, |xs|, result, changeIndex, changeSize)
  {
    var seen: set<Term> := {};
    changeIndex, changeSize, result := 0, 0, [];
    var i := 0;
    while i < |xs|
      invariant i <= |xs|
      invariant Shared(FirstOccurrences, xs, i, result, changeIndex, changeSize)
      invariant forall x :: x in seen <==> x in xs[..i]
    {
      var elem := xs[i];
      assert xs[..i + 1] == xs[..i] + [elem];
      if elem !in seen {
        SharedKeep(FirstOccurrences, xs, i, result, changeIndex, changeSize);
        seen := seen + {elem};
        result := result + [elem];
      } else {
        SharedDrop(FirstOccurrences, xs, i, result, changeIndex, changeSize);
        changeIndex, changeSize := i + 1, |result|;
      }
      i := i + 1;
    }
  }

  method EvaluateListSetOf(l: Assoc, args: seq<Term>) returns (r: Option<Term>)
    requires |args| == 2
    ensures r == ListOp(ListSetOf, l, args)
  {
    hide Shared, Keep, Items, EndOf, MkList;
    var ok, hargs := ListChildren(args[1], l);
    if !ok {
      return None;
    }
    var result, changeIndex, changeSize := SetOfLoop(hargs);
    var t := ShareTail(l, args[1], FirstOccurrences, hargs, result, changeIndex, changeSize);
    return Some(t);
  }

  // ----- counting -----

  /** The table counts the elements of a multiset, without zero entries. */
  ghost predicate Counts(count: map<Term, nat>, m: multiset<Term>) {
    && (forall x :: x in count <==> x in m)
    && (forall x | x in count :: count[x] == m[x])
  }

  method CountElements(xs: seq<Term>) returns (count: map<Term, nat>)
    ensures Counts(count, multiset(xs))
  {
    count := map[];
    for i := 0 to |xs|
      invariant Counts(count, multiset(xs[..i]))
    {
      assert xs[..i + 1] == xs[..i] + [xs[i]];
      count := count[xs[i] := if xs[i] in count then count[xs[i]] + 1 else 1];
    }
    assert xs[..|xs|] == xs;
  }

  // ----- minclude and meq -----

  /** With equally many distinct elements, agreeing on the elements of the first is
      agreeing everywhere. */
  lemma {:induction false} OneDirectionEnough(m1: multiset<Term>, m2: multiset<Term>,
                                              c1: map<Term, nat>, c2: map<Term, nat>)
    requires Counts(c1, m1) && Counts(c2, m2) && |c1| == |c2|
    requires forall x | x in c1 :: m2[x] == m1[x]
    ensures m1 == m2
  {
    assert forall x | x in c1 :: x in c2;
    SubsetSameSize(c1.Keys, c2.Keys);
    forall x ensures m1[x] == m2[x] {
      if x !in c1 {
        assert x !in c2.Keys;
      }
    }
  }

  lemma {:induction false} SubsetSameSize(s: set<Term>, t: set<Term>)
    requires s <= t && |s| == |t|
    ensures s == t
  {
    if s != t {
      var x :| x in t && x !in s;
      assert s <= t - {x};
      SubsetSize(s, t - {x});
    }
  }

  lemma {:induction false} SubsetSize(s: set<Term>, t: set<Term>)
    requires s <= t
    ensures |s| <= |t|
  {
    if s != {} {
      var x :| x in s;
      SubsetSize(s - {x}, t - {x});
    }
  }

  lemma {:induction false} CountsUnique(c1: map<Term, nat>, c2: map<Term, nat>, m1: multiset<Term>, m2: multiset<Term>)
    requires Counts(c1, m1) && Counts(c2, m2)
    ensures m1 == m2 ==> |c1| == |c2|
  {
    if m1 == m2 {
      assert c1 == c2;
    }
  }

  /** The comparison of the two tables, in any order of the keys of the first. */
  method CompareCounts(isEq: bool, count1: map<Term, nat>, count2: map<Term, nat>,
                       ghost m1: multiset<Term>, ghost m2: multiset<Term>) returns (r: bool)
    requires Counts(count1, m1) && Counts(count2, m2)
    ensures r <==> if isEq then m1 == m2 else m1 <= m2
  {
    CountsUnique(count1, count2, m1, m2);
    if isEq && |count1| != |count2| {
      return false;
    }
    var rest := count1.Keys;
    while rest != {}
      invariant rest <= count1.Keys
      invariant forall x | x in count1 && x !in rest :: if isEq then m2[x] == m1[x] else m1[x] <= m2[x]
    {
      var key :| key in rest;
      var c2 := if key in count2 then count2[key] else 0;
      assert c2 == m2[key] && count1[key] == m1[key];
      if if isEq then c2 != count1[key] else c2 < count1[key] {
        return false;
      }
      rest := rest - {key};
    }
    if isEq {
      OneDirectionEnough(m1, m2, count1, count2);
    } else {
      assert forall x | x in m1 :: x in count1;
    }
    return true;
  }

  method EvaluateListMPred(op: LitOp, l: Assoc, args: seq<Term>) returns (r: Option<Term>)
    requires (op.ListMinclude? || op.ListMeq?) && |args| == 3
    ensures r == ListOp(op, l, args)
  {
    hide Shared, Keep, Items, EndOf, MkList;
    var ok, hargs := ListChildren(args[1], l);
    if !ok {
      return None;
    }
    var ok2, hargs2 := ListChildren(args[2], l);
    if !ok2 {
      return None;
    }
    if args[1] == args[2] {
      return Some(Bool(true));
    }
    var count1 := CountElements(hargs);
    var count2 := CountElements(hargs2);
    var b := CompareCounts(op.ListMeq?, count1, count2, multiset(hargs), multiset(hargs2));
    return Some(Bool(b));
  }

  // ----- diff and inter -----

  ghost function DiffInterFilter(isDiff: bool, m: multiset<Term>): Filter {
    if isDiff then Beyond(m) else Within(m)
  }

  /** Takes one use of `x` out of the table; an entry that reaches zero is erased. */
  method UseOne(count: map<Term, nat>, x: Term, ghost m: multiset<Term>) returns (count': map<Term, nat>)
    requires Counts(count, m)
    ensures Counts(count', m - multiset{x})
  {
    if x !in count {
      assert m - multiset{x} == m;
      return count;
    }
    count' := count[x := count[x] - 1];
    if count'[x] == 0 {
      count' := count' - {x};
    }
  }

  /** What the table counts after the first `i` elements have used it. */
  ghost function Unused(xs: seq<Term>, i: nat, m: multiset<Term>): multiset<Term>
    requires i <= |xs|
  {
    m - multiset(xs[..i])
  }

  lemma {:induction false} UnusedStep(isDiff: bool, xs: seq<Term>, i: nat, m: multiset<Term>)
    requires i < |xs|
    ensures Keeps(DiffInterFilter(isDiff, m), xs[..i], xs[i]) <==> (xs[i] in Unused(xs, i, m)) != isDiff
    ensures Unused(xs, i, m) - multiset{xs[i]} == Unused(xs, i + 1, m)
  {
    assert xs[..i + 1] == xs[..i] + [xs[i]];
  }

  method DiffInterLoop(isDiff: bool, xs: seq<Term>, count: map<Term, nat>, ghost m: multiset<Term>)
      returns (result: seq<Term>, changeIndex: nat, changeSize: nat)
    requires Counts(count, m)
    ensures Shared(DiffInterFilter(isDiff, m), xs, |xs|, result, changeIndex, changeSize)
  {
    ghost var f := DiffInterFilter(isDiff, m);
    var count2 := count;
    changeIndex, changeSize, result := 0, 0, [];
    var i := 0;
    assert Unused(xs, 0, m) == m;
    while i < |xs|
      invariant i <= |xs|
      invariant Shared(f, xs, i, result, changeIndex, changeSize)
      invariant Counts(count2, Unused(xs, i, m))
    {
      UnusedStep(isDiff, xs, i, m);
      var found := xs[i] in count2;
      count2 := UseOne(count2, xs[i], Unused(xs, i, m));
      if found == isDiff {
        SharedDrop(f, xs, i, result, changeIndex, changeSize);
        changeIndex, changeSize := i + 1, |result|;
      } else {
        SharedKeep(f, xs, i, result, changeIndex, changeSize);
        result := result + [xs[i]];
      }
      i := i + 1;
    }
  }

  method EvaluateListDiffInter(op: LitOp, l: Assoc, args: seq<Term>) returns (r: Option<Term>)
    requires (op.ListDiff? || op.ListInter?) && |args| == 3
    ensures r == ListOp(op, l, args)
  {
    hide Shared, Keep, Items, EndOf;
    var ok, hargs := ListChildren(args[1], l);
    if !ok {
      return None;
    }
    var ok2, hargs2 := ListChildren(args[2], l);
    if !ok2 {
      return None;
    }
    ghost var m := multiset(hargs2);
    if args[1] == args[2] {
      if op.ListDiff? {
        DiffEmptyIff(hargs, m);
        return Some(l.nil);
      } else {
        WithinSelf(hargs, m);
        return Some(args[1]);
      }
    }
    var count2 := CountElements(hargs2);
    var result, changeIndex, changeSize := DiffInterLoop(op.ListDiff?, hargs, count2, m);
    var t := ShareTail(l, args[1], DiffInterFilter(op.ListDiff?, m), hargs, result, changeIndex, changeSize);
    return Some(t);
  }

  // ----- the other operators -----

  method EvaluateListConcat(l: Assoc, args: seq<Term>) returns (r: Option<Term>)
    requires |args| == 3
    ensures r == ListOp(ListConcat, l, args)
  {
    hide Shared, Keep, Items, EndOf, MkList;
    var tailIndex, headIndex := if l.isLeft then 1 else 2, if l.isLeft then 2 else 1;
    var ret := args[tailIndex];
    var isList := IsNAryList(ret, l.op, l.nil, l.isLeft);
    if !isList {
      return None;
    }
    var ok, hargs := ListChildren(args[headIndex], l);
    if !ok {
      return None;
    }
    MkListItems(l, ret);
    MkListAppend(l, hargs, Items(ret, l.op, l.isLeft), l.nil);
    if ret == l.nil {
      // the tail is nil: there is no need to rebuild the head
      return Some(args[headIndex]);
    }
    var t := PrependNAryChildren(l, ret, hargs);
    return Some(t);
  }

  method EvaluateListRev(l: Assoc, args: seq<Term>) returns (r: Option<Term>)
    requires |args| == 2
    ensures r == ListOp(ListRev, l, args)
  {
    hide Shared, Keep, Items, EndOf, MkList;
    var ok, hargs := ListChildren(args[1], l);
    if !ok {
      return None;
    }
    var t := PrependNAryChildren(l, l.nil, Reverse(hargs));
    return Some(t);
  }

  method EvaluateListFind(l: Assoc, args: seq<Term>) returns (r: Option<Term>)
    requires |args| == 3
    ensures r == ListOp(ListFind, l, args)
  {
    hide Shared, Keep, Items, EndOf, MkList;
    var ok, hargs := ListChildren(args[1], l);
    if !ok {
      return None;
    }
    var i := 0;
    while i < |hargs| && hargs[i] != args[2]
      invariant i <= |hargs|
      invariant args[2] !in hargs[..i]
    {
      i := i + 1;
    }
    assert i == |hargs| ==> hargs[..i] == hargs;
    return Some(Numeral(if i == |hargs| then -1 else i));
  }

  /** The list part of the literal evaluator: every operator returns its value on
      sequences, in both orientations. */
  method EvaluateListOp(op: LitOp, l: Assoc, args: seq<Term>) returns (r: Option<Term>)
    requires IsListOp(op) && |args| == Arity(op)
    ensures r == ListOp(op, l, args)
  {
    hide Shared, Keep, Items, EndOf, MkList;
    if op.ListNil? {
      r := Some(l.nil);
    } else if op.ListCons? {
      var isList := IsNAryList(args[2], l.op, l.nil, l.isLeft);
      if !isList {
        return None;
      }
      var t := PrependNAryChildren(l, args[2], [args[1]]);
      r := Some(t);
    } else if op.ListConcat? {
      r := EvaluateListConcat(l, args);
    } else if op.ListErase? || op.ListEraseAll? {
      r := EvaluateListErase(op, l, args);
    } else if op.ListRev? {
      r := EvaluateListRev(l, args);
    } else if op.ListSetOf? {
      r := EvaluateListSetOf(l, args);
    } else if op.ListMinclude? || op.ListMeq? {
      r := EvaluateListMPred(op, l, args);
    } else if op.ListDiff? || op.ListInter? {
      r := EvaluateListDiffInter(op, l, args);
    } else if op.ListFind? {
      r := EvaluateListFind(l, args);
    } else {
      r := EvaluateListRead(op, l, args);
    }
  }

  /** Length, n-th element and singleton elimination only read the list. */
  method EvaluateListRead(op: LitOp, l: Assoc, args: seq<Term>) returns (r: Option<Term>)
    requires (op.ListLength? || op.ListNth? || op.ListSingletonElim?) && |args| == Arity(op)
    ensures r == ListOp(op, l, args)
  {
    hide Shared, Keep, Items, EndOf, MkList;
    if op.ListNth? && !(args[2].Numeral? && 0 <= args[2].n <= UINT32_MAX) {
      return None;
    }
    var ok, hargs := ListChildren(args[1], l);
    if !ok {
      return None;
    }
    if op.ListLength? {
      r := Some(Numeral(|hargs|));
    } else if op.ListNth? {
      r := if args[2].n >= |hargs| then None else Some(hargs[args[2].n]);
    } else {
      r := Some(if |hargs| == 1 then hargs[0] else args[1]);
    }
  }
}
