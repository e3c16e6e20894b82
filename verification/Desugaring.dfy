/** Desugaring of applications of associative operators, and its meaning. */
module Desugaring {
  import opened Terms
  import opened ListSpecs
  import opened Evaluation
  import opened EvaluationRules

  datatype Attr = LeftAssoc | RightAssoc | LeftAssocNil | RightAssocNil | LeftAssocNsNil | RightAssocNsNil

  predicate IsLeft(a: Attr) {
    a.LeftAssoc? || a.LeftAssocNil? || a.LeftAssocNsNil?
  }

  predicate IsNsNil(a: Attr) {
    a.LeftAssocNsNil? || a.RightAssocNsNil?
  }

  predicate IsNil(a: Attr) {
    IsNsNil(a) || a.LeftAssocNil? || a.RightAssocNil?
  }

  // ----- what the loop builds -----

  /** The arguments in the order in which they are added: from the nil end outwards. */
  function Inward(a: Attr, args: seq<Term>): (items: seq<Term>)
    ensures |items| == |args|
  {
    if IsLeft(a) then args else Reverse(args)
  }

  /** Adds one argument: a list-marked one by concatenation, any other one by application. */
  function AddItem(a: Attr, f: Term, marks: set<Term>, x: Term, curr: Term): Term {
    if IsNil(a) && x in marks then
      Node(Op(ListConcat), if IsLeft(a) then [f, curr, x] else [f, x, curr])
    else MkCons(f, IsLeft(a), x, curr)
  }

  function AddItems(a: Attr, f: Term, marks: set<Term>, items: seq<Term>, curr: Term): Term {
    if items == [] then curr
    else AddItem(a, f, marks, items[|items| - 1], AddItems(a, f, marks, items[..|items| - 1], curr))
  }

  predicate InsertsNil(a: Attr, marks: set<Term>, items: seq<Term>)
    requires items != []
  {
    IsNil(a) && items[0] !in marks
  }

  function First(a: Attr, nil: Term, marks: set<Term>, items: seq<Term>): Term
    requires items != []
  {
    if InsertsNil(a, marks, items) then nil else items[0]
  }

  function Others(a: Attr, marks: set<Term>, items: seq<Term>): seq<Term>
    requires items != []
  {
    if InsertsNil(a, marks, items) then items else items[1..]
  }

  /** How many of the added arguments are not list-marked. */
  function CountPlain(marks: set<Term>, items: seq<Term>): nat {
    if items == [] then 0
    else CountPlain(marks, items[..|items| - 1]) + if items[|items| - 1] in marks then 0 else 1
  }

  /** Singleton elimination, evaluated at once if it can be. */
  function SingletonElim(env: Env, f: Term, t: Term): Term {
    match EvalLit(env, ListSingletonElim, [f, t])
    case Some(v) => v
    case None => Node(Op(ListSingletonElim), [f, t])
  }

  function Desugar(env: Env, a: Attr, f: Term, nil: Term, marks: set<Term>, args: seq<Term>): Term
    requires args != []
  {
    var items := Inward(a, args);
    var t := AddItems(a, f, marks, Others(a, marks, items), First(a, nil, marks, items));
    if IsNsNil(a) && CountPlain(marks, Others(a, marks, items)) < 2 then SingletonElim(env, f, t) else t
  }

  lemma {:induction false} AddNothing(a: Attr, f: Term, marks: set<Term>, items: seq<Term>, t: Term)
    ensures AddItems(a, f, marks, items[..0], t) == t && CountPlain(marks, items[..0]) == 0
  {
  }

  /** Where the loop finds its items among the children. */
  lemma {:induction false} ReadItem(a: Attr, vchildren: seq<Term>, i: nat)
    requires 1 <= i < |vchildren|
    ensures Inward(a, vchildren[1..])[i - 1] == vchildren[if IsLeft(a) then i else |vchildren| - i]
  {
  }

  lemma {:induction false} AddItemsStep(a: Attr, f: Term, marks: set<Term>, items: seq<Term>, i: nat, t: Term)
    requires i < |items|
    ensures AddItems(a, f, marks, items[..i + 1], t) ==
            AddItem(a, f, marks, items[i], AddItems(a, f, marks, items[..i], t))
    ensures CountPlain(marks, items[..i + 1]) == CountPlain(marks, items[..i]) + if items[i] in marks then 0 else 1
  {
    assert items[..i + 1][..i] == items[..i];
  }

  /** The loop over the children, with the counter of applications. */
  method MkApplyAttr(env: Env, a: Attr, nil: Term, marks: set<Term>, vchildren: seq<Term>) returns (r: Term)
    requires vchildren != []
    ensures r == if |vchildren| == 1 then nil else Desugar(env, a, vchildren[0], nil, marks, vchildren[1..])
  {
    hide EvalLit, AddItems, CountPlain, Reverse, SingletonElim;
    var hd, nchild := vchildren[0], |vchildren|;
    if nchild < 2 {
      return nil;
    }
    ghost var items := Inward(a, vchildren[1..]);
    ghost var others := Others(a, marks, items);
    var isLeft, isNsNil, isNil := IsLeft(a), IsNsNil(a), IsNil(a);
    var i := 1;
    var curr := vchildren[if isLeft then i else nchild - i];
    var nlistTerms := 0;
    ReadItem(a, vchildren, 1);
    if isNil {
      if curr !in marks {
        // the last term is not a list: insert the nil terminator
        curr := nil;
        i := i - 1;
      }
    }
    i := i + 1;
    ghost var start := i;
    AddNothing(a, hd, marks, others, First(a, nil, marks, items));
    while i < nchild
      invariant start <= i <= nchild
      invariant start == if InsertsNil(a, marks, items) then 1 else 2
      invariant curr == AddItems(a, hd, marks, others[..i - start], First(a, nil, marks, items))
      invariant isNsNil ==> nlistTerms == CountPlain(marks, others[..i - start])
    {
      var next := vchildren[if isLeft then i else nchild - i];
      ReadItem(a, vchildren, i);
      assert next == others[i - start];
      AddItemsStep(a, hd, marks, others, i - start, First(a, nil, marks, items));
      if isNil && next in marks {
        curr := Node(Op(ListConcat), if isLeft then [hd, curr, next] else [hd, next, curr]);
      } else {
        nlistTerms := nlistTerms + 1;
        curr := MkCons(hd, isLeft, next, curr);
      }
      i := i + 1;
    }
    assert others[..i - start] == others;
    if isNsNil && nlistTerms < 2 {
      return SingletonElim(env, hd, curr);
    }
    return curr;
  }

  // ----- what the built term evaluates to -----

  /** The operator is a constant with a ground nil terminator that is no application of it. */
  ghost predicate Declared(env: Env, l: Assoc) {
    && l.op.Symbol? && l.op in env.assoc && env.assoc[l.op] == NilAttr(l.nil, l.isLeft)
    && Value(l.nil) && !IsCons(l.nil, l.op)
  }

  /** The elements that an argument stands for, outermost first: those of its list if it
      is list-marked, and its value otherwise. */
  ghost predicate StandsFor(env: Env, l: Assoc, marks: set<Term>, ctx: Ctx, x: Term, xs: seq<Term>) {
    AllGround(xs) &&
    if x in marks then x.Param? && x in ctx && ctx[x] == MkList(l, xs, l.nil)
    else |xs| == 1 && Evaluates(env, x, ctx, xs[0])
  }

  ghost predicate AllStandFor(env: Env, l: Assoc, marks: set<Term>, ctx: Ctx, items: seq<Term>, dens: seq<seq<Term>>) {
    |dens| == |items| && forall i | 0 <= i < |items| :: StandsFor(env, l, marks, ctx, items[i], dens[i])
  }

  /** The last one outermost. */
  ghost function Outward(dens: seq<seq<Term>>): seq<Term> {
    if dens == [] then [] else dens[|dens| - 1] + Outward(dens[..|dens| - 1])
  }

  lemma {:induction false} EvSelf(env: Env, t: Term, ctx: Ctx)
    requires Value(t)
    ensures Evaluates(env, t, ctx, t)
  {
    EvLeaf(env, t, ctx);
  }

  /** An application whose head is not a program evaluates to the application of the values. */
  lemma {:induction false} EvApply(env: Env, cs: seq<Term>, ctx: Ctx, vs: seq<Term>)
    requires EvaluatesAll(env, cs, ctx, vs) && cs != [] && !vs[0].ProgramConst?
    ensures Evaluates(env, Node(Apply, cs), ctx, Node(Apply, vs))
  {
    var t := Node(Apply, cs);
    if Unchanged(t, ctx) {
      forall i | 0 <= i < |cs| ensures cs[i] == vs[i] {
        assert !Evaluatable(cs[i]);
        EvLeaf(env, cs[i], ctx);
        EvaluatesUnique(env, cs[i], ctx, cs[i], vs[i]);
      }
      assert cs == vs;
      EvLeaf(env, t, ctx);
    } else {
      EvNode(env, t, ctx, vs, Node(Apply, vs));
    }
  }

  lemma {:induction false} EvCons(env: Env, l: Assoc, ctx: Ctx, x: Term, v: Term, t: Term, w: Term)
    requires l.op.Symbol? && Evaluates(env, x, ctx, v) && Evaluates(env, t, ctx, w)
    ensures Evaluates(env, MkCons(l.op, l.isLeft, x, t), ctx, MkCons(l.op, l.isLeft, v, w))
  {
    EvSelf(env, l.op, ctx);
    var (in1, in2, out1, out2) := if l.isLeft then (t, w, x, v) else (x, v, t, w);
    EvApply(env, [l.op, in1], ctx, [l.op, in2]);
    EvApply(env, [Node(Apply, [l.op, in1]), out1], ctx, [Node(Apply, [l.op, in2]), out2]);
  }

  /** Concatenating two lists during evaluation. */
  lemma {:induction false} EvConcat(env: Env, l: Assoc, ctx: Ctx, x: Term, xs: seq<Term>, t: Term, ys: seq<Term>)
    requires Declared(env, l) && AllGround(xs) && AllGround(ys)
    requires Evaluates(env, x, ctx, MkList(l, xs, l.nil)) && Evaluates(env, t, ctx, MkList(l, ys, l.nil))
    ensures Evaluates(env, Node(Op(ListConcat), if l.isLeft then [l.op, t, x] else [l.op, x, t]), ctx,
                      MkList(l, xs + ys, l.nil))
  {
    hide MkList, Elements;
    var head, tail := MkList(l, xs, l.nil), MkList(l, ys, l.nil);
    var cs, vs := if l.isLeft then [l.op, t, x] else [l.op, x, t],
                  if l.isLeft then [l.op, tail, head] else [l.op, head, tail];
    EvSelf(env, l.op, ctx);
    MkListGround(l, xs, l.nil);
    MkListGround(l, ys, l.nil);
    ElementsIff(head, l, xs);
    ElementsIff(tail, l, ys);
    assert AllGround(vs) && !IsLiteral(vs[0]);
    assert ListOp(ListConcat, l, vs) == Some(MkList(l, xs + ys, l.nil));
    var n := Node(Op(ListConcat), cs);
    assert Evaluatable(n);
    EvNode(env, n, ctx, vs, MkList(l, xs + ys, l.nil));
  }

  /** Adding arguments to a list gives the list with their elements in front. */
  lemma {:induction false} EvAddItems(env: Env, a: Attr, l: Assoc, marks: set<Term>, ctx: Ctx,
                                      items: seq<Term>, dens: seq<seq<Term>>, t: Term, ys: seq<Term>)
    requires Declared(env, l) && IsNil(a) && l.isLeft == IsLeft(a)
    requires AllStandFor(env, l, marks, ctx, items, dens)
    requires AllGround(ys) && Evaluates(env, t, ctx, MkList(l, ys, l.nil))
    ensures AllGround(Outward(dens) + ys)
    ensures Evaluates(env, AddItems(a, l.op, marks, items, t), ctx, MkList(l, Outward(dens) + ys, l.nil))
  {
    hide Evaluates, Evaluatable, Ground;
    if items == [] {
      assert Outward(dens) + ys == ys;
    } else {
      var n := |items| - 1;
      var x, xs := items[n], dens[n];
      assert StandsFor(env, l, marks, ctx, x, xs);
      EvAddItems(env, a, l, marks, ctx, items[..n], dens[..n], t, ys);
      var t', ys' := AddItems(a, l.op, marks, items[..n], t), Outward(dens[..n]) + ys;
      assert Outward(dens) + ys == xs + ys';
      if x in marks {
        EvMarked(env, l, marks, ctx, x, xs);
        EvConcat(env, l, ctx, x, xs, t', ys');
      } else {
        assert xs + ys' == [xs[0]] + ys';
        EvCons(env, l, ctx, x, xs[0], t', MkList(l, ys', l.nil));
        assert ([xs[0]] + ys')[1..] == ys';
      }
    }
  }

  lemma {:induction false} EvMarked(env: Env, l: Assoc, marks: set<Term>, ctx: Ctx, x: Term, xs: seq<Term>)
    requires StandsFor(env, l, marks, ctx, x, xs) && x in marks
    ensures Evaluates(env, x, ctx, MkList(l, xs, l.nil))
  {
    EvLeaf(env, x, ctx);
    assert ctx != map[];
  }

  /** The arguments, read from left to right, stand for these lists of elements. */
  ghost function Flatten(dens: seq<seq<Term>>): seq<Term> {
    if dens == [] then [] else dens[0] + Flatten(dens[1..])
  }

  /** Elements in reading order: a left-associative list has its first element innermost. */
  ghost function ReadingOrder(a: Attr, xs: seq<Term>): seq<Term> {
    if IsLeft(a) then Reverse(xs) else xs
  }

  ghost function ReadingOrders(a: Attr, dens: seq<seq<Term>>): seq<seq<Term>> {
    seq(|dens|, i requires 0 <= i < |dens| => ReadingOrder(a, dens[i]))
  }

  lemma {:induction false} ReverseAppend(xs: seq<Term>, ys: seq<Term>)
    ensures Reverse(xs + ys) == Reverse(ys) + Reverse(xs)
  {
  }

  ghost function ReverseDens(dens: seq<seq<Term>>): seq<seq<Term>> {
    seq(|dens|, i requires 0 <= i < |dens| => dens[|dens| - 1 - i])
  }

  lemma {:induction false} FlattenSnoc(dens: seq<seq<Term>>, d: seq<Term>)
    ensures Flatten(dens + [d]) == Flatten(dens) + d
  {
    if dens == [] {
      assert dens + [d] == [d] && [d][1..] == [];
    } else {
      assert (dens + [d])[1..] == dens[1..] + [d];
      FlattenSnoc(dens[1..], d);
    }
  }

  lemma {:induction false} ReadingOrdersSnoc(a: Attr, dens: seq<seq<Term>>)
    requires dens != []
    ensures var n := |dens| - 1;
            Flatten(ReadingOrders(a, dens)) == Flatten(ReadingOrders(a, dens[..n])) + ReadingOrder(a, dens[n])
  {
    var n := |dens| - 1;
    FlattenSnoc(ReadingOrders(a, dens[..n]), ReadingOrder(a, dens[n]));
    assert ReadingOrders(a, dens) == ReadingOrders(a, dens[..n]) + [ReadingOrder(a, dens[n])];
  }

  /** Adding from the nil end outwards puts the elements in reading order. */
  lemma {:induction false} OutwardReads(a: Attr, dens: seq<seq<Term>>)
    ensures ReadingOrder(a, Outward(if IsLeft(a) then dens else ReverseDens(dens))) == Flatten(ReadingOrders(a, dens))
  {
    hide Reverse;
    if dens != [] {
      if IsLeft(a) {
        var n := |dens| - 1;
        OutwardReads(a, dens[..n]);
        ReverseAppend(dens[n], Outward(dens[..n]));
        ReadingOrdersSnoc(a, dens);
      } else {
        OutwardReads(a, dens[1..]);
        var r := ReverseDens(dens);
        assert r[|r| - 1] == dens[0] && r[..|r| - 1] == ReverseDens(dens[1..]);
        assert ReadingOrders(a, dens)[1..] == ReadingOrders(a, dens[1..]);
      }
    }
  }

  // ----- desugaring preserves meaning -----

  lemma {:induction false} AllStandForInward(env: Env, a: Attr, l: Assoc, marks: set<Term>, ctx: Ctx,
                                             args: seq<Term>, dens: seq<seq<Term>>)
    requires AllStandFor(env, l, marks, ctx, args, dens)
    ensures AllStandFor(env, l, marks, ctx, Inward(a, args), if IsLeft(a) then dens else ReverseDens(dens))
  {
  }

  lemma {:induction false} ConcatAssoc(xs: seq<Term>, ys: seq<Term>, zs: seq<Term>)
    ensures xs + (ys + zs) == (xs + ys) + zs
  {
  }

  lemma {:induction false} OutwardCons(d: seq<Term>, rest: seq<seq<Term>>)
    ensures Outward([d] + rest) == Outward(rest) + d
  {
    if rest == [] {
      assert [d] + rest == [d] && [d][..0] == [];
    } else {
      var n := |rest| - 1;
      var all := [d] + rest;
      assert all[..n + 1] == [d] + rest[..n] && all[n + 1] == rest[n];
      OutwardCons(d, rest[..n]);
      assert Outward(all) == rest[n] + (Outward(rest[..n]) + d);
      ConcatAssoc(rest[n], Outward(rest[..n]), d);
    }
  }

  /** Without singleton elimination: the loop builds a term whose value is the list of all
      elements of all arguments. */
  lemma {:induction false} EvBuilt(env: Env, a: Attr, l: Assoc, marks: set<Term>, ctx: Ctx,
                                   items: seq<Term>, dens: seq<seq<Term>>)
    requires Declared(env, l) && IsNil(a) && l.isLeft == IsLeft(a) && items != []
    requires AllStandFor(env, l, marks, ctx, items, dens)
    ensures AllGround(Outward(dens))
    ensures Evaluates(env, AddItems(a, l.op, marks, Others(a, marks, items), First(a, l.nil, marks, items)), ctx,
                      MkList(l, Outward(dens), l.nil))
  {
    hide Evaluates, Evaluatable;
    if InsertsNil(a, marks, items) {
      EvNil(env, l, ctx);
      EvAddItems(env, a, l, marks, ctx, items, dens, l.nil, []);
      assert Outward(dens) + [] == Outward(dens);
    } else {
      assert StandsFor(env, l, marks, ctx, items[0], dens[0]);
      EvMarked(env, l, marks, ctx, items[0], dens[0]);
      EvAddItems(env, a, l, marks, ctx, items[1..], dens[1..], items[0], dens[0]);
      OutwardCons(dens[0], dens[1..]);
      assert dens == [dens[0]] + dens[1..];
    }
  }

  lemma {:induction false} EvNil(env: Env, l: Assoc, ctx: Ctx)
    requires Declared(env, l)
    ensures Evaluates(env, l.nil, ctx, MkList(l, [], l.nil))
  {
    EvSelf(env, l.nil, ctx);
  }

  /** Two plain arguments make a list with at least two elements. */
  lemma {:induction false} PlainCounts(env: Env, l: Assoc, marks: set<Term>, ctx: Ctx, items: seq<Term>, dens: seq<seq<Term>>)
    requires AllStandFor(env, l, marks, ctx, items, dens)
    ensures |Outward(dens)| >= CountPlain(marks, items)
  {
    if items != [] {
      var n := |items| - 1;
      assert StandsFor(env, l, marks, ctx, items[n], dens[n]);
      PlainCounts(env, l, marks, ctx, items[..n], dens[..n]);
    }
  }

  lemma {:induction false} MarkedNotGround(a: Attr, f: Term, marks: set<Term>, x: Term, t: Term)
    requires forall m | m in marks :: m.Param?
    ensures IsNil(a) && x in marks ==> !Ground(AddItem(a, f, marks, x, t))
  {
    if IsNil(a) && x in marks {
      assert AddItem(a, f, marks, x, t).children[if IsLeft(a) then 2 else 1] == x;
    }
  }

  /** A ground result was built from ground arguments, none of them list-marked. */
  lemma {:induction false} BuiltGround(a: Attr, f: Term, marks: set<Term>, items: seq<Term>, t: Term)
    requires Ground(AddItems(a, f, marks, items, t)) && forall m | m in marks :: m.Param?
    ensures Ground(t) && forall i | 0 <= i < |items| :: Ground(items[i])
    ensures CountPlain(marks, items) == |items|
  {
    if items != [] {
      var n := |items| - 1;
      var x, t' := items[n], AddItems(a, f, marks, items[..n], t);
      var built := AddItem(a, f, marks, x, t');
      MarkedNotGround(a, f, marks, x, t');
      var cop := built.children[0];
      assert Ground(cop) && Ground(built.children[1]) && Ground(cop.children[1]);
      assert !Ground(x) ==> x !in [t', x];
      BuiltGround(a, f, marks, items[..n], t);
    }
  }

  ghost function Eliminated(l: Assoc, zs: seq<Term>): Term {
    if |zs| == 1 then zs[0] else MkList(l, zs, l.nil)
  }

  /** The delayed singleton elimination of a term that evaluates to a list. */
  lemma {:induction false} EvElim(env: Env, l: Assoc, ctx: Ctx, t: Term, zs: seq<Term>)
    requires Declared(env, l) && AllGround(zs) && Evaluates(env, t, ctx, MkList(l, zs, l.nil))
    ensures Evaluates(env, Node(Op(ListSingletonElim), [l.op, t]), ctx, Eliminated(l, zs))
  {
    hide MkList, Elements;
    var vs := [l.op, MkList(l, zs, l.nil)];
    EvSelf(env, l.op, ctx);
    MkListGround(l, zs, l.nil);
    ElementsIff(vs[1], l, zs);
    assert AllGround(vs) && !IsLiteral(vs[0]);
    assert ListOp(ListSingletonElim, l, vs) == Some(Eliminated(l, zs));
    var n := Node(Op(ListSingletonElim), [l.op, t]);
    assert Evaluatable(n);
    EvNode(env, n, ctx, vs, Eliminated(l, zs));
  }

  /** The eager singleton elimination: it happens only for one ground argument. */
  lemma {:induction false} EvEagerElim(env: Env, a: Attr, l: Assoc, marks: set<Term>, ctx: Ctx,
                                       items: seq<Term>, dens: seq<seq<Term>>)
    requires Declared(env, l) && IsNil(a) && l.isLeft == IsLeft(a) && items != []
    requires AllStandFor(env, l, marks, ctx, items, dens) && forall m | m in marks :: m.Param?
    requires CountPlain(marks, Others(a, marks, items)) < 2
    requires var t := AddItems(a, l.op, marks, Others(a, marks, items), First(a, l.nil, marks, items));
             EvalLit(env, ListSingletonElim, [l.op, t]).Some?
    ensures var t := AddItems(a, l.op, marks, Others(a, marks, items), First(a, l.nil, marks, items));
            Evaluates(env, EvalLit(env, ListSingletonElim, [l.op, t]).value, ctx, Eliminated(l, Outward(dens)))
  {
    hide ListOp, Evaluates;
    var others := Others(a, marks, items);
    var t := AddItems(a, l.op, marks, others, First(a, l.nil, marks, items));
    assert Ground([l.op, t][1]);
    BuiltGround(a, l.op, marks, others, First(a, l.nil, marks, items));
    assert InsertsNil(a, marks, items);
    assert others == items == [items[0]];
    assert items[..0] == [] && AddItems(a, l.op, marks, items[..0], l.nil) == l.nil;
    assert StandsFor(env, l, marks, ctx, items[0], dens[0]);
    assert dens[..0] == [] && Outward(dens) == dens[0] + [] == dens[0];
    SingleElim(env, l, items[0]);
  }

  lemma {:induction false} SingleElim(env: Env, l: Assoc, x: Term)
    requires Declared(env, l) && Ground(x)
    ensures EvalLit(env, ListSingletonElim, [l.op, MkCons(l.op, l.isLeft, x, l.nil)]) == Some(x)
  {
    var t := MkCons(l.op, l.isLeft, x, l.nil);
    assert [x][1..] == [];
    assert t == MkList(l, [x], l.nil);
    MkListGround(l, [x], l.nil);
    ElementsIff(t, l, [x]);
    assert !IsLiteral([l.op, t][0]);
  }

  /** Desugaring preserves meaning: evaluating the desugared application, with lists for
      its list-marked parameters, gives the flat list of all elements in reading order;
      the non-singleton variants give that list with singleton elimination applied. */
  lemma {:induction false} DesugarMeans(env: Env, a: Attr, l: Assoc, marks: set<Term>, ctx: Ctx,
                                        args: seq<Term>, dens: seq<seq<Term>>) returns (zs: seq<Term>)
    requires Declared(env, l) && IsNil(a) && l.isLeft == IsLeft(a) && args != []
    requires AllStandFor(env, l, marks, ctx, args, dens) && forall m | m in marks :: m.Param?
    ensures ReadingOrder(a, zs) == Flatten(ReadingOrders(a, dens))
    ensures Evaluates(env, Desugar(env, a, l.op, l.nil, marks, args), ctx,
                      if IsNsNil(a) then Eliminated(l, zs) else MkList(l, zs, l.nil))
  {
    hide EvalLit, Evaluates;
    var items, ds := Inward(a, args), if IsLeft(a) then dens else ReverseDens(dens);
    AllStandForInward(env, a, l, marks, ctx, args, dens);
    zs := Outward(ds);
    OutwardReads(a, dens);
    EvBuilt(env, a, l, marks, ctx, items, ds);
    var others := Others(a, marks, items);
    var t := AddItems(a, l.op, marks, others, First(a, l.nil, marks, items));
    if IsNsNil(a) {
      if CountPlain(marks, others) < 2 {
        if EvalLit(env, ListSingletonElim, [l.op, t]).Some? {
          EvEagerElim(env, a, l, marks, ctx, items, ds);
        } else {
          EvElim(env, l, ctx, t, zs);
        }
      } else {
        OthersCount(marks, items);
        PlainCounts(env, l, marks, ctx, items, ds);
      }
    }
  }

  lemma {:induction false} OthersCount(marks: set<Term>, items: seq<Term>)
    requires items != []
    ensures CountPlain(marks, items[1..]) <= CountPlain(marks, items)
  {
    if |items| > 1 {
      var n := |items| - 1;
      OthersCount(marks, items[..n]);
      assert items[1..][..n - 1] == items[..n][1..];
    }
  }

  // ----- operators without a nil terminator -----

  /** Values of the arguments, the last added outermost, on top of the value of the first one. */
  lemma {:induction false} EvPlain(env: Env, a: Attr, f: Term, ctx: Ctx, marks: set<Term>,
                                   items: seq<Term>, vs: seq<Term>, t: Term, w: Term)
    requires !IsNil(a) && f.Symbol? && EvaluatesAll(env, items, ctx, vs) && Evaluates(env, t, ctx, w)
    ensures Evaluates(env, AddItems(a, f, marks, items, t), ctx, MkList(Assoc(f, w, IsLeft(a)), Reverse(vs), w))
  {
    hide Evaluates;
    var l := Assoc(f, w, IsLeft(a));
    if items == [] {
      assert Reverse(vs) == [];
    } else {
      var n := |items| - 1;
      EvPlain(env, a, f, ctx, marks, items[..n], vs[..n], t, w);
      var rest := Reverse(vs[..n]);
      assert Reverse(vs) == [vs[n]] + rest && ([vs[n]] + rest)[1..] == rest;
      EvCons(env, l, ctx, items[n], vs[n], AddItems(a, f, marks, items[..n], t), MkList(l, rest, w));
    }
  }

  /** Without a nil terminator, the application is nested over the values of its arguments,
      and list marks change nothing. */
  lemma {:induction false} DesugarPlainMeans(env: Env, a: Attr, f: Term, nil: Term, marks: set<Term>, ctx: Ctx,
                                             args: seq<Term>, vs: seq<Term>)
    requires !IsNil(a) && f.Symbol? && args != [] && EvaluatesAll(env, args, ctx, vs)
    ensures var inner, outer := if IsLeft(a) then vs[0] else vs[|vs| - 1],
                                if IsLeft(a) then vs[1..] else vs[..|vs| - 1];
            Evaluates(env, Desugar(env, a, f, nil, marks, args), ctx,
                      MkList(Assoc(f, inner, IsLeft(a)), if IsLeft(a) then Reverse(outer) else outer, inner))
  {
    hide Evaluates;
    var items, ws := Inward(a, args), Inward(a, vs);
    assert EvaluatesAll(env, items[1..], ctx, ws[1..]);
    assert Evaluates(env, items[0], ctx, ws[0]);
    EvPlain(env, a, f, ctx, marks, items[1..], ws[1..], items[0], ws[0]);
    if !IsLeft(a) {
      assert Reverse(ws[1..]) == vs[..|vs| - 1];
    }
  }

  // ----- the shape of the built term -----

  lemma {:induction false} AddUnmarked(a: Attr, f: Term, marks: set<Term>, items: seq<Term>, t: Term)
    requires forall i | 0 <= i < |items| :: items[i] !in marks
    ensures AddItems(a, f, marks, items, t) == MkList(Assoc(f, t, IsLeft(a)), Reverse(items), t)
    ensures CountPlain(marks, items) == |items|
  {
    if items != [] {
      var n := |items| - 1;
      AddUnmarked(a, f, marks, items[..n], t);
      assert Reverse(items) == [items[n]] + Reverse(items[..n]);
    }
  }

  /** Without list-marked arguments: all arguments in reading order over nil, whatever they are; only a
      single argument of a non-singleton operator is up for elimination. */
  lemma {:induction false} DesugarUnmarked(env: Env, a: Attr, f: Term, nil: Term, marks: set<Term>, args: seq<Term>)
    requires IsNil(a) && args != [] && forall i | 0 <= i < |args| :: args[i] !in marks
    ensures var t := MkList(Assoc(f, nil, IsLeft(a)), if IsLeft(a) then Reverse(args) else args, nil);
            if IsNsNil(a) && |args| == 1 then
              Desugar(env, a, f, nil, marks, args) == SingletonElim(env, f, t)
            else Desugar(env, a, f, nil, marks, args) == t
  {
    hide EvalLit;
    AddUnmarked(a, f, marks, Inward(a, args), nil);
    assert Reverse(Reverse(args)) == args;
  }

  /** Two arguments are not list-marked. */
  ghost predicate TwoPlain(marks: set<Term>, args: seq<Term>) {
    exists i, j :: 0 <= i < j < |args| && args[i] !in marks && args[j] !in marks
  }

  lemma {:induction false} CountPlainIff(marks: set<Term>, items: seq<Term>)
    ensures CountPlain(marks, items) >= 1 <==> exists i :: 0 <= i < |items| && items[i] !in marks
    ensures CountPlain(marks, items) >= 2 <==> TwoPlain(marks, items)
  {
    if items != [] {
      var n := |items| - 1;
      var rest := items[..n];
      CountPlainIff(marks, rest);
      assert forall i | 0 <= i < n :: rest[i] == items[i];
      if TwoPlain(marks, rest) {
        var i, j :| 0 <= i < j < |rest| && rest[i] !in marks && rest[j] !in marks;
        assert items[i] !in marks && items[j] !in marks;
      }
    }
  }

  lemma {:induction false} InwardPlain(a: Attr, marks: set<Term>, args: seq<Term>)
    requires TwoPlain(marks, args)
    ensures TwoPlain(marks, Inward(a, args))
  {
    var i, j :| 0 <= i < j < |args| && args[i] !in marks && args[j] !in marks;
    if !IsLeft(a) {
      var p, q := |args| - 1 - j, |args| - 1 - i;
      assert Inward(a, args)[p] == args[j] && Inward(a, args)[q] == args[i];
    }
  }

  /** The dropped first argument is list-marked. */
  lemma {:induction false} DropMarked(marks: set<Term>, items: seq<Term>)
    requires items != [] && items[0] in marks
    ensures TwoPlain(marks, items[1..]) <==> TwoPlain(marks, items)
  {
    if TwoPlain(marks, items) {
      var p, q :| 0 <= p < q < |items| && items[p] !in marks && items[q] !in marks;
      assert items[1..][p - 1] == items[p] && items[1..][q - 1] == items[q];
    }
    if TwoPlain(marks, items[1..]) {
      var p, q :| 0 <= p < q < |items[1..]| && items[1..][p] !in marks && items[1..][q] !in marks;
      assert items[1..][p] == items[p + 1] && items[1..][q] == items[q + 1];
    }
  }

  lemma {:induction false} OthersPlain(a: Attr, marks: set<Term>, args: seq<Term>)
    requires IsNil(a) && args != []
    ensures CountPlain(marks, Others(a, marks, Inward(a, args))) >= 2 <==> TwoPlain(marks, args)
  {
    hide TwoPlain;
    var items := Inward(a, args);
    CountPlainIff(marks, Others(a, marks, items));
    if items[0] in marks {
      DropMarked(marks, items);
    }
    if TwoPlain(marks, args) {
      InwardPlain(a, marks, args);
    }
    if TwoPlain(marks, items) {
      InwardPlain(a, marks, items);
      assert Inward(a, items) == args;
    }
  }

  /** A non-singleton operator is put under elimination exactly if fewer than two of its arguments are
      not list-marked; only ground arguments are eliminated at once. */
  lemma {:induction false} DesugarWraps(env: Env, a: Attr, f: Term, nil: Term, marks: set<Term>, args: seq<Term>)
    requires IsNsNil(a) && args != [] && forall m | m in marks :: m.Param?
    ensures var t := Desugar(env, a, f, nil, marks, args);
            if TwoPlain(marks, args) then t.Node? && (t.kind == Apply || t.kind == Op(ListConcat))
            else (t.Node? && t.kind == Op(ListSingletonElim)) || forall i | 0 <= i < |args| :: Ground(args[i])
  {
    hide AddItems, CountPlain, ListOp;
    var items := Inward(a, args);
    var others, first := Others(a, marks, items), First(a, nil, marks, items);
    var t := AddItems(a, f, marks, others, first);
    OthersPlain(a, marks, args);
    if TwoPlain(marks, args) {
      AddedShape(a, f, marks, others, first);
    } else if EvalLit(env, ListSingletonElim, [f, t]).Some? {
      assert Ground([f, t][1]);
      BuiltGround(a, f, marks, others, first);
      forall i | 0 <= i < |args| ensures Ground(args[i]) {
        var p := if IsLeft(a) then i else |args| - 1 - i;
        var d := |items| - |others|;
        assert items[p] == args[i] && (p >= d ==> others[p - d] == items[p]);
      }
    }
  }

  lemma {:induction false} AddedShape(a: Attr, f: Term, marks: set<Term>, items: seq<Term>, t: Term)
    requires items != []
    ensures var r := AddItems(a, f, marks, items, t); r.Node? && (r.kind == Apply || r.kind == Op(ListConcat))
  {
  }

  /** `(f x y)`, curried. */
  function App2(f: Term, x: Term, y: Term): Term {
    Node(Apply, [Node(Apply, [f, x]), y])
  }

  lemma {:induction false} NestThree(f: Term, x: Term, y: Term, z: Term, nil: Term)
    ensures MkList(Assoc(f, nil, true), [z, y, x], nil) == App2(f, App2(f, App2(f, nil, x), y), z)
    ensures MkList(Assoc(f, nil, false), [x, y, z], nil) == App2(f, x, App2(f, y, App2(f, z, nil)))
    ensures Reverse([x, y, z]) == [z, y, x]
  {
    NestInto(Assoc(f, nil, true), z, y, x);
    NestInto(Assoc(f, nil, false), x, y, z);
  }

  lemma {:induction false} NestInto(l: Assoc, x: Term, y: Term, z: Term)
    ensures MkList(l, [x, y, z], l.nil) ==
            MkCons(l.op, l.isLeft, x, MkCons(l.op, l.isLeft, y, MkCons(l.op, l.isLeft, z, l.nil)))
  {
    hide MkList;
    MkListCons(l, z, [], l.nil);
    MkListCons(l, y, [z], l.nil);
    MkListCons(l, x, [y, z], l.nil);
    assert [z] + [] == [z] && [y] + [z] == [y, z] && [x] + [y, z] == [x, y, z];
  }

  lemma {:induction false} MkListCons(l: Assoc, x: Term, xs: seq<Term>, tail: Term)
    ensures MkList(l, [x] + xs, tail) == MkCons(l.op, l.isLeft, x, MkList(l, xs, tail)) && MkList(l, [], tail) == tail
  {
    assert ([x] + xs)[1..] == xs;
  }

  /** What the six attributes make of three arguments that are not list-marked. */
  lemma {:induction false} ThreeArguments(env: Env, f: Term, nil: Term, marks: set<Term>, x: Term, y: Term, z: Term)
    requires x !in marks && y !in marks && z !in marks
    ensures var args := [x, y, z];
            Desugar(env, LeftAssoc, f, nil, marks, args) == App2(f, App2(f, x, y), z) &&
            Desugar(env, RightAssoc, f, nil, marks, args) == App2(f, x, App2(f, y, z))
    ensures var args, left, right := [x, y, z], App2(f, App2(f, App2(f, nil, x), y), z), App2(f, x, App2(f, y, App2(f, z, nil)));
            Desugar(env, LeftAssocNil, f, nil, marks, args) == left &&
            Desugar(env, LeftAssocNsNil, f, nil, marks, args) == left &&
            Desugar(env, RightAssocNil, f, nil, marks, args) == right &&
            Desugar(env, RightAssocNsNil, f, nil, marks, args) == right
  {
    hide EvalLit, AddItems, MkList, Reverse, SingletonElim, CountPlain;
    NestThree(f, x, y, z, nil);
    var args := [x, y, z];
    forall a: Attr | IsNil(a) {
      DesugarUnmarked(env, a, f, nil, marks, args);
    }
    PlainThree(env, f, nil, marks, x, y, z);
  }

  lemma {:induction false} PlainThree(env: Env, f: Term, nil: Term, marks: set<Term>, x: Term, y: Term, z: Term)
    requires x !in marks && y !in marks && z !in marks
    ensures Desugar(env, LeftAssoc, f, nil, marks, [x, y, z]) == App2(f, App2(f, x, y), z)
    ensures Desugar(env, RightAssoc, f, nil, marks, [x, y, z]) == App2(f, x, App2(f, y, z))
  {
    AddTwo(LeftAssoc, f, marks, y, z, x);
    AddTwo(RightAssoc, f, marks, y, x, z);
    assert [x, y, z][1..] == [y, z] && Reverse([x, y, z]) == [z, y, x] && [z, y, x][1..] == [y, x];
  }

  lemma {:induction false} AddTwo(a: Attr, f: Term, marks: set<Term>, x: Term, y: Term, t: Term)
    ensures AddItems(a, f, marks, [x, y], t) == AddItem(a, f, marks, y, AddItem(a, f, marks, x, t))
  {
    assert [x, y][..1] == [x] && [x][..0] == [];
    assert AddItems(a, f, marks, [x], t) == AddItem(a, f, marks, x, t);
  }

  /** What they make of one argument that is not list-marked. */
  lemma {:induction false} OneArgument(env: Env, f: Term, nil: Term, marks: set<Term>, x: Term)
    requires x !in marks
    ensures Desugar(env, LeftAssoc, f, nil, marks, [x]) == Desugar(env, RightAssoc, f, nil, marks, [x]) == x
    ensures Desugar(env, LeftAssocNil, f, nil, marks, [x]) == App2(f, nil, x)
    ensures Desugar(env, RightAssocNil, f, nil, marks, [x]) == App2(f, x, nil)
    ensures Desugar(env, LeftAssocNsNil, f, nil, marks, [x]) == SingletonElim(env, f, App2(f, nil, x))
    ensures Desugar(env, RightAssocNsNil, f, nil, marks, [x]) == SingletonElim(env, f, App2(f, x, nil))
  {
    hide EvalLit, SingletonElim;
    assert Reverse([x]) == [x] && [x][1..] == [] && [x][..0] == [];
    forall a: Attr, t ensures AddItems(a, f, marks, [x], t) == AddItem(a, f, marks, x, t) && CountPlain(marks, [x]) == 1 {
      AddNothing(a, f, marks, [x], t);
    }
  }

  /** A list-marked argument at the nil end takes the place of nil; anywhere else it is concatenated. */
  lemma {:induction false} MarkedArguments(env: Env, f: Term, nil: Term, marks: set<Term>, x: Term, m: Term)
    requires x !in marks && m in marks
    ensures Desugar(env, LeftAssocNil, f, nil, marks, [m]) == Desugar(env, RightAssocNil, f, nil, marks, [m]) == m
    ensures Desugar(env, LeftAssocNil, f, nil, marks, [m, x]) == App2(f, m, x)
    ensures Desugar(env, RightAssocNil, f, nil, marks, [x, m]) == App2(f, x, m)
    ensures Desugar(env, LeftAssocNil, f, nil, marks, [x, m]) == Node(Op(ListConcat), [f, App2(f, nil, x), m])
    ensures Desugar(env, RightAssocNil, f, nil, marks, [m, x]) == Node(Op(ListConcat), [f, m, App2(f, x, nil)])
  {
    hide EvalLit, SingletonElim, AddItems;
    assert Reverse([m]) == [m] && Reverse([m, x]) == [x, m] && Reverse([x, m]) == [m, x];
    assert [m][1..] == [] && [m, x][1..] == [x];
    forall a: Attr
      ensures AddItems(a, f, marks, [], m) == m && AddItems(a, f, marks, [x], m) == AddItem(a, f, marks, x, m)
      ensures AddItems(a, f, marks, [x, m], nil) == AddItem(a, f, marks, m, AddItem(a, f, marks, x, nil))
    {
      AddNothing(a, f, marks, [], m);
      AddItemsStep(a, f, marks, [x], 0, m);
      AddNothing(a, f, marks, [x], m);
      assert [x][..1] == [x] && [x][..0] == [];
      AddTwo(a, f, marks, x, m, nil);
    }
  }
}
