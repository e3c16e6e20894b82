/** Which programs the parser accepts, and what that guarantees about evaluation. */
module Programs {
  import opened Terms
  import opened Matching
  import opened ListSpecs
  import opened Evaluation

  // ----- free parameters -----

  lemma {:induction false} ParamsPop(rest: seq<Term>, cur: Term)
    ensures ParamsOf(rest + [cur]) == ParamsOf(rest) + Params(cur)
  {
    var all := rest + [cur];
    assert all[|rest|] == cur;
    forall p | p in ParamsOf(rest) ensures p in ParamsOf(all) {
      var i :| 0 <= i < |rest| && p in Params(rest[i]);
      assert all[i] == rest[i];
    }
  }

  lemma {:induction false} ParamsPush(rest: seq<Term>, cs: seq<Term>)
    ensures ParamsOf(rest + cs) == ParamsOf(rest) + ParamsOf(cs)
  {
    var all := rest + cs;
    forall p | p in ParamsOf(rest) ensures p in ParamsOf(all) {
      var i :| 0 <= i < |rest| && p in Params(rest[i]);
      assert all[i] == rest[i];
    }
    forall p | p in ParamsOf(cs) ensures p in ParamsOf(all) {
      var i :| 0 <= i < |cs| && p in Params(cs[i]);
      assert all[|rest| + i] == cs[i];
    }
  }

  /** The children of visited terms are ground, visited or waiting. */
  ghost predicate Explored(visited: set<Term>, toVisit: seq<Term>) {
    forall t, i | t in visited && t.Node? && 0 <= i < |t.children| ::
      Ground(t.children[i]) || t.children[i] in visited || t.children[i] in toVisit
  }

  lemma {:induction false} ExploredParams(visited: set<Term>, toVisit: seq<Term>, t: Term, p: Term)
    requires Explored(visited, toVisit) && t in visited && p in Params(t)
    ensures p in visited || p in ParamsOf(toVisit)
    decreases t
  {
    match t
    case Param(_) =>
    case Node(_, cs) =>
      var i :| 0 <= i < |cs| && p in Params(cs[i]);
      if Ground(cs[i]) {
        GroundIff(cs[i]);
      } else if cs[i] in visited {
        ExploredParams(visited, toVisit, cs[i], p);
      } else {
        var j :| 0 <= j < |toVisit| && toVisit[j] == cs[i];
      }
  }

  /** What the traversals keep: every parameter of `all` is visited or waiting. */
  ghost predicate TraversalInv(all: set<Term>, visited: set<Term>, toVisit: seq<Term>) {
    && Explored(visited, toVisit)
    && (forall p | p in all :: p in visited || p in ParamsOf(toVisit))
    && ParamsOf(toVisit) <= all
    && (forall p | p in visited && p.Param? :: p in all)
  }

  lemma {:induction false} TraversalSkip(all: set<Term>, visited: set<Term>, rest: seq<Term>, cur: Term)
    requires TraversalInv(all, visited, rest + [cur])
    requires Ground(cur) || cur in visited
    ensures TraversalInv(all, visited, rest)
    ensures Sizes(rest) < Sizes(rest + [cur])
  {
    ParamsPop(rest, cur);
    SizesAppend(rest, [cur]);
    assert Sizes([cur]) == Size(cur);
    if Ground(cur) {
      GroundIff(cur);
    }
    assert Explored(visited, rest) by {
      forall t, i | t in visited && t.Node? && 0 <= i < |t.children|
        ensures Ground(t.children[i]) || t.children[i] in visited || t.children[i] in rest
      {
      }
    }
    forall p | p in all ensures p in visited || p in ParamsOf(rest) {
      if p in Params(cur) && !Ground(cur) {
        ExploredParams(visited, rest, cur, p);
      }
    }
  }

  lemma {:induction false} TraversalExpand(all: set<Term>, visited: set<Term>, rest: seq<Term>, cur: Term, toVisit: seq<Term>)
    requires TraversalInv(all, visited, rest + [cur])
    requires !Ground(cur) && toVisit == if cur.Node? then rest + cur.children else rest
    ensures TraversalInv(all, visited + {cur}, toVisit)
    ensures Sizes(toVisit) < Sizes(rest + [cur])
    ensures cur.Param? ==> cur in all
  {
    ParamsPop(rest, cur);
    SizesAppend(rest, [cur]);
    assert Sizes([cur]) == Size(cur);
    if cur.Node? {
      ParamsPush(rest, cur.children);
      SizesAppend(rest, cur.children);
      assert Params(cur) == ParamsOf(cur.children);
    }
    forall t, i | t in visited + {cur} && t.Node? && 0 <= i < |t.children|
      ensures Ground(t.children[i]) || t.children[i] in visited + {cur} || t.children[i] in toVisit
    {
    }
  }

  lemma {:induction false} TraversalStart(es: seq<Term>)
    ensures TraversalInv(ParamsOf(es), {}, es)
  {
  }

  /** Every parameter that occurs in the inputs, exactly once, and nothing else. */
  method GetVariables(es: seq<Term>) returns (ret: seq<Term>)
    ensures Distinct(ret)
    ensures forall p :: p in ret <==> p in ParamsOf(es)
  {
    hide TraversalInv;
    TraversalStart(es);
    ret := [];
    var visited: set<Term> := {};
    var toVisit := es;
    while toVisit != []
      invariant Distinct(ret)
      invariant forall p :: p in ret <==> p in visited && p.Param?
      invariant TraversalInv(ParamsOf(es), visited, toVisit)
      decreases Sizes(toVisit)
    {
      var cur := toVisit[|toVisit| - 1];
      ghost var before := toVisit;
      toVisit := toVisit[..|toVisit| - 1];
      assert before == toVisit + [cur];
      if Ground(cur) {
        TraversalSkip(ParamsOf(es), visited, toVisit, cur);
        continue;
      }
      if cur in visited {
        TraversalSkip(ParamsOf(es), visited, toVisit, cur);
        continue;
      }
      ghost var rest := toVisit;
      if cur.Param? {
        ret := ret + [cur];
      } else if cur.Node? {
        toVisit := toVisit + cur.children;
      }
      TraversalExpand(ParamsOf(es), visited, rest, cur, toVisit);
      visited := visited + {cur};
    }
    TraversalEnd(ParamsOf(es), visited);
  }

  lemma {:induction false} TraversalEnd(all: set<Term>, visited: set<Term>)
    requires TraversalInv(all, visited, [])
    ensures forall p: Term | p.Param? :: p in visited <==> p in all
    ensures forall p | p in all :: p in visited
  {
  }

  /** Whether a parameter of the set occurs, although only the root is tested for being ground. */
  method HasVariable(e: Term, vars: set<Term>) returns (r: bool)
    requires forall v | v in vars :: v.Param?
    ensures r <==> exists v :: v in vars && v in Params(e)
  {
    hide TraversalInv;
    if vars == {} {
      return false;
    }
    var visited: set<Term> := {};
    var toVisit := [e];
    ghost var all := ParamsOf([e]);
    assert all == Params(e) by {
      ParamsPop([], e);
      assert [] + [e] == [e];
    }
    TraversalStart([e]);
    if Ground(e) {
      GroundIff(e);
    }
    while toVisit != []
      invariant TraversalInv(all, visited, toVisit)
      invariant forall v | v in vars :: v !in visited
      invariant Ground(e) ==> toVisit == [e] || toVisit == []
      decreases Sizes(toVisit)
    {
      var cur := toVisit[|toVisit| - 1];
      ghost var before := toVisit;
      toVisit := toVisit[..|toVisit| - 1];
      assert before == toVisit + [cur];
      if Ground(e) {
        TraversalSkip(all, visited, toVisit, cur);
        continue;
      }
      if cur in visited {
        TraversalSkip(all, visited, toVisit, cur);
        continue;
      }
      if Ground(cur) {
        ExpandGround(all, visited, toVisit, cur);
      } else {
        TraversalExpand(all, visited, toVisit, cur, if cur.Node? then toVisit + cur.children else toVisit);
      }
      visited := visited + {cur};
      if cur.Param? {
        if cur in vars {
          return true;
        }
      }
      if cur.Node? {
        toVisit := toVisit + cur.children;
      }
    }
    TraversalEnd(all, visited);
    return false;
  }

  /** A ground term below the root is traversed too; this adds nothing. */
  lemma {:induction false} ExpandGround(all: set<Term>, visited: set<Term>, rest: seq<Term>, cur: Term)
    requires TraversalInv(all, visited, rest + [cur]) && Ground(cur)
    ensures var toVisit := if cur.Node? then rest + cur.children else rest;
            TraversalInv(all, visited + {cur}, toVisit) && Sizes(toVisit) < Sizes(rest + [cur])
  {
    TraversalSkip(all, visited, rest, cur);
    SizesAppend(rest, [cur]);
    assert Sizes([cur]) == Size(cur);
    if cur.Node? {
      GroundIff(cur);
      ParamsPush(rest, cur.children);
      SizesAppend(rest, cur.children);
      assert Params(cur) == ParamsOf(cur.children);
      var toVisit := rest + cur.children;
      forall t, i | t in visited + {cur} && t.Node? && 0 <= i < |t.children|
        ensures Ground(t.children[i]) || t.children[i] in visited + {cur} || t.children[i] in toVisit
      {
      }
    }
  }

  /** A parameter of `e` that is neither bound nor the distinguished one. */
  method FindFreeVar(e: Term, bvs: seq<Term>, self: Term) returns (r: Option<Term>)
    ensures match r
            case Some(v) => v in Params(e) && v !in bvs && v != self
            case None => forall v | v in Params(e) :: v in bvs || v == self
  {
    var efv := GetVariables([e]);
    ParamsPop([], e);
    assert [] + [e] == [e];
    for i := 0 to |efv|
      invariant forall j | 0 <= j < i :: efv[j] in bvs || efv[j] == self
    {
      var v := efv[i];
      if v !in bvs && v != self {
        return Some(v);
      }
    }
    return None;
  }

  // ----- program cases -----

  /** What the parser demands of a case: the right side is bound by the left side, up to
      `eo::self`, and no argument of the left side is evaluatable. */
  ghost predicate CaseChecked(c: Case, self: Term) {
    && (forall v | v in Params(c.rhs) && v != self :: v in ParamsOf(c.lhs))
    && (forall i | 1 <= i < |c.lhs| :: !Evaluatable(c.lhs[i]))
  }

  method TypeCheckProgramPair(lhs: seq<Term>, rhs: Term, self: Term) returns (ok: bool)
    ensures ok <==> CaseChecked(Case(lhs, rhs), self)
    ensures ok <==> (forall v | v in Params(rhs) && v != self :: exists j :: 0 <= j < |lhs| && v in Params(lhs[j])) &&
                    forall i | 1 <= i < |lhs| :: !Evaluatable(lhs[i])
  {
    var bvs := GetVariables(lhs);
    var free := FindFreeVar(rhs, bvs, self);
    if free.Some? {
      return false;
    }
    var i := 1;
    while i < |lhs|
      invariant forall j | 1 <= j < i && j < |lhs| :: !Evaluatable(lhs[j])
    {
      if Evaluatable(lhs[i]) {
        return false;
      }
      i := i + 1;
    }
    return true;
  }

  ghost predicate ValueCtx(ctx: Ctx) {
    forall p | p in ctx :: Value(ctx[p])
  }

  ghost predicate GroundCtx(ctx: Ctx) {
    forall p | p in ctx :: Ground(ctx[p])
  }

  /** A match against a value binds every parameter to a value. */
  lemma {:induction false} MatchBindsValues(a: Term, s: Ctx, b: Term, p: Term)
    requires Matches(a, s, b) && Value(b) && p in Params(a)
    ensures p in s && Value(s[p])
    decreases a
  {
    match a
    case Node(_, cs) =>
      var i :| 0 <= i < |cs| && p in Params(cs[i]);
      MatchBindsValues(cs[i], s, b.children[i], p);
    case _ =>
  }

  lemma {:induction false} FirstMatchIs(cases: seq<Case>, args: seq<Term>) returns (i: nat)
    requires args != [] && FirstMatch(cases, args).Some?
    ensures i < |cases| && |cases[i].lhs| == |args|
    ensures FirstMatch(cases, args).value.0 == cases[i].rhs
    ensures MatchRecAll(cases[i].lhs[1..], args[1..], map[]) == Some(FirstMatch(cases, args).value.1)
  {
    match MatchRecAll(cases[0].lhs[1..], args[1..], map[])
    case Some(_) => i := 0;
    case None =>
      i := FirstMatchIs(cases[1..], args);
      i := i + 1;
  }

  ghost predicate ProgramsChecked(env: Env, self: Term) {
    forall p, i | p in env.progs && 0 <= i < |env.progs[p]| :: CaseChecked(env.progs[p][i], self)
  }

  /** A selected case binds exactly the parameters of the case's arguments, to ground values. */
  lemma {:induction false} SelectedContext(env: Env, args: seq<Term>) returns (c: Case)
    requires SelectCase(env, args).Some?
    ensures args[0] in env.progs && c in env.progs[args[0]] && |c.lhs| == |args| > 0
    ensures var (body, ctx) := SelectCase(env, args).value;
            body == c.rhs && ValueCtx(ctx) && ctx.Keys == ParamsOf(c.lhs[1..])
  {
    var i := FirstMatchIs(env.progs[args[0]], args);
    c := env.progs[args[0]][i];
    var ctx := SelectCase(env, args).value.1;
    MatchRecAllIsLeast(c.lhs[1..], args[1..], map[]);
    forall p | p in ctx ensures Value(ctx[p]) {
      var j :| 0 <= j < |c.lhs[1..]| && p in Params(c.lhs[1..][j]);
      assert args[1..][j] == args[j + 1];
      MatchBindsValues(c.lhs[1..][j], ctx, args[1..][j], p);
    }
  }

  /** In a checked program the body of a selected case is closed by its context, except
      for `eo::self`; so it is closed exactly when `eo::self` does not occur unbound. */
  lemma {:induction false} SelectedBodyClosed(env: Env, self: Term, args: seq<Term>)
    requires ProgramsChecked(env, self) && SelectCase(env, args).Some? && args[0].ProgramConst?
    requires forall c | c in env.progs[args[0]] :: c.lhs != [] && c.lhs[0] == args[0]
    ensures var (body, ctx) := SelectCase(env, args).value;
            (Params(body) <= ctx.Keys <==> self !in Params(body) || self in ctx)
  {
    var (body, ctx) := SelectCase(env, args).value;
    var c := SelectedContext(env, args);
    assert CaseChecked(c, self);
    ParamsOfSplit(c.lhs);
    assert forall p | p in Params(body) && p != self :: p in ctx;
  }

  // ----- runs stay closed -----

  /** An if-then-else with a wrong number of arguments is returned as it is; so it must be ground. */
  predicate IteOk(t: Term) {
    match t
    case Node(k, cs) =>
      if k == Op(Ite) && |cs| != 3 then Ground(t) else forall i | 0 <= i < |cs| :: IteOk(cs[i])
    case _ => true
  }

  /** No body has a malformed if-then-else with a parameter in it, except perhaps the body `but`. */
  ghost predicate BodiesOk(env: Env, but: Option<Term>) {
    forall p, c | p in env.progs && c in env.progs[p] :: IteOk(c.rhs) || but == Some(c.rhs)
  }

  ghost predicate PrimsGround(prim: (LitOp, seq<Term>) -> Option<Term>) {
    forall op, args | AllGround(args) && prim(op, args).Some? :: Ground(prim(op, args).value)
  }

  /** Every case is checked and is headed by its program; nil terminators and what the unmodelled
      operators return are ground.  No program can name `eo::self`, which is bound only where the
      type of literals is declared, nor `eo::?`, which is never bound. */
  ghost predicate EnvClosed(env: Env, self: Term) {
    && ProgramsChecked(env, self)
    && (forall p, c | p in env.progs && c in env.progs[p] ::
          p.ProgramConst? && c.lhs != [] && c.lhs[0] == p && self !in Params(c.rhs) && !HasAny(c.rhs))
    && (forall f | f in env.assoc :: Ground(env.assoc[f].nil))
    && PrimsGround(env.prim)
  }

  /** All parameters are bound, and `eo::?` does not occur. */
  ghost predicate BoundIn(t: Term, ctx: Ctx) {
    Params(t) <= ctx.Keys && !HasAny(t)
  }

  /** A malformed if-then-else that is not ground is part of the result: evaluation reaches it through
      the branches that the conditions choose and the bodies of the cases that are selected. */
  ghost predicate Strays(env: Env, t: Term, ctx: Ctx, fuel: nat)
    decreases fuel, t
  {
    !Unchanged(t, ctx) &&
    match t
    case Node(k, cs) =>
      if k == Op(Ite) && |cs| != 3 then !Ground(t)
      else if k == Op(Ite) && Eval(env, cs[0], ctx, fuel).Some? && Eval(env, cs[0], ctx, fuel).value.Bool? then
        Strays(env, cs[if Eval(env, cs[0], ctx, fuel).value.value then 1 else 2], ctx, fuel)
      else
        || (exists i | 0 <= i < |cs| :: Strays(env, cs[i], ctx, fuel))
        || (fuel > 0 && Entered(env, t, ctx, fuel).Some? &&
            var (body, c) := Entered(env, t, ctx, fuel).value; Strays(env, body, c, fuel - 1))
    case _ => false
  }

  /** The body that evaluation enters at an application, with its context. */
  ghost function Entered(env: Env, t: Term, ctx: Ctx, fuel: nat): Option<(Term, Ctx)>
    requires t.Node?
  {
    if t.kind == Op(Ite) then None
    else match EvalAll(env, t.children, ctx, fuel)
      case None => None
      case Some(vs) =>
        match Reduce(env, t.kind, vs)
        case Done(_) => None
        case Enter(body, c) => Some((body, c))
  }

  /** There is no if-then-else that could choose a branch. */
  predicate NoChoice(t: Term) {
    match t
    case Node(k, cs) => !(k == Op(Ite) && |cs| == 3) && forall i | 0 <= i < |cs| :: NoChoice(cs[i])
    case _ => true
  }

  lemma {:induction false} EnteredBody(env: Env, t: Term, ctx: Ctx, fuel: nat)
    requires t.Node? && Entered(env, t, ctx, fuel).Some?
    ensures exists p, c :: p in env.progs && c in env.progs[p] && c.rhs == Entered(env, t, ctx, fuel).value.0
  {
    var vs := EvalAll(env, t.children, ctx, fuel).value;
    assert IsCall(t.kind, vs) && SelectCase(env, vs).Some?;
    var c := SelectedContext(env, vs);
  }

  /** Without a malformed if-then-else that is not ground, in the term or in a body, nothing strays. */
  lemma {:induction false} IteOkStays(env: Env, t: Term, ctx: Ctx, fuel: nat)
    requires IteOk(t) && BodiesOk(env, None)
    ensures !Strays(env, t, ctx, fuel)
    decreases fuel, t
  {
    match t
    case Node(k, cs) =>
      if !(k == Op(Ite) && |cs| != 3) {
        forall i | 0 <= i < |cs| ensures !Strays(env, cs[i], ctx, fuel) {
          IteOkStays(env, cs[i], ctx, fuel);
        }
        if fuel > 0 && Entered(env, t, ctx, fuel).Some? {
          EnteredBody(env, t, ctx, fuel);
          var (body, c) := Entered(env, t, ctx, fuel).value;
          IteOkStays(env, body, c, fuel - 1);
        }
      }
    case _ =>
  }

  /** Where no branch is chosen, every malformed if-then-else is reached. */
  lemma {:induction false} NoChoiceStrays(env: Env, t: Term, ctx: Ctx, fuel: nat)
    requires NoChoice(t) && !IteOk(t) && BoundIn(t, ctx)
    ensures Strays(env, t, ctx, fuel) && !Ground(t)
    decreases t
  {
    var k, cs := t.kind, t.children;
    if !(k == Op(Ite) && |cs| != 3) {
      var i :| 0 <= i < |cs| && !IteOk(cs[i]);
      NoChoiceStrays(env, cs[i], ctx, fuel);
    }
    GroundIff(t);
  }

  lemma {:induction false} ItemsGround(e: Term, op: Term, isLeft: bool)
    requires Ground(e)
    ensures AllGround(Items(e, op, isLeft))
    decreases e
  {
    if IsCons(e, op) {
      assert Ground(e.children[0]) && Ground(e.children[1]);
      assert Ground(e.children[0].children[1]);
      ItemsGround(ConsTail(e, op, isLeft), op, isLeft);
    }
  }

  lemma {:induction false} KeepGround(f: Filter, xs: seq<Term>)
    requires AllGround(xs)
    ensures AllGround(Keep(f, xs))
  {
    if xs != [] {
      KeepGround(f, xs[..|xs| - 1]);
    }
  }

  lemma {:induction false} KeptGround(l: Assoc, f: Filter, xs: seq<Term>)
    requires AllGround(xs) && Ground(l.op) && Ground(l.nil)
    ensures Ground(MkList(l, Keep(f, xs), l.nil))
  {
    KeepGround(f, xs);
    MkListGround(l, Keep(f, xs), l.nil);
  }

  lemma {:induction false} UnaryGround(op: LitOp, l: Assoc, xs: seq<Term>, e: Term)
    requires IsUnaryOp(op) && AllGround(xs) && Ground(e) && Ground(l.op) && Ground(l.nil)
    ensures Ground(UnaryOp(op, l, xs, e))
  {
    MkListGround(l, Reverse(xs), l.nil);
    KeptGround(l, FirstOccurrences, xs);
  }

  lemma {:induction false} BinaryGround(op: LitOp, l: Assoc, xs: seq<Term>, ys: seq<Term>)
    requires IsBinaryOp(op) && AllGround(xs) && Ground(l.op) && Ground(l.nil)
    ensures Ground(BinaryOp(op, l, xs, ys))
  {
    KeptGround(l, Beyond(multiset(ys)), xs);
    KeptGround(l, Within(multiset(ys)), xs);
  }

  lemma {:induction false} SearchGround(op: LitOp, l: Assoc, xs: seq<Term>, y: Term)
    requires IsSearchOp(op) && AllGround(xs) && Ground(l.op) && Ground(l.nil) && SearchOp(op, l, xs, y).Some?
    ensures Ground(SearchOp(op, l, xs, y).value)
  {
    KeptGround(l, DropFirst(y), xs);
    KeptGround(l, DropEvery(y), xs);
  }

  lemma {:induction false} ListOpGround(op: LitOp, l: Assoc, args: seq<Term>)
    requires IsListOp(op) && |args| == Arity(op) && AllGround(args) && Ground(l.op) && Ground(l.nil)
    requires ListOp(op, l, args).Some?
    ensures Ground(ListOp(op, l, args).value)
  {
    hide Items, EndOf, MkList, Keep, UnaryOp, BinaryOp, SearchOp;
    if op.ListNil? {
    } else if op.ListCons? {
      MkListGround(l, [args[1]], args[2]);
    } else {
      ItemsGround(args[1], l.op, l.isLeft);
      var xs := Items(args[1], l.op, l.isLeft);
      if IsUnaryOp(op) {
        UnaryGround(op, l, xs, args[1]);
      } else {
        ItemsGround(args[2], l.op, l.isLeft);
        var ys := Items(args[2], l.op, l.isLeft);
        if IsBinaryOp(op) {
          BinaryGround(op, l, xs, ys);
        } else if IsSearchOp(op) {
          SearchGround(op, l, xs, args[2]);
        } else {
          MkListGround(l, xs + ys, l.nil);
          MkListGround(l, ys + xs, l.nil);
        }
      }
    }
  }

  lemma {:induction false} EvalLitGround(env: Env, self: Term, op: LitOp, args: seq<Term>)
    requires EnvClosed(env, self) && AllGround(args) && EvalLit(env, op, args).Some?
    ensures Ground(EvalLit(env, op, args).value)
  {
    hide ListOp;
    if IsListOp(op) {
      var a := env.assoc[args[0]];
      ListOpGround(op, Assoc(args[0], a.nil, a.isLeft), args);
    }
  }

  lemma {:induction false} SelectedBound(env: Env, self: Term, args: seq<Term>)
    requires EnvClosed(env, self) && SelectCase(env, args).Some?
    ensures var (body, ctx) := SelectCase(env, args).value; BoundIn(body, ctx) && GroundCtx(ctx)
  {
    var c := SelectedContext(env, args);
    SelectedBodyClosed(env, self, args);
  }

  lemma {:induction false} ReduceClosed(env: Env, self: Term, k: Kind, vs: seq<Term>)
    requires EnvClosed(env, self) && AllGround(vs)
    ensures match Reduce(env, k, vs)
            case Done(v) => Ground(v)
            case Enter(body, c) => BoundIn(body, c) && GroundCtx(c)
  {
    hide EvalLit;
    if IsCall(k, vs) {
      if SelectCase(env, vs).Some? {
        var (body, ctx) := SelectCase(env, vs).value;
        SelectedBound(env, self, vs);
        if ctx == map[] {
          GroundIff(body);
        }
      }
    } else if k.Op? && EvalLit(env, k.op, vs).Some? {
      EvalLitGround(env, self, k.op, vs);
    }
  }

  /** Nothing is evaluated over a child that is not ground. */
  lemma {:induction false} ReduceNonGround(env: Env, k: Kind, vs: seq<Term>)
    requires !AllGround(vs) && k != Op(Ite)
    ensures Reduce(env, k, vs).Done? && !Ground(Reduce(env, k, vs).value)
  {
  }

  /** Every terminating evaluation of a bound term in a ground context gives a ground term, exactly
      if no malformed if-then-else that is not ground is reached. */
  lemma {:induction false} EvalGroundIff(env: Env, self: Term, t: Term, ctx: Ctx, fuel: nat)
    requires EnvClosed(env, self) && BoundIn(t, ctx) && GroundCtx(ctx)
    requires Eval(env, t, ctx, fuel).Some?
    ensures Ground(Eval(env, t, ctx, fuel).value) <==> !Strays(env, t, ctx, fuel)
    decreases fuel, t, 1
  {
    hide EnvClosed, Reduce, BoundIn;
    BoundInParts(t, ctx);
    if !Unchanged(t, ctx) {
      match t
      case Node(k, cs) =>
        if k != Op(Ite) {
          EvalAllGroundIff(env, self, cs, ctx, fuel);
          EvalNodeGround(env, self, t, ctx, fuel);
        } else if |cs| == 3 {
          EvalGroundIff(env, self, cs[0], ctx, fuel);
          var c := Eval(env, cs[0], ctx, fuel).value;
          if c.Bool? {
            EvalGroundIff(env, self, cs[if c.value then 1 else 2], ctx, fuel);
          } else {
            EvalGroundIff(env, self, cs[1], ctx, fuel);
            EvalGroundIff(env, self, cs[2], ctx, fuel);
            StuckIteGround(env, t, ctx, fuel);
          }
        }
      case _ =>
    }
  }

  lemma {:induction false} BoundInParts(t: Term, ctx: Ctx)
    requires BoundIn(t, ctx)
    ensures t.Node? ==> forall i | 0 <= i < |t.children| :: BoundIn(t.children[i], ctx)
    ensures (t.Param? ==> t in ctx) && !t.Any? && (Unchanged(t, ctx) ==> Ground(t))
  {
    GroundIff(t);
    assert t.Param? ==> t in Params(t);
  }

  lemma {:induction false} StuckIteGround(env: Env, t: Term, ctx: Ctx, fuel: nat)
    requires t.Node? && t.kind == Op(Ite) && |t.children| == 3 && !Unchanged(t, ctx)
    requires Eval(env, t, ctx, fuel).Some? && !Eval(env, t.children[0], ctx, fuel).value.Bool?
    requires forall i | 0 <= i < 3 ::
               Ground(Eval(env, t.children[i], ctx, fuel).value) <==> !Strays(env, t.children[i], ctx, fuel)
    ensures Ground(Eval(env, t, ctx, fuel).value) <==> !Strays(env, t, ctx, fuel)
  {
    var v, cs := Eval(env, t, ctx, fuel).value, t.children;
    assert v.Node? && |v.children| == 3;
    assert forall i | 0 <= i < 3 :: Eval(env, cs[i], ctx, fuel) == Some(v.children[i]);
  }

  /** The step from the evaluated children to the value. */
  lemma {:induction false} EvalNodeGround(env: Env, self: Term, t: Term, ctx: Ctx, fuel: nat)
    requires EnvClosed(env, self) && t.Node? && t.kind != Op(Ite) && !Unchanged(t, ctx)
    requires Eval(env, t, ctx, fuel).Some? && EvalAll(env, t.children, ctx, fuel).Some?
    ensures Ground(Eval(env, t, ctx, fuel).value) <==>
            AllGround(EvalAll(env, t.children, ctx, fuel).value) &&
            !(fuel > 0 && Entered(env, t, ctx, fuel).Some? &&
              var (body, c) := Entered(env, t, ctx, fuel).value; Strays(env, body, c, fuel - 1))
    decreases fuel, t, 0
  {
    hide EnvClosed, Reduce;
    var vs := EvalAll(env, t.children, ctx, fuel).value;
    if AllGround(vs) {
      ReduceClosed(env, self, t.kind, vs);
      match Reduce(env, t.kind, vs)
      case Done(_) =>
      case Enter(body, c) =>
        EvalGroundIff(env, self, body, c, fuel - 1);
    } else {
      ReduceNonGround(env, t.kind, vs);
    }
  }

  lemma {:induction false} EvalAllGroundIff(env: Env, self: Term, ts: seq<Term>, ctx: Ctx, fuel: nat)
    requires EnvClosed(env, self) && GroundCtx(ctx)
    requires forall i | 0 <= i < |ts| :: BoundIn(ts[i], ctx)
    requires EvalAll(env, ts, ctx, fuel).Some?
    ensures AllGround(EvalAll(env, ts, ctx, fuel).value) <==> forall i | 0 <= i < |ts| :: !Strays(env, ts[i], ctx, fuel)
    decreases fuel, ts, 0
  {
    hide EnvClosed, Strays;
    if ts != [] {
      var vs := EvalAll(env, ts, ctx, fuel).value;
      EvalGroundIff(env, self, ts[0], ctx, fuel);
      EvalAllGroundIff(env, self, ts[1..], ctx, fuel);
      assert AllGround(vs) <==> Ground(vs[0]) && AllGround(vs[1..]);
    }
  }

  /** Runs stay closed: without a malformed if-then-else that is not ground, in the term or in a body,
      every terminating evaluation of a bound term in a ground context gives a ground term. */
  lemma {:induction false} EvalClosed(env: Env, self: Term, t: Term, ctx: Ctx, fuel: nat)
    requires EnvClosed(env, self) && BodiesOk(env, None) && BoundIn(t, ctx) && GroundCtx(ctx) && IteOk(t)
    requires Eval(env, t, ctx, fuel).Some?
    ensures Ground(Eval(env, t, ctx, fuel).value)
  {
    EvalGroundIff(env, self, t, ctx, fuel);
    IteOkStays(env, t, ctx, fuel);
  }

  /** Where no if-then-else chooses a branch, the condition can be read off the term; the term may be
      the only body that is not in order. */
  lemma {:induction false} EvalClosedIff(env: Env, self: Term, t: Term, ctx: Ctx, fuel: nat)
    requires EnvClosed(env, self) && BodiesOk(env, Some(t)) && BoundIn(t, ctx) && GroundCtx(ctx) && NoChoice(t)
    requires Eval(env, t, ctx, fuel).Some?
    ensures Ground(Eval(env, t, ctx, fuel).value) <==> IteOk(t)
  {
    EvalGroundIff(env, self, t, ctx, fuel);
    if IteOk(t) {
      IteOkStays(env, t, ctx, fuel);
    } else {
      NoChoiceStrays(env, t, ctx, fuel);
    }
  }

  /** An accepted program whose body is a malformed if-then-else over its parameter returns a
      term that is not ground. */
  lemma {:induction false} MalformedIteEscapes(self: Term, prim: (LitOp, seq<Term>) -> Option<Term>)
    requires self == Param(0)
    ensures var p, x, a := ProgramConst(0), Param(1), Symbol(0);
            var bad := Node(Op(Ite), [x]);
            var env := Env(map[p := [Case([p, x], bad)]], map[], prim);
            (PrimsGround(prim) ==> EnvClosed(env, self)) && Evaluates(env, Node(Apply, [p, a]), map[], bad) && !Ground(bad)
  {
    var p, x, a := ProgramConst(0), Param(1), Symbol(0);
    var bad := Node(Op(Ite), [x]);
    assert ParamsOf([p, x]) == {x} by {
      assert [p, x][1] == x;
      assert x in Params([p, x][1]);
    }
    assert Params(bad) == {x} by {
      assert bad.children[0] == x;
    }
    SelectOne(p, x, a, bad, prim);
    assert !Ground(bad.children[0]);
  }

  /** Calling a program with the single case `(p x)` on a symbol evaluates its body. */
  lemma {:induction false} SelectOne(p: Term, x: Term, a: Term, body: Term, prim: (LitOp, seq<Term>) -> Option<Term>)
    requires p.ProgramConst? && x.Param? && a.Symbol? && !Ground(body)
    requires body.Node? && body.kind == Op(Ite) && |body.children| == 1
    ensures var env := Env(map[p := [Case([p, x], body)]], map[], prim);
            Evaluates(env, Node(Apply, [p, a]), map[], body)
  {
    var env := Env(map[p := [Case([p, x], body)]], map[], prim);
    var call := Node(Apply, [p, a]);
    var args, ctx := [p, a], map[x := a];
    var c := Case([p, x], body);
    assert c.lhs[1..] == [x] && args[1..] == [a] && [x][1..] == [] && [a][1..] == [];
    assert MatchRec(x, a, map[]) == Some(ctx);
    assert MatchRecAll([x], [a], map[]) == MatchRecAll([x][1..], [a][1..], ctx) == Some(ctx);
    assert FirstMatch([c], args) == Some((body, ctx));
    assert SelectCase(env, args) == Some((body, ctx)) by {
      assert AllGround(args);
      assert args[0] == p && !Evaluatable(args[1]);
    }
    assert Reduce(env, Apply, args) == Enter(body, ctx) by {
      assert x in ctx;
    }
    assert Eval(env, p, map[], 1) == Some(p) && Eval(env, a, map[], 1) == Some(a);
    EvalAllIff(env, args, map[], 1, args);
    assert !Unchanged(call, map[]) by {
      assert Evaluatable(call.children[0]);
    }
    assert Eval(env, body, ctx, 0) == Some(body);
    assert Eval(env, call, map[], 1) == Some(body);
  }
}
