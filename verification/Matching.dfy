/** One-sided matching: the textbook recursion, what it means, and the worklist
    algorithm that the checker runs. */
module Matching {
  import opened Terms

  ghost predicate Extends(s: Ctx, ctx: Ctx) {
    forall p | p in ctx :: p in s && s[p] == ctx[p]
  }

  /** `s` makes the pattern `a` into `b`.  Nothing is an instance of `eo::?`. */
  ghost predicate Matches(a: Term, s: Ctx, b: Term)
    decreases a
  {
    match a
    case Param(_) => a in s && s[a] == b
    case Any => false
    case Node(k, cs) =>
      b.Node? && b.kind == k && |b.children| == |cs| &&
      forall i | 0 <= i < |cs| :: Matches(cs[i], s, b.children[i])
    case _ => a == b
  }

  ghost predicate MatchesAll(ts: seq<Term>, s: Ctx, bs: seq<Term>) {
    |ts| == |bs| && forall i | 0 <= i < |ts| :: Matches(ts[i], s, bs[i])
  }

  /** `Matches` is substitution: the instance of the pattern is `b`. */
  lemma {:induction false} MatchesIsSubst(a: Term, s: Ctx, b: Term)
    ensures Matches(a, s, b) <==> !HasAny(a) && Params(a) <= s.Keys && Subst(a, s) == b
    decreases a
  {
    match a
    case Node(k, cs) =>
      if b.Node? && |b.children| == |cs| {
        forall i | 0 <= i < |cs|
          ensures Matches(cs[i], s, b.children[i]) <==>
                  !HasAny(cs[i]) && Params(cs[i]) <= s.Keys && Subst(cs[i], s) == b.children[i]
        {
          MatchesIsSubst(cs[i], s, b.children[i]);
        }
      }
      if Matches(a, s, b) {
        assert Subst(a, s).children == b.children;
        forall p | p in Params(a) ensures p in s.Keys {
          var i :| 0 <= i < |cs| && p in Params(cs[i]);
        }
      }
      if !HasAny(a) && Params(a) <= s.Keys && Subst(a, s) == b {
        forall i | 0 <= i < |cs| ensures Matches(cs[i], s, b.children[i]) {
          assert Params(cs[i]) <= Params(a);
        }
      }
    case _ =>
  }

  lemma {:induction false} MatchesGround(a: Term, s: Ctx, b: Term)
    requires Ground(a)
    ensures Matches(a, s, b) <==> a == b
  {
    MatchesIsSubst(a, s, b);
    GroundIff(a);
    SubstGround(a, s);
  }

  lemma {:induction false} MatchesExtends(a: Term, s: Ctx, s': Ctx, b: Term)
    requires Matches(a, s, b) && Extends(s', s)
    ensures Matches(a, s', b)
    decreases a
  {
    match a
    case Node(_, cs) =>
      forall i | 0 <= i < |cs| ensures Matches(cs[i], s', b.children[i]) {
        MatchesExtends(cs[i], s, s', b.children[i]);
      }
    case _ =>
  }

  /** A match fixes the value of every parameter of the pattern. */
  lemma {:induction false} MatchesAgree(a: Term, s: Ctx, s': Ctx, b: Term, p: Term)
    requires Matches(a, s, b) && Matches(a, s', b) && p in Params(a)
    ensures p in s && p in s' && s[p] == s'[p]
    decreases a
  {
    match a
    case Node(_, cs) =>
      var i :| 0 <= i < |cs| && p in Params(cs[i]);
      MatchesAgree(cs[i], s, s', b.children[i], p);
    case _ =>
  }

  // ----- the textbook recursion -----

  function MatchRec(a: Term, b: Term, ctx: Ctx): Option<Ctx>
    decreases a, 1
  {
    match a
    case Param(_) =>
      if a !in ctx then Some(ctx[a := b])
      else if ctx[a] == b then Some(ctx) else None
    case Any => None
    case Node(k, cs) =>
      if b.Node? && b.kind == k && |b.children| == |cs| then MatchRecAll(cs, b.children, ctx) else None
    case _ => if a == b then Some(ctx) else None
  }

  /** Left to right, threading the context. */
  function MatchRecAll(ts: seq<Term>, bs: seq<Term>, ctx: Ctx): Option<Ctx>
    requires |ts| == |bs|
    decreases ts, 0
  {
    if ts == [] then Some(ctx)
    else match MatchRec(ts[0], bs[0], ctx)
      case None => None
      case Some(c) => MatchRecAll(ts[1..], bs[1..], c)
  }

  /** The answer of matching `a` against `b` in `ctx`: the least extension of `ctx`
      that makes `a` into `b`, and no answer exactly when there is none. */
  ghost predicate IsLeastMatch(a: Term, b: Term, ctx: Ctx, r: Option<Ctx>) {
    match r
    case Some(c) => Extends(c, ctx) && c.Keys == ctx.Keys + Params(a) && Matches(a, c, b)
    case None => forall s: Ctx | Extends(s, ctx) :: !Matches(a, s, b)
  }

  ghost predicate IsLeastMatchAll(ts: seq<Term>, bs: seq<Term>, ctx: Ctx, r: Option<Ctx>) {
    match r
    case Some(c) => Extends(c, ctx) && c.Keys == ctx.Keys + ParamsOf(ts) && MatchesAll(ts, c, bs)
    case None => forall s: Ctx | Extends(s, ctx) :: !MatchesAll(ts, s, bs)
  }

  /** Only one answer is least. */
  lemma {:induction false} LeastMatchUnique(a: Term, b: Term, ctx: Ctx, r: Option<Ctx>, r': Option<Ctx>)
    requires IsLeastMatch(a, b, ctx, r) && IsLeastMatch(a, b, ctx, r')
    ensures r == r'
  {
    if r.Some? && r'.Some? {
      forall p | p in r.value ensures r.value[p] == r'.value[p] {
        if p !in ctx {
          MatchesAgree(a, r.value, r'.value, b, p);
        }
      }
      assert r.value == r'.value;
    }
  }

  lemma {:induction false} LeastMatchAllUnique(ts: seq<Term>, bs: seq<Term>, ctx: Ctx, c: Ctx, c': Ctx)
    requires IsLeastMatchAll(ts, bs, ctx, Some(c)) && IsLeastMatchAll(ts, bs, ctx, Some(c'))
    ensures c == c'
  {
    forall p | p in c ensures c[p] == c'[p] {
      if p !in ctx {
        var i :| 0 <= i < |ts| && p in Params(ts[i]);
        MatchesAgree(ts[i], c, c', bs[i], p);
      }
    }
    assert c == c';
  }

  /** Matching by recursion is sound, complete and minimal, for every pattern and term. */
  lemma {:induction false} MatchRecIsLeast(a: Term, b: Term, ctx: Ctx)
    ensures IsLeastMatch(a, b, ctx, MatchRec(a, b, ctx))
    decreases a, 1
  {
    match a
    case Node(k, cs) =>
      if b.Node? && b.kind == k && |b.children| == |cs| {
        MatchRecAllIsLeast(cs, b.children, ctx);
        var r := MatchRec(a, b, ctx);
        assert Params(a) == ParamsOf(cs);
        if r.None? {
          forall s: Ctx | Extends(s, ctx) ensures !Matches(a, s, b) {
            assert !MatchesAll(cs, s, b.children);
          }
        }
      }
    case _ =>
  }

  /** Threading one context across the arguments is the same as matching the tuple. */
  lemma {:induction false} MatchRecAllIsLeast(ts: seq<Term>, bs: seq<Term>, ctx: Ctx)
    requires |ts| == |bs|
    ensures IsLeastMatchAll(ts, bs, ctx, MatchRecAll(ts, bs, ctx))
    decreases ts, 0
  {
    if ts != [] {
      MatchRecIsLeast(ts[0], bs[0], ctx);
      match MatchRec(ts[0], bs[0], ctx) {
        case None =>
        case Some(c) =>
          MatchRecAllIsLeast(ts[1..], bs[1..], c);
          match MatchRecAll(ts[1..], bs[1..], c) {
            case Some(d) => MatchAllCons(ts, bs, ctx, c, d);
            case None => MatchAllFail(ts, bs, ctx, c);
          }
      }
    }
  }

  lemma {:induction false} MatchAllCons(ts: seq<Term>, bs: seq<Term>, ctx: Ctx, c: Ctx, d: Ctx)
    requires |ts| == |bs| && ts != []
    requires IsLeastMatch(ts[0], bs[0], ctx, Some(c))
    requires IsLeastMatchAll(ts[1..], bs[1..], c, Some(d))
    ensures IsLeastMatchAll(ts, bs, ctx, Some(d))
  {
    MatchesExtends(ts[0], c, d, bs[0]);
    forall i | 0 <= i < |ts| ensures Matches(ts[i], d, bs[i]) {
      if i > 0 {
        assert ts[i] == ts[1..][i - 1] && bs[i] == bs[1..][i - 1];
      }
    }
    ParamsOfSplit(ts);
  }

  lemma {:induction false} ParamsOfSplit(ts: seq<Term>)
    requires ts != []
    ensures ParamsOf(ts) == Params(ts[0]) + ParamsOf(ts[1..])
  {
    forall p | p in ParamsOf(ts) ensures p in Params(ts[0]) + ParamsOf(ts[1..]) {
      var i :| 0 <= i < |ts| && p in Params(ts[i]);
      if i > 0 {
        assert ts[i] == ts[1..][i - 1];
      }
    }
    forall p | p in ParamsOf(ts[1..]) ensures p in ParamsOf(ts) {
      var i :| 0 <= i < |ts| - 1 && p in Params(ts[1..][i]);
      assert ts[1..][i] == ts[i + 1];
    }
  }

  lemma {:induction false} MatchAllFail(ts: seq<Term>, bs: seq<Term>, ctx: Ctx, c: Ctx)
    requires |ts| == |bs| && ts != []
    requires IsLeastMatch(ts[0], bs[0], ctx, Some(c))
    requires IsLeastMatchAll(ts[1..], bs[1..], c, None)
    ensures IsLeastMatchAll(ts, bs, ctx, None)
  {
    forall s: Ctx | Extends(s, ctx) ensures !MatchesAll(ts, s, bs) {
      if MatchesAll(ts, s, bs) {
        forall p | p in c ensures p in s && s[p] == c[p] {
          if p !in ctx {
            MatchesAgree(ts[0], s, c, bs[0], p);
          }
        }
        assert Extends(s, c);
        assert MatchesAll(ts[1..], s, bs[1..]);
      }
    }
  }

  // ----- the worklist algorithm -----

  type Pair = (Term, Term)

  /** Every pair of the worklist is matched by `s`. */
  ghost predicate AllMatch(s: Ctx, ps: seq<Pair>) {
    forall i | 0 <= i < |ps| :: Matches(ps[i].0, s, ps[i].1)
  }

  /** A visited pair is settled once its own test passed and each pair of children
      is visited, waiting, or ground and equal. */
  ghost predicate Settled(p: Pair, ctx: Ctx, visited: set<Pair>, stack: seq<Pair>) {
    match p.0
    case Param(_) => p.0 in ctx && ctx[p.0] == p.1
    case Node(k, cs) =>
      p.1.Node? && p.1.kind == k && |p.1.children| == |cs| &&
      forall i | 0 <= i < |cs| ::
        var q := (cs[i], p.1.children[i]);
        q in visited || q in stack || (Ground(q.0) && q.0 == q.1)
    case _ => false
  }

  /** What the children of a pair push on the worklist. */
  function ChildPairs(p: Pair): seq<Pair>
    requires p.0.Node? && p.1.Node? && |p.0.children| == |p.1.children|
  {
    seq(|p.0.children|, i requires 0 <= i < |p.0.children| => (p.0.children[i], p.1.children[i]))
  }

  ghost function PairSizes(ps: seq<Pair>): nat {
    Sizes(Firsts(ps))
  }

  ghost function Firsts(ps: seq<Pair>): seq<Term> {
    seq(|ps|, i requires 0 <= i < |ps| => ps[i].0)
  }

  /** Once the worklist is empty, every visited pair matches. */
  lemma {:induction false} SettledMatches(p: Pair, ctx: Ctx, visited: set<Pair>)
    requires p in visited
    requires forall q | q in visited :: Matches(q.0, ctx, q.1) || Settled(q, ctx, visited, [])
    ensures Matches(p.0, ctx, p.1)
    decreases p.0
  {
    if !Matches(p.0, ctx, p.1) {
      match p.0
      case Node(k, cs) =>
        forall i | 0 <= i < |cs| ensures Matches(cs[i], ctx, p.1.children[i]) {
          var q := (cs[i], p.1.children[i]);
          if q in visited {
            SettledMatches(q, ctx, visited);
          } else {
            MatchesGround(q.0, ctx, q.1);
          }
        }
      case _ =>
    }
  }

  lemma {:induction false} PairSizesPush(rest: seq<Pair>, p: Pair, pushed: seq<Pair>)
    requires p.0.Node? && p.1.Node? && |p.0.children| == |p.1.children|
    requires pushed == ChildPairs(p)
    ensures PairSizes(rest + pushed) < PairSizes(rest + [p])
  {
    assert Firsts(rest + pushed) == Firsts(rest) + p.0.children;
    SizesAppend(Firsts(rest), p.0.children);
    PairSizesPop(rest, p);
  }

  lemma {:induction false} PairSizesPop(rest: seq<Pair>, p: Pair)
    ensures PairSizes(rest + [p]) == PairSizes(rest) + Size(p.0)
  {
    assert Firsts(rest + [p]) == Firsts(rest) + [p.0];
    SizesAppend(Firsts(rest), [p.0]);
    assert Sizes([p.0]) == Size(p.0);
  }

  /** The invariant of the loop of `MatchPairs`. */
  ghost predicate WorkInv(a: Term, b: Term, ctx0: Ctx, ctx: Ctx, visited: set<Pair>, stack: seq<Pair>) {
    && Extends(ctx, ctx0)
    && ctx.Keys <= ctx0.Keys + Params(a)
    && (forall i | 0 <= i < |stack| :: Params(stack[i].0) <= Params(a))
    && ((a, b) in visited || (a, b) in stack || (Ground(a) && a == b))
    && (forall q | q in visited :: Matches(q.0, ctx, q.1) || Settled(q, ctx, visited, stack))
    && (forall s: Ctx | Extends(s, ctx0) && Matches(a, s, b) :: Extends(s, ctx) && AllMatch(s, stack))
  }

  /** Dropping a pair that is ground and equal, or already visited, keeps the invariant. */
  lemma {:induction false} WorkSkip(a: Term, b: Term, ctx0: Ctx, ctx: Ctx, visited: set<Pair>,
                                    rest: seq<Pair>, p: Pair)
    requires WorkInv(a, b, ctx0, ctx, visited, rest + [p])
    requires p in visited || (Ground(p.0) && p.0 == p.1)
    ensures WorkInv(a, b, ctx0, ctx, visited, rest)
  {
    var stack := rest + [p];
    forall i | 0 <= i < |rest| ensures Params(rest[i].0) <= Params(a) {
      assert rest[i] == stack[i];
    }
    forall q | q in visited ensures Matches(q.0, ctx, q.1) || Settled(q, ctx, visited, rest) {
    }
    forall s: Ctx | Extends(s, ctx0) && Matches(a, s, b) ensures Extends(s, ctx) && AllMatch(s, rest) {
      forall i | 0 <= i < |rest| ensures Matches(rest[i].0, s, rest[i].1) {
        assert rest[i] == stack[i];
      }
    }
  }

  /** The pair on top of the worklist matches in every solution. */
  lemma {:induction false} WorkTop(a: Term, b: Term, ctx0: Ctx, ctx: Ctx, visited: set<Pair>,
                                   rest: seq<Pair>, p: Pair)
    requires WorkInv(a, b, ctx0, ctx, visited, rest + [p])
    ensures forall s: Ctx | Extends(s, ctx0) && Matches(a, s, b) :: Extends(s, ctx) && Matches(p.0, s, p.1)
  {
    forall s: Ctx | Extends(s, ctx0) && Matches(a, s, b) ensures Extends(s, ctx) && Matches(p.0, s, p.1) {
      assert (rest + [p])[|rest|] == p;
    }
  }

  lemma {:induction false} WorkParam(a: Term, b: Term, ctx0: Ctx, ctx: Ctx, visited: set<Pair>,
                                     rest: seq<Pair>, p: Pair, ctx': Ctx)
    requires WorkInv(a, b, ctx0, ctx, visited, rest + [p])
    requires p.0.Param?
    requires if p.0 in ctx then ctx[p.0] == p.1 && ctx' == ctx else ctx' == ctx[p.0 := p.1]
    ensures WorkInv(a, b, ctx0, ctx', visited + {p}, rest)
  {
    hide Settled;
    var stack := rest + [p];
    assert stack[|rest|] == p;
    WorkTop(a, b, ctx0, ctx, visited, rest, p);
    assert forall i | 0 <= i < |rest| :: rest[i] == stack[i];
    forall q | q in visited + {p}
      ensures Matches(q.0, ctx', q.1) || Settled(q, ctx', visited + {p}, rest)
    {
      ParamSettles(q, ctx, ctx', visited, rest, p);
    }
  }

  lemma {:induction false} ParamSettles(q: Pair, ctx: Ctx, ctx': Ctx, visited: set<Pair>, rest: seq<Pair>, p: Pair)
    requires q == p || Matches(q.0, ctx, q.1) || Settled(q, ctx, visited, rest + [p])
    requires p.0.Param? && Extends(ctx', ctx) && p.0 in ctx' && ctx'[p.0] == p.1
    ensures Matches(q.0, ctx', q.1) || Settled(q, ctx', visited + {p}, rest)
  {
    if q != p && Matches(q.0, ctx, q.1) {
      MatchesExtends(q.0, ctx, ctx', q.1);
    }
  }

  lemma {:induction false} WorkNode(a: Term, b: Term, ctx0: Ctx, ctx: Ctx, visited: set<Pair>,
                                    rest: seq<Pair>, p: Pair, pushed: seq<Pair>)
    requires WorkInv(a, b, ctx0, ctx, visited, rest + [p])
    requires p.0.Node? && p.1.Node? && p.0.kind == p.1.kind && |p.0.children| == |p.1.children|
    requires pushed == ChildPairs(p)
    ensures WorkInv(a, b, ctx0, ctx, visited + {p}, rest + pushed)
  {
    var stack, stack' := rest + [p], rest + pushed;
    assert stack[|rest|] == p;
    WorkTop(a, b, ctx0, ctx, visited, rest, p);
    assert forall i | 0 <= i < |rest| :: rest[i] == stack[i] == stack'[i];
    forall i | 0 <= i < |stack'| ensures Params(stack'[i].0) <= Params(a) {
      if i >= |rest| {
        assert stack'[i] == pushed[i - |rest|];
        assert Params(stack'[i].0) <= Params(p.0);
      }
    }
    assert forall i | 0 <= i < |pushed| :: stack'[|rest| + i] == pushed[i];
    forall q | q in visited + {p}
      ensures Matches(q.0, ctx, q.1) || Settled(q, ctx, visited + {p}, stack')
    {
      if q == p {
        forall i | 0 <= i < |p.0.children| ensures (p.0.children[i], p.1.children[i]) in stack' {
          assert pushed[i] in stack';
        }
      } else {
        assert forall r | r in stack :: r == p || r in rest;
        assert forall r | r in rest :: r in stack';
      }
    }
    forall s: Ctx | Extends(s, ctx0) && Matches(a, s, b) ensures Extends(s, ctx) && AllMatch(s, stack') {
      assert AllMatch(s, stack);
      forall i | 0 <= i < |stack'| ensures Matches(stack'[i].0, s, stack'[i].1) {
        if i >= |rest| {
          assert stack'[i] == pushed[i - |rest|];
        }
      }
    }
  }

  /** The worklist matcher with its cache of visited pairs, as the type checker threads
      it through the arguments of an application: it returns the least match, and on
      success a cache that is again true of the returned context. */
  method MatchPairs(a: Term, b: Term, ctx0: Ctx, visited0: set<Pair>)
      returns (ok: bool, ctx: Ctx, visited: set<Pair>)
    requires forall q | q in visited0 :: Matches(q.0, ctx0, q.1)
    ensures IsLeastMatch(a, b, ctx0, if ok then Some(ctx) else None)
    ensures ok ==> forall q | q in visited :: Matches(q.0, ctx, q.1)
  {
    ok, ctx, visited := true, ctx0, visited0;
    var stack: seq<Pair> := [(a, b)];
    while stack != []
      invariant ok && WorkInv(a, b, ctx0, ctx, visited, stack)
      decreases PairSizes(stack)
    {
      var curr := stack[|stack| - 1];
      ghost var before := stack;
      stack := stack[..|stack| - 1];
      assert before == stack + [curr];
      WorkTop(a, b, ctx0, ctx, visited, stack, curr);
      PairSizesPop(stack, curr);
      if Ground(curr.0) {
        if curr.0 == curr.1 {
          WorkSkip(a, b, ctx0, ctx, visited, stack, curr);
          continue;
        }
        forall s: Ctx ensures Matches(curr.0, s, curr.1) <==> curr.0 == curr.1 {
          MatchesGround(curr.0, s, curr.1);
        }
        return false, ctx, visited;
      }
      if curr in visited {
        WorkSkip(a, b, ctx0, ctx, visited, stack, curr);
        continue;
      }
      if !curr.0.Node? {
        if curr.0.Param? {
          if curr.0 !in ctx {
            WorkParam(a, b, ctx0, ctx, visited, stack, curr, ctx[curr.0 := curr.1]);
            ctx := ctx[curr.0 := curr.1];
          } else if ctx[curr.0] != curr.1 {
            return false, ctx, visited + {curr};
          } else {
            WorkParam(a, b, ctx0, ctx, visited, stack, curr, ctx);
          }
          visited := visited + {curr};
        } else {
          return false, ctx, visited + {curr};
        }
      } else if !curr.1.Node? || |curr.0.children| != |curr.1.children| || curr.0.kind != curr.1.kind {
        return false, ctx, visited + {curr};
      } else {
        var pushed := ChildPairs(curr);
        WorkNode(a, b, ctx0, ctx, visited, stack, curr, pushed);
        PairSizesPush(stack, curr, pushed);
        visited := visited + {curr};
        stack := stack + pushed;
      }
    }
    forall q | q in visited ensures Matches(q.0, ctx, q.1) {
      SettledMatches(q, ctx, visited);
    }
    if (a, b) !in visited {
      MatchesGround(a, ctx, b);
    }
    MatchesIsSubst(a, ctx, b);
  }

  /** The matcher with an empty cache agrees with the textbook recursion. */
  method Match(a: Term, b: Term, ctx0: Ctx) returns (ok: bool, ctx: Ctx)
    ensures MatchRec(a, b, ctx0) == if ok then Some(ctx) else None
  {
    var visited;
    ok, ctx, visited := MatchPairs(a, b, ctx0, {});
    MatchRecIsLeast(a, b, ctx0);
    LeastMatchUnique(a, b, ctx0, MatchRec(a, b, ctx0), if ok then Some(ctx) else None);
  }

  // ----- the arguments of an application -----

  predicate IsQuote(hdt: Term) {
    hdt.Node? && hdt.kind == QuoteType && |hdt.children| == 1
  }

  predicate IsFunctionType(t: Term) {
    t.Node? && (t.kind == FunctionType || t.kind == ProgramType)
  }

  /** A quoted argument type is matched against the argument, any other one against its type. */
  function Pattern(hdt: Term): Term {
    if IsQuote(hdt) then hdt.children[0] else hdt
  }

  function Subject(hdt: Term, child: Term, typeOf: Term -> Term): Term {
    if IsQuote(hdt) then child else typeOf(child)
  }

  predicate TypesAgree(hdt: Term, child: Term, typeOf: Term -> Term) {
    IsQuote(hdt) ==> typeOf(child) == typeOf(hdt.children[0])
  }

  function Patterns(hdtypes: seq<Term>): seq<Term> {
    seq(|hdtypes|, i requires 0 <= i < |hdtypes| => Pattern(hdtypes[i]))
  }

  function Subjects(hdtypes: seq<Term>, args: seq<Term>, typeOf: Term -> Term): seq<Term>
    requires |hdtypes| == |args|
  {
    seq(|args|, i requires 0 <= i < |args| => Subject(hdtypes[i], args[i], typeOf))
  }

  /** The least match of one pair, and then the rest. */
  lemma {:induction false} MatchRecAllNext(ts: seq<Term>, bs: seq<Term>, i: nat, ctx: Ctx, r: Option<Ctx>)
    requires i < |ts| == |bs| && IsLeastMatch(ts[i], bs[i], ctx, r)
    ensures MatchRecAll(ts[i..], bs[i..], ctx) ==
            match r
            case Some(c) => MatchRecAll(ts[i + 1..], bs[i + 1..], c)
            case None => None
  {
    hide IsLeastMatch, MatchRec;
    MatchRecIsLeast(ts[i], bs[i], ctx);
    LeastMatchUnique(ts[i], bs[i], ctx, MatchRec(ts[i], bs[i], ctx), r);
    assert ts[i..][1..] == ts[i + 1..] && bs[i..][1..] == bs[i + 1..];
  }

  lemma {:induction false} MatchRecAllNone(ts: seq<Term>, bs: seq<Term>, ctx: Ctx)
    requires ts == [] && bs == []
    ensures MatchRecAll(ts, bs, ctx) == Some(ctx)
  {
  }

  /** Argument `i` fits its type: the quoted term matches an argument of its own type, any other type
      matches the type of the argument. */
  ghost predicate Fits(hdts: seq<Term>, children: seq<Term>, typeOf: Term -> Term, i: nat, s: Ctx)
    requires |hdts| == |children| && 1 <= i < |children|
  {
    var (hdt, child) := (hdts[i - 1], children[i]);
    TypesAgree(hdt, child, typeOf) && Matches(Pattern(hdt), s, Subject(hdt, child, typeOf))
  }

  ghost predicate AllFit(hdts: seq<Term>, children: seq<Term>, typeOf: Term -> Term, s: Ctx)
    requires |hdts| == |children|
  {
    forall i: nat | 1 <= i < |children| :: Fits(hdts, children, typeOf, i, s)
  }

  /** Fitting is matching the tuple of the quoted terms and types. */
  lemma {:induction false} FitsIsTuple(hdts: seq<Term>, children: seq<Term>, typeOf: Term -> Term, s: Ctx)
    requires |hdts| == |children| > 0
    ensures var hdtypes, args := hdts[..|children| - 1], children[1..];
            AllFit(hdts, children, typeOf, s) <==>
            MatchesAll(Patterns(hdtypes), s, Subjects(hdtypes, args, typeOf)) &&
            forall j | 0 <= j < |args| :: TypesAgree(hdtypes[j], args[j], typeOf)
  {
    hide Matches;
    var hdtypes, args := hdts[..|children| - 1], children[1..];
    var ts, bs := Patterns(hdtypes), Subjects(hdtypes, args, typeOf);
    forall j | 0 <= j < |args|
      ensures AllFit(hdts, children, typeOf, s) ==> TypesAgree(hdtypes[j], args[j], typeOf) && Matches(ts[j], s, bs[j])
    {
      var i: nat := j + 1;
      assert AllFit(hdts, children, typeOf, s) ==> Fits(hdts, children, typeOf, i, s);
      assert hdtypes[j] == hdts[i - 1] && args[j] == children[i];
    }
    if MatchesAll(ts, s, bs) && forall j | 0 <= j < |args| :: TypesAgree(hdtypes[j], args[j], typeOf) {
      forall i: nat | 1 <= i < |children| ensures Fits(hdts, children, typeOf, i, s) {
        var j := i - 1;
        assert hdtypes[j] == hdts[i - 1] && args[j] == children[i];
        assert TypesAgree(hdtypes[j], args[j], typeOf) && Matches(ts[j], s, bs[j]);
      }
    }
  }

  lemma {:induction false} AllFitIs(hdts: seq<Term>, children: seq<Term>, typeOf: Term -> Term, s: Ctx)
    requires |hdts| == |children|
    ensures AllFit(hdts, children, typeOf, s) <==>
            forall i: nat | 1 <= i < |children| ::
              var (hdt, child) := (hdts[i - 1], children[i]);
              if hdt.Node? && hdt.kind == QuoteType && |hdt.children| == 1 then
                typeOf(child) == typeOf(hdt.children[0]) && Matches(hdt.children[0], s, child)
              else Matches(hdt, s, typeOf(child))
  {
    hide Matches;
    if AllFit(hdts, children, typeOf, s) {
      forall i: nat | 1 <= i < |children|
        ensures var (hdt, child) := (hdts[i - 1], children[i]);
                if hdt.Node? && hdt.kind == QuoteType && |hdt.children| == 1 then
                  typeOf(child) == typeOf(hdt.children[0]) && Matches(hdt.children[0], s, child)
                else Matches(hdt, s, typeOf(child))
      {
        assert Fits(hdts, children, typeOf, i, s);
      }
    }
  }

  lemma {:induction false} LeastExtends(ts: seq<Term>, bs: seq<Term>, ctx0: Ctx, c: Ctx, s: Ctx)
    requires IsLeastMatchAll(ts, bs, ctx0, Some(c)) && Extends(s, ctx0) && MatchesAll(ts, s, bs)
    ensures Extends(s, c)
  {
    forall p | p in c ensures p in s && s[p] == c[p] {
      if p !in ctx0 {
        var i :| 0 <= i < |ts| && p in Params(ts[i]);
        MatchesAgree(ts[i], c, s, bs[i], p);
      }
    }
  }

  /** The loop over the arguments of an application, with one context and one cache of visited
      pairs for all of them. */
  method MatchArguments(hdts: seq<Term>, children: seq<Term>, typeOf: Term -> Term, ctx0: Ctx) returns (ok: bool, ctx: Ctx)
    requires |hdts| == |children| > 0
    ensures ok ==> Extends(ctx, ctx0) && AllFit(hdts, children, typeOf, ctx)
    ensures forall s: Ctx | Extends(s, ctx0) && AllFit(hdts, children, typeOf, s) :: ok && Extends(s, ctx)
  {
    hide IsLeastMatchAll, IsLeastMatch, Matches, MatchRecAll, AllFit;
    ok, ctx := false, ctx0;
    var visited: set<Pair> := {};
    ghost var hdtypes, args := hdts[..|children| - 1], children[1..];
    ghost var ts, bs := Patterns(hdtypes), Subjects(hdtypes, args, typeOf);
    forall s: Ctx
      ensures AllFit(hdts, children, typeOf, s) <==>
              MatchesAll(ts, s, bs) && forall j | 0 <= j < |args| :: TypesAgree(hdtypes[j], args[j], typeOf)
    {
      FitsIsTuple(hdts, children, typeOf, s);
    }
    var i := 1;
    while i < |children|
      invariant 1 <= i <= |children|
      invariant forall q | q in visited :: Matches(q.0, ctx, q.1)
      invariant forall j | 0 <= j < i - 1 :: TypesAgree(hdtypes[j], args[j], typeOf)
      invariant MatchRecAll(ts, bs, ctx0) == MatchRecAll(ts[i - 1..], bs[i - 1..], ctx)
    {
      var hdt, child := hdts[i - 1], children[i];
      assert hdt == hdtypes[i - 1] && child == args[i - 1];
      if IsQuote(hdt) {
        if typeOf(child) != typeOf(hdt.children[0]) {
          return;
        }
        hdt := hdt.children[0];
      } else {
        child := typeOf(child);
      }
      assert hdt == ts[i - 1] && child == bs[i - 1];
      ghost var before := ctx;
      var matched;
      matched, ctx, visited := MatchPairs(hdt, child, ctx, visited);
      MatchRecAllNext(ts, bs, i - 1, before, if matched then Some(ctx) else None);
      if !matched {
        TupleMatched(ts, bs, ctx0, None);
        return;
      }
      i := i + 1;
    }
    ok := true;
    MatchRecAllNone(ts[|ts|..], bs[|ts|..], ctx);
    TupleMatched(ts, bs, ctx0, Some(ctx));
  }

  lemma {:induction false} TupleMatched(ts: seq<Term>, bs: seq<Term>, ctx0: Ctx, r: Option<Ctx>)
    requires |ts| == |bs| && MatchRecAll(ts, bs, ctx0) == r
    ensures r.Some? ==> Extends(r.value, ctx0) && MatchesAll(ts, r.value, bs)
    ensures forall s: Ctx | Extends(s, ctx0) && MatchesAll(ts, s, bs) :: r.Some? && Extends(s, r.value)
  {
    hide MatchesAll;
    MatchRecAllIsLeast(ts, bs, ctx0);
    forall s: Ctx | Extends(s, ctx0) && MatchesAll(ts, s, bs) ensures r.Some? && Extends(s, r.value) {
      if r.Some? {
        LeastExtends(ts, bs, ctx0, r.value, s);
      }
    }
  }

  /** The application of a function or program to its arguments is well typed exactly if some context
      makes every quoted argument type into an argument of the same type, and every other argument
      type into the type of the argument; then the least such context is returned.  The last child
      of the type of the head is the type of the result. */
  method MatchApp(children: seq<Term>, typeOf: Term -> Term, ctx0: Ctx) returns (ok: bool, ctx: Ctx)
    requires children != []
    ensures var hdType := typeOf(children[0]);
            ok ==>
              hdType.Node? && (hdType.kind == FunctionType || hdType.kind == ProgramType) &&
              |hdType.children| == |children| && Extends(ctx, ctx0) &&
              forall i: nat | 1 <= i < |children| ::
                var (hdt, child) := (hdType.children[i - 1], children[i]);
                if hdt.Node? && hdt.kind == QuoteType && |hdt.children| == 1 then
                  typeOf(child) == typeOf(hdt.children[0]) && Matches(hdt.children[0], ctx, child)
                else Matches(hdt, ctx, typeOf(child))
    ensures var hdType := typeOf(children[0]);
            hdType.Node? && (hdType.kind == FunctionType || hdType.kind == ProgramType) &&
            |hdType.children| == |children| ==>
              forall s: Ctx | Extends(s, ctx0) &&
                (forall i: nat | 1 <= i < |children| ::
                   var (hdt, child) := (hdType.children[i - 1], children[i]);
                   if hdt.Node? && hdt.kind == QuoteType && |hdt.children| == 1 then
                     typeOf(child) == typeOf(hdt.children[0]) && Matches(hdt.children[0], s, child)
                   else Matches(hdt, s, typeOf(child))) ::
                ok && Extends(s, ctx)
  {
    hide Matches, AllFit;
    var hdType := typeOf(children[0]);
    if !IsFunctionType(hdType) || |hdType.children| != |children| {
      return false, ctx0;
    }
    ok, ctx := MatchArguments(hdType.children, children, typeOf, ctx0);
    AllFitIs(hdType.children, children, typeOf, ctx);
    forall s: Ctx {
      AllFitIs(hdType.children, children, typeOf, s);
    }
  }
}
