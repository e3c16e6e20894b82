/** What evaluation gives, operator by operator, on the values of the children. */
module EvaluationLaws {
  import opened Terms
  import opened Matching
  import opened ListSpecs
  import opened Evaluation
  import opened EvaluationRules

  // ----- the selected case -----

  /** Case `i` matches the arguments with the context `ctx`; the cases before it have the right number
      of arguments and match in no context. */
  ghost predicate FirstCase(cases: seq<Case>, args: seq<Term>, i: nat, ctx: Ctx)
    requires args != []
  {
    && NoCaseBefore(cases, args, i) && i < |cases| && |cases[i].lhs| == |args|
    && IsLeastMatchAll(cases[i].lhs[1..], args[1..], map[], Some(ctx))
  }

  ghost predicate NoCaseBefore(cases: seq<Case>, args: seq<Term>, i: nat)
    requires args != []
  {
    i <= |cases| && forall j | 0 <= j < i :: |cases[j].lhs| == |args| && NoMatch(cases[j], args)
  }

  /** The search for a case ends at `i` without one: there is no case `i`, or it has another number
      of arguments. */
  ghost predicate NoCase(cases: seq<Case>, args: seq<Term>, i: nat)
    requires args != []
  {
    NoCaseBefore(cases, args, i) && (i < |cases| ==> |cases[i].lhs| != |args|)
  }

  ghost predicate NoMatch(c: Case, args: seq<Term>)
    requires args != []
  {
    c.lhs != [] ==> forall s: Ctx :: !MatchesAll(c.lhs[1..], s, args[1..])
  }

  /** The arguments are ground, no evaluation is pending in those after the first, and that one is a
      defined program. */
  ghost predicate Selectable(env: Env, args: seq<Term>) {
    args != [] && args[0] in env.progs && Ground(args[0]) && forall j | 1 <= j < |args| :: Value(args[j])
  }

  lemma {:induction false} FirstMatchIff(cases: seq<Case>, args: seq<Term>, body: Term, ctx: Ctx)
    requires args != []
    ensures FirstMatch(cases, args) == Some((body, ctx)) <==>
            exists i: nat :: FirstCase(cases, args, i, ctx) && cases[i].rhs == body
    ensures FirstMatch(cases, args).None? <==>
            exists i: nat :: NoCase(cases, args, i)
  {
    hide IsLeastMatchAll, NoMatch;
    if cases == [] {
      assert NoCase(cases, args, 0);
    } else if |cases[0].lhs| != |args| {
      assert NoCase(cases, args, 0);
    } else {
      var ts, bs := cases[0].lhs[1..], args[1..];
      FirstCaseMatch(cases[0], args);
      match MatchRecAll(ts, bs, map[])
      case Some(c) =>
        assert FirstCase(cases, args, 0, c);
        if exists i: nat :: FirstCase(cases, args, i, ctx) {
          LeastMatchAllUnique(ts, bs, map[], c, ctx);
        }
      case None =>
        FirstMatchIff(cases[1..], args, body, ctx);
        LaterCase(cases, args, ctx);
        hide NoCaseBefore, FirstCase;
        if exists i: nat :: NoCase(cases, args, i) {
          var i: nat :| NoCase(cases, args, i);
          assert NoCase(cases[1..], args, i - 1);
        }
        if exists i: nat :: NoCase(cases[1..], args, i) {
          var i: nat :| NoCase(cases[1..], args, i);
          assert NoCase(cases, args, i + 1);
        }
        forall i: nat | FirstCase(cases, args, i, ctx) ensures i > 0 {
        }
    }
  }

  lemma {:induction false} FirstCaseMatch(c: Case, args: seq<Term>)
    requires |c.lhs| == |args| > 0
    ensures var r := MatchRecAll(c.lhs[1..], args[1..], map[]);
            IsLeastMatchAll(c.lhs[1..], args[1..], map[], r) && (r.None? <==> NoMatch(c, args))
  {
    MatchRecAllIsLeast(c.lhs[1..], args[1..], map[]);
    assert forall s: Ctx :: Extends(s, map[]);
  }

  lemma {:induction false} LaterCase(cases: seq<Case>, args: seq<Term>, ctx: Ctx)
    requires args != [] && cases != [] && |cases[0].lhs| == |args| && NoMatch(cases[0], args)
    ensures forall i: nat :: NoCaseBefore(cases, args, i + 1) <==> NoCaseBefore(cases[1..], args, i)
    ensures forall i: nat :: FirstCase(cases, args, i + 1, ctx) <==> FirstCase(cases[1..], args, i, ctx)
    ensures !FirstCase(cases, args, 0, ctx) && forall i: nat :: FirstCase(cases, args, i, ctx) ==> i < |cases|
  {
    hide NoMatch;
    forall i: nat ensures NoCaseBefore(cases, args, i + 1) <==> NoCaseBefore(cases[1..], args, i) {
      if NoCaseBefore(cases[1..], args, i) {
        forall j | 0 <= j < i + 1 ensures |cases[j].lhs| == |args| && NoMatch(cases[j], args) {
          assert j > 0 ==> cases[j] == cases[1..][j - 1];
        }
      }
      if NoCaseBefore(cases, args, i + 1) {
        forall j | 0 <= j < i ensures |cases[1..][j].lhs| == |args| && NoMatch(cases[1..][j], args) {
          assert cases[j + 1] == cases[1..][j];
        }
      }
    }
    if FirstCase(cases, args, 0, ctx) {
      FirstCaseMatch(cases[0], args);
    }
  }

  /** A case is selected exactly if it is the first one that matches. */
  lemma {:induction false} SelectCaseIff(env: Env, args: seq<Term>, body: Term, ctx: Ctx)
    ensures SelectCase(env, args) == Some((body, ctx)) <==>
            Selectable(env, args) &&
            exists i: nat :: FirstCase(env.progs[args[0]], args, i, ctx) && env.progs[args[0]][i].rhs == body
    ensures SelectCase(env, args).None? <==>
            !Selectable(env, args) || exists i: nat :: NoCase(env.progs[args[0]], args, i)
  {
    hide FirstMatch, FirstCase, NoCase;
    if Selectable(env, args) {
      FirstMatchIff(env.progs[args[0]], args, body, ctx);
    }
  }

  // ----- program calls -----

  lemma {:induction false} UnchangedChild(t: Term, ctx: Ctx, i: nat, env: Env, v: Term)
    requires t.Node? && i < |t.children| && Unchanged(t, ctx) && Evaluates(env, t.children[i], ctx, v)
    ensures v == t.children[i] && !Evaluatable(v)
  {
    assert Unchanged(t.children[i], ctx);
    EvLeaf(env, t.children[i], ctx);
    EvaluatesUnique(env, t.children[i], ctx, v, t.children[i]);
  }

  /** A node other than an if-then-else has exactly the value that its evaluated children reduce to. */
  lemma {:induction false} EvNodeIff(env: Env, t: Term, ctx: Ctx, vs: seq<Term>, v: Term)
    requires t.Node? && t.kind != Op(Ite) && EvaluatesAll(env, t.children, ctx, vs) && !Unchanged(t, ctx)
    ensures Evaluates(env, t, ctx, v) <==> OutcomeEvaluates(env, Reduce(env, t.kind, vs), v)
  {
    hide Reduce, Unchanged;
    if OutcomeEvaluates(env, Reduce(env, t.kind, vs), v) {
      EvNode(env, t, ctx, vs, v);
    }
    if Evaluates(env, t, ctx, v) {
      var fuel: nat :| Eval(env, t, ctx, fuel) == Some(v);
      var n := CommonFuel(env, t.children, ctx, vs);
      EvalAllMono(env, t.children, ctx, fuel, fuel + n);
      EvalAllMono(env, t.children, ctx, n, fuel + n);
      match Reduce(env, t.kind, vs)
      case Done(_) =>
      case Enter(body, c) => assert Eval(env, body, c, fuel - 1) == Some(v);
    }
  }

  /** A call whose first matching case is `i` has the value of the body of that case in the matched
      context; a ground body, or one matched without bindings, is the value itself. */
  lemma {:induction false} EvCall(env: Env, k: Kind, cs: seq<Term>, ctx: Ctx, vs: seq<Term>, i: nat, c: Ctx, v: Term)
    requires (k.Apply? || k.ApplyOpaque?) && EvaluatesAll(env, cs, ctx, vs) && vs != [] && vs[0].ProgramConst?
    requires Selectable(env, vs) && FirstCase(env.progs[vs[0]], vs, i, c)
    ensures var body := env.progs[vs[0]][i].rhs;
            Evaluates(env, Node(k, cs), ctx, v) <==>
            if Ground(body) || c == map[] then v == body else Evaluates(env, body, c, v)
  {
    var t, body := Node(k, cs), env.progs[vs[0]][i].rhs;
    hide FirstCase, SelectCase, Selectable;
    if Unchanged(t, ctx) {
      UnchangedChild(t, ctx, 0, env, vs[0]);
      assert false;
    }
    SelectCaseIff(env, vs, body, c);
    EvNodeIff(env, t, ctx, vs, v);
  }

  /** A call that finds no case stays, with its children evaluated. */
  lemma {:induction false} EvCallStuck(env: Env, k: Kind, cs: seq<Term>, ctx: Ctx, vs: seq<Term>, v: Term)
    requires (k.Apply? || k.ApplyOpaque?) && EvaluatesAll(env, cs, ctx, vs) && vs != [] && vs[0].ProgramConst?
    requires Selectable(env, vs) ==> exists i: nat :: NoCase(env.progs[vs[0]], vs, i)
    ensures Evaluates(env, Node(k, cs), ctx, v) <==> v == Node(k, vs)
  {
    hide NoCase, SelectCase, Selectable;
    var t := Node(k, cs);
    if Unchanged(t, ctx) {
      UnchangedChild(t, ctx, 0, env, vs[0]);
      assert false;
    }
    SelectCaseIff(env, vs, v, map[]);
    EvNodeIff(env, t, ctx, vs, v);
  }

  /** Anything else that is no literal operator is rebuilt over its evaluated children. */
  lemma {:induction false} EvRebuilt(env: Env, k: Kind, cs: seq<Term>, ctx: Ctx, vs: seq<Term>, v: Term)
    requires !k.Op? && EvaluatesAll(env, cs, ctx, vs)
    requires (k.Apply? || k.ApplyOpaque?) && vs != [] ==> !vs[0].ProgramConst?
    ensures Evaluates(env, Node(k, cs), ctx, v) <==> v == Node(k, vs)
  {
    var t := Node(k, cs);
    if Unchanged(t, ctx) {
      forall i | 0 <= i < |cs| ensures vs[i] == cs[i] {
        UnchangedChild(t, ctx, i, env, vs[i]);
      }
      assert vs == cs;
      EvLeaf(env, t, ctx);
      if Evaluates(env, t, ctx, v) {
        EvaluatesUnique(env, t, ctx, v, t);
      }
    } else {
      EvNodeIff(env, t, ctx, vs, v);
    }
  }

  // ----- literal operators -----

  lemma {:induction false} EvOp(env: Env, op: LitOp, cs: seq<Term>, ctx: Ctx, vs: seq<Term>, v: Term)
    requires op != Ite && cs != [] && EvaluatesAll(env, cs, ctx, vs)
    ensures Evaluates(env, Node(Op(op), cs), ctx, v) <==>
            v == if EvalLit(env, op, vs).Some? then EvalLit(env, op, vs).value else Node(Op(op), vs)
  {
    hide EvalLit;
    assert Evaluatable(Node(Op(op), cs));
    EvNodeIff(env, Node(Op(op), cs), ctx, vs, v);
  }

  /** `eo::eq`: true exactly on equal terms, if both are ground and no evaluation is pending; otherwise stuck. */
  lemma {:induction false} EvEq(env: Env, a: Term, b: Term, ctx: Ctx, x: Term, y: Term, v: Term)
    requires Evaluates(env, a, ctx, x) && Evaluates(env, b, ctx, y)
    ensures Evaluates(env, Node(Op(Eq), [a, b]), ctx, v) <==>
            v == if Value(x) && Value(y) then Bool(x == y) else Node(Op(Eq), [x, y])
  {
    EvOp(env, Eq, [a, b], ctx, [x, y], v);
    assert [x, y][0] == x && [x, y][1] == y;
  }

  /** `eo::is_eq`: true exactly on equal terms on which no evaluation is pending, and false on all
      other ground terms. */
  lemma {:induction false} EvIsEq(env: Env, a: Term, b: Term, ctx: Ctx, x: Term, y: Term, v: Term)
    requires Evaluates(env, a, ctx, x) && Evaluates(env, b, ctx, y)
    ensures Evaluates(env, Node(Op(IsEq), [a, b]), ctx, v) <==>
            v == if Ground(x) && Ground(y) then Bool(x == y && Value(x)) else Node(Op(IsEq), [x, y])
  {
    EvOp(env, IsEq, [a, b], ctx, [x, y], v);
    assert [x, y][0] == x && [x, y][1] == y;
  }

  /** `eo::is_ok`: true exactly if no evaluation is pending in a ground term. */
  lemma {:induction false} EvIsOk(env: Env, a: Term, ctx: Ctx, x: Term, v: Term)
    requires Evaluates(env, a, ctx, x)
    ensures Evaluates(env, Node(Op(IsOk), [a]), ctx, v) <==>
            v == if Ground(x) then Bool(Value(x)) else Node(Op(IsOk), [x])
  {
    EvOp(env, IsOk, [a], ctx, [x], v);
    assert [x][0] == x;
  }

  /** `eo::requires`: the third term, ground or not, if the first two are one value. */
  lemma {:induction false} EvRequires(env: Env, a: Term, b: Term, c: Term, ctx: Ctx, x: Term, y: Term, z: Term, v: Term)
    requires Evaluates(env, a, ctx, x) && Evaluates(env, b, ctx, y) && Evaluates(env, c, ctx, z)
    ensures Evaluates(env, Node(Op(Requires), [a, b, c]), ctx, v) <==>
            v == if x == y && Value(x) then z else Node(Op(Requires), [x, y, z])
  {
    EvOp(env, Requires, [a, b, c], ctx, [x, y, z], v);
  }

  lemma {:induction false} EvalLitList(env: Env, op: LitOp, vs: seq<Term>)
    requires IsListOp(op) && vs != []
    ensures EvalLit(env, op, vs) ==
            if |vs| == Arity(op) && AllGround(vs) && vs[0] in env.assoc && (exists i | 0 <= i < |vs| :: !IsLiteral(vs[i]))
            then ListOp(op, Assoc(vs[0], env.assoc[vs[0]].nil, env.assoc[vs[0]].isLeft), vs) else None
  {
    hide ListOp, Ground;
  }

  /** A list operator on ground arguments, not all of them literals, whose operator has a nil terminator,
      has its value on lists; `ListLaws` says which. */
  lemma {:induction false} EvList(env: Env, op: LitOp, cs: seq<Term>, ctx: Ctx, vs: seq<Term>, v: Term)
    requires IsListOp(op) && cs != [] && EvaluatesAll(env, cs, ctx, vs)
    ensures Evaluates(env, Node(Op(op), cs), ctx, v) <==>
            v == if |vs| == Arity(op) && AllGround(vs) && vs[0] in env.assoc && (exists i | 0 <= i < |vs| :: !IsLiteral(vs[i]))
                    && ListOp(op, Assoc(vs[0], env.assoc[vs[0]].nil, env.assoc[vs[0]].isLeft), vs).Some?
                 then ListOp(op, Assoc(vs[0], env.assoc[vs[0]].nil, env.assoc[vs[0]].isLeft), vs).value
                 else Node(Op(op), vs)
  {
    hide ListOp, Evaluates, Ground;
    EvOp(env, op, cs, ctx, vs, v);
    EvalLitList(env, op, vs);
    hide EvalLit;
  }

  /** Any other operator has the value that is given for it on ground arguments. */
  lemma {:induction false} EvPrim(env: Env, code: nat, cs: seq<Term>, ctx: Ctx, vs: seq<Term>, v: Term)
    requires cs != [] && EvaluatesAll(env, cs, ctx, vs)
    ensures Evaluates(env, Node(Op(Prim(code)), cs), ctx, v) <==>
            v == if AllGround(vs) && env.prim(Prim(code), vs).Some? then env.prim(Prim(code), vs).value
                 else Node(Op(Prim(code)), vs)
  {
    EvOp(env, Prim(code), cs, ctx, vs, v);
  }

  /** Applying a literal operator to values when the term is built, and evaluating the application,
      give the same. */
  lemma {:induction false} BuiltIsEvaluated(env: Env, op: LitOp, vs: seq<Term>, ctx: Ctx, v: Term)
    requires vs != [] && forall i | 0 <= i < |vs| :: Value(vs[i])
    ensures Evaluates(env, Node(Op(op), vs), ctx, v) <==>
            v == if EvalLit(env, op, vs).Some? then EvalLit(env, op, vs).value else Node(Op(op), vs)
  {
    hide Evaluates;
    var t := Node(Op(op), vs);
    forall i | 0 <= i < |vs| ensures Evaluates(env, vs[i], ctx, vs[i]) {
      EvLeaf(env, vs[i], ctx);
    }
    if op != Ite {
      EvOp(env, op, vs, ctx, vs, v);
    } else {
      var w := if EvalLit(env, op, vs).Some? then EvalLit(env, op, vs).value else t;
      assert !Unchanged(t, ctx);
      if |vs| != 3 {
        EvLeaf(env, t, ctx);
      } else if vs[0].Bool? {
        EvIteBool(env, t, ctx, vs[0], vs[if vs[0].value then 1 else 2]);
      } else {
        EvIteStuck(env, t, ctx, vs);
      }
      if Evaluates(env, t, ctx, v) {
        EvaluatesUnique(env, t, ctx, v, w);
      }
    }
  }
}
