/** Running a program on given arguments, compared with evaluating the application. */
module ProgramApps {
  import opened Terms
  import opened Matching
  import opened Evaluation
  import opened EvaluationRules
  import opened Programs
  import opened RoundTrip
  import EvalMachine
  import Evaluator

  /** A program on arguments that are ground and have no evaluation pending. */
  predicate IsValueCall(args: seq<Term>) {
    |args| > 1 && args[0].ProgramConst? && forall j | 1 <= j < |args| :: Value(args[j])
  }

  /** Running a program evaluates the selected body, whatever it is. */
  ghost predicate AppEvaluates(env: Env, args: seq<Term>, v: Term) {
    match SelectCase(env, args)
    case None => v == Node(Apply, args)
    case Some((body, ctx)) => Evaluates(env, body, ctx, v)
  }

  /** Cut off after `budget` steps, like `Evaluator.Evaluate`. */
  method EvaluateProgramApp(env: Env, args: seq<Term>, budget: nat) returns (r: Option<Term>)
    requires |args| > 1
    ensures r.Some? ==> AppEvaluates(env, args, r.value)
    ensures match SelectCase(env, args)
            case None => r == Some(Node(Apply, args))
            case Some((body, ctx)) =>
              var m := EvalMachine.Run(env, EvalMachine.Start(body, ctx), budget);
              r == if m.frames == [] then m.evaluated else None
  {
    var ret := Evaluator.EvaluateProgramInternal(env, args);
    match ret
    case Some((body, newCtx)) => r := Evaluator.Evaluate(env, body, newCtx, budget);
    case None => r := Some(Node(Apply, args));
  }

  /** What evaluating the application gives: there the short cut leaves an immediate body as it is. */
  ghost predicate CallEvaluates(env: Env, args: seq<Term>, v: Term) {
    match SelectCase(env, args)
    case None => v == Node(Apply, args)
    case Some((body, ctx)) => if Immediate(body, ctx) then v == body else Evaluates(env, body, ctx, v)
  }

  lemma {:induction false} ArgsStay(env: Env, args: seq<Term>)
    requires IsValueCall(args)
    ensures EvaluatesAll(env, args, map[], args)
  {
    forall i | 0 <= i < |args| ensures Evaluates(env, args[i], map[], args[i]) {
      EvLeafOrValue(env, args[i]);
    }
  }

  lemma {:induction false} EvLeafOrValue(env: Env, t: Term)
    requires t.ProgramConst? || Value(t)
    ensures Evaluates(env, t, map[], t)
  {
    EvLeaf(env, t, map[]);
  }

  lemma {:induction false} CallIsReduced(env: Env, args: seq<Term>, v: Term)
    requires IsValueCall(args)
    ensures CallEvaluates(env, args, v) <==> OutcomeEvaluates(env, Reduce(env, Apply, args), v)
  {
  }

  lemma {:induction false} ReducedEvaluates(env: Env, args: seq<Term>, v: Term)
    requires IsValueCall(args) && Evaluates(env, Node(Apply, args), map[], v)
    ensures OutcomeEvaluates(env, Reduce(env, Apply, args), v)
  {
    hide Reduce, SelectCase;
    var fuel: nat :| Eval(env, Node(Apply, args), map[], fuel) == Some(v);
    ArgsStay(env, args);
    var n := CommonFuel(env, args, map[], args);
    assert !Unchanged(Node(Apply, args), map[]) by {
      assert Evaluatable(args[0]);
    }
    assert EvalAll(env, args, map[], fuel).Some?;
    EvalAllMono(env, args, map[], fuel, fuel + n);
    EvalAllMono(env, args, map[], n, fuel + n);
    assert EvalAll(env, args, map[], fuel) == Some(args);
    match Reduce(env, Apply, args)
    case Done(_) =>
    case Enter(body, c) => assert Eval(env, body, c, fuel - 1) == Some(v);
  }

  /** Evaluating a program call has the value of the selected body, or the body itself. */
  lemma {:induction false} CallValue(env: Env, args: seq<Term>, v: Term)
    requires IsValueCall(args)
    ensures Evaluates(env, Node(Apply, args), map[], v) <==> CallEvaluates(env, args, v)
  {
    hide Reduce, SelectCase, CallEvaluates, OutcomeEvaluates;
    CallIsReduced(env, args, v);
    if Evaluates(env, Node(Apply, args), map[], v) {
      ReducedEvaluates(env, args, v);
    }
    if CallEvaluates(env, args, v) {
      ArgsStay(env, args);
      assert !Unchanged(Node(Apply, args), map[]) by {
        assert Evaluatable(args[0]);
      }
      EvNode(env, Node(Apply, args), map[], args, v);
    }
  }

  /** A call on values whose selected body chooses no branch, where the other bodies are in order:
      the value is ground exactly if no malformed if-then-else in the body has a parameter in it. */
  lemma {:induction false} CallGroundIff(env: Env, self: Term, args: seq<Term>, v: Term)
    requires IsValueCall(args) && SelectCase(env, args).Some? && Evaluates(env, Node(Apply, args), map[], v)
    requires var body := SelectCase(env, args).value.0;
             EnvClosed(env, self) && BodiesOk(env, Some(body)) && NoChoice(body)
    ensures Ground(v) <==> IteOk(SelectCase(env, args).value.0)
  {
    hide EnvClosed, BodiesOk, Eval, SelectCase;
    var (body, ctx) := SelectCase(env, args).value;
    CallValue(env, args, v);
    SelectedBound(env, self, args);
    if Immediate(body, ctx) {
      GroundIff(body);
      if !IteOk(body) {
        NoChoiceStrays(env, body, ctx, 0);
      }
    } else {
      var fuel: nat :| Eval(env, body, ctx, fuel) == Some(v);
      EvalClosedIff(env, self, body, ctx, fuel);
    }
  }

  /** Running a program and evaluating the application agree exactly if the selected body is
      evaluated further, or is its own value. */
  lemma {:induction false} AppIsCallIff(env: Env, args: seq<Term>)
    requires IsValueCall(args)
    ensures (forall v :: AppEvaluates(env, args, v) <==> Evaluates(env, Node(Apply, args), map[], v)) <==>
            match SelectCase(env, args)
            case None => true
            case Some((body, ctx)) => !Immediate(body, ctx) || Evaluates(env, body, ctx, body)
  {
    hide SelectCase, Evaluates;
    forall v ensures Evaluates(env, Node(Apply, args), map[], v) <==> CallEvaluates(env, args, v) {
      CallValue(env, args, v);
    }
    match SelectCase(env, args)
    case None =>
    case Some((body, ctx)) =>
      if Immediate(body, ctx) {
        assert CallEvaluates(env, args, body);
        if Evaluates(env, body, ctx, body) {
          forall v ensures Evaluates(env, body, ctx, v) ==> v == body {
            if Evaluates(env, body, ctx, v) {
              EvaluatesUnique(env, body, ctx, v, body);
            }
          }
        }
      }
  }

  /** They agree whenever the selected body has no evaluation pending, or depends on its parameters. */
  lemma {:induction false} AppIsCall(env: Env, args: seq<Term>, v: Term)
    requires IsValueCall(args)
    requires SelectCase(env, args).Some? ==>
               var (body, ctx) := SelectCase(env, args).value; !Immediate(body, ctx) || !Evaluatable(body)
    ensures AppEvaluates(env, args, v) <==> Evaluates(env, Node(Apply, args), map[], v)
  {
    hide SelectCase, Evaluates;
    AppIsCallIff(env, args);
    match SelectCase(env, args)
    case None =>
    case Some((body, ctx)) =>
      if Immediate(body, ctx) {
        EvLeaf(env, body, ctx);
      }
  }

  /** The left side of the selected case of a checked program, evaluated in the matched context, gives
      the arguments back, whatever the programs are. */
  lemma {:induction false} SelectedRoundTrip(env: Env, self: Term, args: seq<Term>) returns (c: Case)
    requires ProgramsChecked(env, self) && SelectCase(env, args).Some?
    ensures args[0] in env.progs && c in env.progs[args[0]] && c.rhs == SelectCase(env, args).value.0
    ensures |c.lhs| == |args| && forall env': Env, i: nat | 1 <= i < |args| ::
              Evaluates(env', c.lhs[i], SelectCase(env, args).value.1, args[i])
  {
    hide Evaluates;
    var k := FirstMatchIs(env.progs[args[0]], args);
    c := env.progs[args[0]][k];
    var ctx := SelectCase(env, args).value.1;
    assert CaseChecked(c, self);
    MatchRecAllIsLeast(c.lhs[1..], args[1..], map[]);
    forall env': Env, i: nat | 1 <= i < |args| ensures Evaluates(env', c.lhs[i], ctx, args[i]) {
      assert Matches(c.lhs[1..][i - 1], ctx, args[1..][i - 1]);
      NoOpsIfNotEvaluatable(c.lhs[i]);
      PatternEvaluates(env', c.lhs[i], args[i], ctx);
    }
  }

  lemma {:induction false} PatternEvaluates(env: Env, a: Term, b: Term, ctx: Ctx)
    requires Matches(a, ctx, b) && NoOps(a) && !Evaluatable(b)
    ensures Evaluates(env, a, ctx, b)
  {
    MatchesIsSubst(a, ctx, b);
    if Fires(a, ctx) {
      FiresEvaluatable(a, ctx);
    }
    EvalIsSubst(env, a, ctx);
  }

  /** Running the program and evaluating its application have the same values. */
  ghost predicate AppAgrees(env: Env, args: seq<Term>) {
    forall v :: AppEvaluates(env, args, v) <==> Evaluates(env, Node(Apply, args), map[], v)
  }

  /** The tables that define the called program as `env` does. */
  ghost predicate SameProgram(env: Env, env': Env, p: Term) {
    p in env.progs && p in env'.progs && env'.progs[p] == env.progs[p]
  }

  /** Over all tables with the same called program, the two agree exactly if the selected body is not
      returned at once, or has no callable application in it: for bodies without literal operators
      and without the called program itself. */
  lemma {:induction false} AppAgreesExactly(env: Env, args: seq<Term>)
    requires IsValueCall(args) && SelectCase(env, args).Some?
    requires var (body, ctx) := SelectCase(env, args).value;
             Immediate(body, ctx) ==> NoOps(body) && args[0] !in Subs(body)
    ensures var (body, ctx) := SelectCase(env, args).value;
            (forall env' | SameProgram(env, env', args[0]) :: AppAgrees(env', args)) <==>
            !Immediate(body, ctx) || !Fires(body, map[])
  {
    var (body, ctx) := SelectCase(env, args).value;
    if !Immediate(body, ctx) || !Fires(body, map[]) {
      forall env' | SameProgram(env, env', args[0]) ensures AppAgrees(env', args) {
        if Immediate(body, ctx) {
          ImmediateSubst(body, ctx);
          EvalIsSubst(env', body, ctx);
        }
        AppIsCallIff(env', args);
      }
    } else {
      ImmediateSubst(body, ctx);
      var env' := FiringTable(map[args[0] := env.progs[args[0]]], body, ctx);
      assert SameProgram(env, env', args[0]) && SelectCase(env', args) == Some((body, ctx));
      AppIsCallIff(env', args);
    }
  }

  lemma {:induction false} ImmediateSubst(body: Term, ctx: Ctx)
    requires Immediate(body, ctx)
    ensures Subst(body, ctx) == body && (Fires(body, ctx) <==> Fires(body, map[]))
    decreases body
  {
    if Ground(body) {
      SubstGround(body, ctx);
      SubstGround(body, map[]);
      if body.Node? {
        var cs := body.children;
        forall i | 0 <= i < |cs| ensures Fires(cs[i], ctx) <==> Fires(cs[i], map[]) {
          ImmediateSubst(cs[i], ctx);
        }
        assert SubstAll(cs, ctx) == Subst(body, ctx).children;
        assert SubstAll(cs, map[]) == Subst(body, map[]).children;
      }
    } else {
      SubstEmpty(body);
    }
  }

  lemma {:induction false} SelectOnly(env: Env, p: Term, x: Term, a: Term, body: Term)
    requires p.ProgramConst? && x.Param? && a.Symbol? && p in env.progs && env.progs[p] == [Case([p, x], body)]
    ensures SelectCase(env, [p, a]) == Some((body, map[x := a]))
  {
    var args, ctx, cases := [p, a], map[x := a], [Case([p, x], body)];
    assert cases[0].lhs[1..] == [x] && args[1..] == [a] && [x][1..] == [] && [a][1..] == [];
    assert MatchRec(x, a, map[]) == Some(ctx);
    assert MatchRecAll([x], [a], map[]) == MatchRecAll([x][1..], [a][1..], ctx) == Some(ctx);
    assert FirstMatch(cases, args) == Some((body, ctx));
    assert AllGround(args) && args[0] == p && !Evaluatable(args[1]);
  }

  /** With the cases `((f x) (g c))` and `((g y) d)`, running `f` gives `d`, and evaluating
      its application stops at `(g c)`. */
  lemma {:induction false} ShortCutStops(prim: (LitOp, seq<Term>) -> Option<Term>)
    ensures var f, g, x, y, c, d := ProgramConst(0), ProgramConst(1), Param(0), Param(1), Symbol(0), Symbol(1);
            var env := Env(map[f := [Case([f, x], Node(Apply, [g, c]))], g := [Case([g, y], d)]], map[], prim);
            AppEvaluates(env, [f, c], d) && Evaluates(env, Node(Apply, [f, c]), map[], Node(Apply, [g, c]))
  {
    var f, g, x, y, c, d := ProgramConst(0), ProgramConst(1), Param(0), Param(1), Symbol(0), Symbol(1);
    var body := Node(Apply, [g, c]);
    var env := Env(map[f := [Case([f, x], body)], g := [Case([g, y], d)]], map[], prim);
    SelectOnly(env, f, x, c, body);
    SelectOnly(env, g, y, c, d);
    CallValue(env, [f, c], body);
    GroundCall(env, g, c, map[x := c], d);
  }

  /** A ground call evaluates in every context to an immediate body of its case. */
  lemma {:induction false} GroundCall(env: Env, g: Term, c: Term, ctx: Ctx, d: Term)
    requires g.ProgramConst? && c.Symbol? && d.Symbol?
    requires SelectCase(env, [g, c]).Some? && SelectCase(env, [g, c]).value.0 == d
    ensures Evaluates(env, Node(Apply, [g, c]), ctx, d)
  {
    hide SelectCase;
    var args := [g, c];
    EvLeaf(env, g, ctx);
    EvLeaf(env, c, ctx);
    assert Evaluatable(args[0]) && !Unchanged(Node(Apply, args), ctx);
    EvNode(env, Node(Apply, args), ctx, args, d);
  }
}
