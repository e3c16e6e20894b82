/** Matching and then evaluating: when evaluation is plain substitution. */
module RoundTrip {
  import opened Terms
  import opened Matching
  import opened Evaluation

  function SubstAll(ts: seq<Term>, s: Ctx): seq<Term> {
    seq(|ts|, i requires 0 <= i < |ts| => Subst(ts[i], s))
  }

  /** The guards of a program call: a program constant on ground arguments on which no
      evaluation is pending. */
  predicate Callable(k: Kind, vs: seq<Term>) {
    IsCall(k, vs) && AllGround(vs) && forall j | 1 <= j < |vs| :: !Evaluatable(vs[j])
  }

  /** Somewhere in the pattern an application has a head that the context binds to a
      program, and meets the guards of a call. */
  ghost predicate Fires(a: Term, ctx: Ctx) {
    match a
    case Node(k, cs) => Callable(k, SubstAll(cs, ctx)) || exists i | 0 <= i < |cs| :: Fires(cs[i], ctx)
    case _ => false
  }

  /** No literal operator is applied; so every pattern without pending evaluation is such a term. */
  predicate NoOps(t: Term) {
    match t
    case Node(k, cs) => (k.Op? ==> cs == []) && forall i | 0 <= i < |cs| :: NoOps(cs[i])
    case _ => true
  }

  lemma {:induction false} NoOpsIfNotEvaluatable(t: Term)
    requires !Evaluatable(t)
    ensures NoOps(t)
  {
    if t.Node? {
      forall i | 0 <= i < |t.children| ensures NoOps(t.children[i]) {
        NoOpsIfNotEvaluatable(t.children[i]);
      }
    }
  }

  lemma {:induction false} SubstEmpty(t: Term)
    ensures Subst(t, map[]) == t
  {
    match t
    case Node(_, cs) =>
      forall i | 0 <= i < |cs| ensures Subst(cs[i], map[]) == cs[i] {
        SubstEmpty(cs[i]);
      }
      assert Subst(t, map[]).children == cs;
    case _ =>
  }

  lemma {:induction false} EvaluatableChild(t: Term, i: nat)
    requires t.Node? && i < |t.children| && Evaluatable(t.children[i])
    ensures Evaluatable(t)
  {
  }

  /** A pattern that fires has an instance on which evaluation is pending. */
  lemma {:induction false} FiresEvaluatable(a: Term, ctx: Ctx)
    requires Fires(a, ctx)
    ensures Evaluatable(Subst(a, ctx))
    decreases a
  {
    var k, cs := a.kind, a.children;
    var b := Subst(a, ctx);
    assert b.children == SubstAll(cs, ctx);
    if Callable(k, SubstAll(cs, ctx)) {
      EvaluatableChild(b, 0);
    } else {
      var i :| 0 <= i < |cs| && Fires(cs[i], ctx);
      FiresEvaluatable(cs[i], ctx);
      EvaluatableChild(b, i);
    }
  }

  /** A term without literal operators that does not fire evaluates, without any program call, to
      its plain simultaneous substitution. */
  lemma {:induction false} EvalIsSubst(env: Env, a: Term, ctx: Ctx)
    requires NoOps(a) && !Fires(a, ctx)
    ensures Eval(env, a, ctx, 0) == Some(Subst(a, ctx))
    decreases a
  {
    if Unchanged(a, ctx) {
      if Ground(a) {
        SubstGround(a, ctx);
      } else {
        SubstEmpty(a);
      }
    } else {
      match a
      case Node(k, cs) =>
        forall i | 0 <= i < |cs| ensures Eval(env, cs[i], ctx, 0) == Some(SubstAll(cs, ctx)[i]) {
          EvalIsSubst(env, cs[i], ctx);
        }
        EvalAllIff(env, cs, ctx, 0, SubstAll(cs, ctx));
        assert Reduce(env, k, SubstAll(cs, ctx)) == Done(Node(k, SubstAll(cs, ctx)));
        assert Subst(a, ctx).children == SubstAll(cs, ctx);
      case _ =>
    }
  }

  // ----- the guard is exact -----

  /** A program of `n` arguments that returns a symbol for every argument list. */
  ghost function ConstantProgram(p: Term, n: nat, result: Term): map<Term, seq<Case>> {
    map[p := [Case([p] + FreshParams(0, n), result)]]
  }

  ghost function FreshParams(from: nat, n: nat): seq<Term>
    decreases n
  {
    if n == 0 then [] else [Param(from)] + FreshParams(from + 1, n - 1)
  }

  lemma {:induction false} FreshLength(from: nat, n: nat)
    ensures |FreshParams(from, n)| == n
    decreases n
  {
    if n > 0 {
      FreshLength(from + 1, n - 1);
    }
  }

  lemma {:induction false} FreshMatch(from: nat, vs: seq<Term>, ctx: Ctx)
    requires |FreshParams(from, |vs|)| == |vs|
    requires forall i: nat | i >= from :: Param(i) !in ctx
    ensures MatchRecAll(FreshParams(from, |vs|), vs, ctx).Some?
    decreases |vs|
  {
    if vs != [] {
      var ts := FreshParams(from, |vs|);
      assert ts[1..] == FreshParams(from + 1, |vs| - 1);
      assert MatchRec(ts[0], vs[0], ctx) == Some(ctx[Param(from) := vs[0]]);
      FreshMatch(from + 1, vs[1..], ctx[Param(from) := vs[0]]);
    }
  }

  /** `p` is the constant program; no other program of the table occurs in the term. */
  ghost predicate ConstantFor(env: Env, p: Term, n: nat, z: Term, t: Term) {
    p.ProgramConst? && z.Symbol? && p in env.progs && env.progs[p] == ConstantProgram(p, n, z)[p] &&
    forall q | q in env.progs && q != p :: q !in Subs(t)
  }

  /** Calls of `p` with `n` arguments return the symbol; all other calls are stuck. */
  lemma {:induction false} ConstantReduce(env: Env, p: Term, n: nat, z: Term, k: Kind, vs: seq<Term>)
    requires z.Symbol? && p.ProgramConst? && p in env.progs && env.progs[p] == ConstantProgram(p, n, z)[p]
    requires (k.Op? ==> vs == []) && (vs != [] && vs[0].ProgramConst? ==> vs[0] == p || vs[0] !in env.progs)
    ensures k.Op? || Reduce(env, k, vs) ==
            if Callable(k, vs) && vs[0] == p && |vs| == n + 1 then Done(z) else Done(Node(k, vs))
  {
    FreshLength(0, n);
    if Callable(k, vs) && vs[0] == p {
      var c := env.progs[p][0];
      assert env.progs[p][1..] == [];
      if |vs| == n + 1 {
        assert c.lhs[1..] == FreshParams(0, n);
        FreshMatch(0, vs[1..], map[]);
      }
    }
  }

  /** The pattern fires on a call of `p` with `n` arguments. */
  ghost predicate FiresOn(a: Term, ctx: Ctx, p: Term, n: nat) {
    match a
    case Node(k, cs) =>
      var vs := SubstAll(cs, ctx);
      (Callable(k, vs) && vs[0] == p && |vs| == n + 1) || exists i | 0 <= i < |cs| :: FiresOn(cs[i], ctx, p, n)
    case _ => false
  }

  lemma {:induction false} FiresOnSome(a: Term, ctx: Ctx) returns (p: Term, n: nat)
    requires Fires(a, ctx)
    ensures p.ProgramConst? && FiresOn(a, ctx, p, n)
    decreases a
  {
    var k, cs := a.kind, a.children;
    var vs := SubstAll(cs, ctx);
    if Callable(k, vs) {
      p, n := vs[0], |vs| - 1;
    } else {
      var i :| 0 <= i < |cs| && Fires(cs[i], ctx);
      p, n := FiresOnSome(cs[i], ctx);
    }
  }

  lemma {:induction false} FiresOnNotGround(a: Term, ctx: Ctx, p: Term, n: nat)
    requires !Evaluatable(a) && FiresOn(a, ctx, p, n)
    ensures !Ground(a) && ctx != map[]
    decreases a
  {
    var k, cs := a.kind, a.children;
    var vs := SubstAll(cs, ctx);
    if Callable(k, vs) && vs[0] == p && |vs| == n + 1 {
      assert !Evaluatable(cs[0]);
      assert !Ground(cs[0]);
    } else {
      var i :| 0 <= i < |cs| && FiresOn(cs[i], ctx, p, n);
      FiresOnNotGround(cs[i], ctx, p, n);
    }
  }

  /** Where only the constant program can be called, evaluation departs from substitution
      exactly on the terms that fire on it. */
  lemma {:induction false} ConstantEval(env: Env, a: Term, ctx: Ctx, p: Term, n: nat, z: Term)
    requires NoOps(a) && ConstantFor(env, p, n, z, Subst(a, ctx))
    ensures Eval(env, a, ctx, 0).Some?
    ensures Eval(env, a, ctx, 0).value == Subst(a, ctx) <==> !FiresOn(a, ctx, p, n)
    ensures Eval(env, a, ctx, 0).value.ProgramConst? ==> Eval(env, a, ctx, 0).value == Subst(a, ctx)
    decreases a
  {
    hide Reduce;
    if Unchanged(a, ctx) {
      if FiresOn(a, ctx, p, n) {
        FiresOnNotGround(a, ctx, p, n);
      }
      if Ground(a) {
        SubstGround(a, ctx);
      } else {
        SubstEmpty(a);
      }
    } else {
      match a
      case Node(k, cs) =>
        var ws := seq(|cs|, i requires 0 <= i < |cs| => if Eval(env, cs[i], ctx, 0).Some? then Eval(env, cs[i], ctx, 0).value else z);
        var vs := SubstAll(cs, ctx);
        assert Subst(a, ctx) == Node(k, vs);
        forall i | 0 <= i < |cs|
          ensures Eval(env, cs[i], ctx, 0) == Some(ws[i]) && (ws[i] == vs[i] <==> !FiresOn(cs[i], ctx, p, n))
          ensures ws[i].ProgramConst? ==> ws[i] == vs[i] && (ws[i] == p || ws[i] !in env.progs)
        {
          assert Subst(a, ctx).children[i] == vs[i];
          SubsSelf(vs[i]);
          ConstantEval(env, cs[i], ctx, p, n, z);
        }
        EvalAllIff(env, cs, ctx, 0, ws);
        NodeDeparts(env, a, ctx, p, n, z, ws);
      case _ =>
    }
  }

  lemma {:induction false} ConstantForIs(env: Env, p: Term, n: nat, z: Term, t: Term)
    requires ConstantFor(env, p, n, z, t)
    ensures p.ProgramConst? && z.Symbol? && p in env.progs && env.progs[p] == ConstantProgram(p, n, z)[p]
  {
  }

  lemma {:induction false} NodeDeparts(env: Env, a: Term, ctx: Ctx, p: Term, n: nat, z: Term, ws: seq<Term>)
    requires NoOps(a) && ConstantFor(env, p, n, z, Subst(a, ctx)) && a.Node? && !Unchanged(a, ctx)
    requires |ws| == |a.children| && EvalAll(env, a.children, ctx, 0) == Some(ws)
    requires forall i | 0 <= i < |ws| :: ws[i] == SubstAll(a.children, ctx)[i] <==> !FiresOn(a.children[i], ctx, p, n)
    requires forall i | 0 <= i < |ws| ::
               ws[i].ProgramConst? ==> ws[i] == SubstAll(a.children, ctx)[i] && (ws[i] == p || ws[i] !in env.progs)
    ensures Eval(env, a, ctx, 0).Some? && !Eval(env, a, ctx, 0).value.ProgramConst?
    ensures Eval(env, a, ctx, 0).value == Subst(a, ctx) <==> !FiresOn(a, ctx, p, n)
  {
    hide Reduce, Fires, ConstantFor;
    var k, cs, vs := a.kind, a.children, SubstAll(a.children, ctx);
    assert p.ProgramConst? && z.Symbol? && p in env.progs && env.progs[p] == ConstantProgram(p, n, z)[p] by {
      ConstantForIs(env, p, n, z, Subst(a, ctx));
    }
    ConstantReduce(env, p, n, z, k, ws);
    assert Subst(a, ctx) == Node(k, vs);
    if exists i | 0 <= i < |cs| :: FiresOn(cs[i], ctx, p, n) {
      var i :| 0 <= i < |cs| && FiresOn(cs[i], ctx, p, n);
      assert ws[i] != vs[i];
    } else {
      assert ws == vs;
    }
  }

  /** Evaluating a term without literal operators is plain substitution under every program table
      if and only if no application in it becomes a callable program call. */
  lemma {:induction false} SubstExactly(a: Term, ctx: Ctx)
    requires NoOps(a)
    ensures (forall env: Env :: Evaluates(env, a, ctx, Subst(a, ctx))) <==> !Fires(a, ctx)
  {
    if !Fires(a, ctx) {
      forall env: Env ensures Evaluates(env, a, ctx, Subst(a, ctx)) {
        EvalIsSubst(env, a, ctx);
      }
    } else {
      var env := FiringTable(map[], a, ctx);
    }
  }

  /** A table in which a term that fires does not evaluate to its substitution; it contains the given
      programs, which do not occur in the term. */
  lemma {:induction false} FiringTable(progs: map<Term, seq<Case>>, a: Term, ctx: Ctx) returns (env: Env)
    requires NoOps(a) && Fires(a, ctx) && forall q | q in progs :: q !in Subs(Subst(a, ctx))
    ensures !Evaluates(env, a, ctx, Subst(a, ctx))
    ensures forall q | q in progs :: q in env.progs && env.progs[q] == progs[q]
  {
    var p, n := FiresOnSome(a, ctx);
    var z := Symbol(0);
    FiresOnOccurs(a, ctx, p, n);
    env := Env(progs + ConstantProgram(p, n, z), map[], (op: LitOp, ts: seq<Term>) => None);
    ConstantEval(env, a, ctx, p, n, z);
    if Evaluates(env, a, ctx, Subst(a, ctx)) {
      EvaluatesUnique(env, a, ctx, Subst(a, ctx), Eval(env, a, ctx, 0).value);
    }
  }

  lemma {:induction false} FiresOnOccurs(a: Term, ctx: Ctx, p: Term, n: nat)
    requires FiresOn(a, ctx, p, n)
    ensures p in Subs(Subst(a, ctx))
    decreases a
  {
    var k, cs := a.kind, a.children;
    var b, vs := Subst(a, ctx), SubstAll(a.children, ctx);
    assert b.children == vs;
    if Callable(k, vs) && vs[0] == p && |vs| == n + 1 {
      SubsSelf(vs[0]);
      assert p in Subs(b.children[0]);
    } else {
      var i :| 0 <= i < |cs| && FiresOn(cs[i], ctx, p, n);
      FiresOnOccurs(cs[i], ctx, p, n);
      assert p in Subs(b.children[i]);
    }
  }

  /** Matching and then evaluating the pattern gives the matched term back: under every
      program table exactly when the pattern does not fire, so always on a value. */
  lemma {:induction false} MatchThenEvaluate(a: Term, b: Term, ctx0: Ctx)
    requires NoOps(a) && MatchRec(a, b, ctx0).Some?
    ensures var ctx := MatchRec(a, b, ctx0).value;
            ((forall env: Env :: Evaluates(env, a, ctx, b)) <==> !Fires(a, ctx)) &&
            (!Evaluatable(b) ==> !Fires(a, ctx))
  {
    var ctx := MatchRec(a, b, ctx0).value;
    MatchRecIsLeast(a, b, ctx0);
    MatchesIsSubst(a, ctx, b);
    SubstExactly(a, ctx);
    if Fires(a, ctx) {
      FiresEvaluatable(a, ctx);
    }
  }

  lemma {:induction false} MatchTwo(f: Term, x: Term, p: Term, c: Term)
    requires f.Param? && x.Param? && f != x
    ensures MatchRecAll([f, x], [p, c], map[]) == Some(map[f := p, x := c])
  {
    assert [f, x][1..] == [x] && [p, c][1..] == [c] && [x][1..] == [] && [c][1..] == [];
    assert MatchRec(f, p, map[]) == Some(map[f := p]);
    assert map[f := p][x := c] == map[f := p, x := c];
    assert MatchRecAll([x], [c], map[f := p]) == Some(map[f := p, x := c]);
  }

  /** The pattern `(f x)` matches the call `(p c)` of a program, and evaluating it again
      runs the program instead of giving the call back. */
  lemma {:induction false} RoundTripFails()
    ensures var f, x, p, c, z := Param(0), Param(1), ProgramConst(0), Symbol(1), Symbol(0);
            var a, b := Node(Apply, [f, x]), Node(Apply, [p, c]);
            var env := Env(ConstantProgram(p, 1, z), map[], (op: LitOp, ts: seq<Term>) => None);
            MatchRec(a, b, map[]) == Some(map[f := p, x := c]) &&
            Evaluates(env, a, map[f := p, x := c], z)
  {
    var f, x, p, c, z := Param(0), Param(1), ProgramConst(0), Symbol(1), Symbol(0);
    var a, b := Node(Apply, [f, x]), Node(Apply, [p, c]);
    var env := Env(ConstantProgram(p, 1, z), map[], (op: LitOp, ts: seq<Term>) => None);
    var ctx: Ctx := map[f := p, x := c];
    MatchTwo(f, x, p, c);
    assert Eval(env, f, ctx, 0) == Some(p) && Eval(env, x, ctx, 0) == Some(c);
    EvalAllIff(env, [f, x], ctx, 0, [p, c]);
    ConstantReduce(env, p, 1, z, Apply, [p, c]);
    assert !Unchanged(a, ctx) by {
      assert !Ground(a.children[0]);
      assert f in ctx;
    }
    assert Eval(env, a, ctx, 0) == Some(z);
  }
}
