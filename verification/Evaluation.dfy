/** The meaning of evaluation: direct recursion, call by value. */
module Evaluation {
  import opened Terms
  import opened Matching
  import opened ListSpecs

  /** One case of a program: the children of the application on the left, and the term
      on the right. */
  datatype Case = Case(lhs: seq<Term>, rhs: Term)

  datatype NilAttr = NilAttr(nil: Term, isLeft: bool)

  /** What evaluation looks up: the defined programs, the list attributes of operators,
      and the literal operators that are not modelled. */
  datatype Env = Env(
    progs: map<Term, seq<Case>>,
    assoc: map<Term, NilAttr>,
    prim: (LitOp, seq<Term>) -> Option<Term>)

  // ----- literal operators -----

  predicate AllLiterals(ts: seq<Term>) {
    forall i | 0 <= i < |ts| :: IsLiteral(ts[i])
  }

  /** The value of a literal operator; none if it is stuck. */
  function EvalLit(env: Env, op: LitOp, args: seq<Term>): Option<Term> {
    if op.Ite? then
      if |args| == 3 && args[0].Bool? then Some(args[if args[0].value then 1 else 2]) else None
    else if op.Requires? then
      if |args| == 3 && Value(args[0]) && Value(args[1]) && args[0] == args[1] then Some(args[2]) else None
    else if !AllGround(args) then None
    else if op.IsOk? then
      if |args| == 1 then Some(Bool(!Evaluatable(args[0]))) else None
    else if op.IsEq? then
      if |args| == 2 then
        Some(Bool(!Evaluatable(args[0]) && !Evaluatable(args[1]) && args[0] == args[1]))
      else None
    else if op.Eq? then
      if |args| == 2 && !Evaluatable(args[0]) && !Evaluatable(args[1]) then Some(Bool(args[0] == args[1]))
      else None
    else if IsListOp(op) then EvalList(env, op, args)
    else env.prim(op, args)
  }

  function EvalList(env: Env, op: LitOp, args: seq<Term>): Option<Term>
    requires IsListOp(op)
  {
    if AllLiterals(args) || |args| != Arity(op) || args[0] !in env.assoc then None
    else
      var a := env.assoc[args[0]];
      ListOp(op, Assoc(args[0], a.nil, a.isLeft), args)
  }

  // ----- programs -----

  /** The first case whose left side matches the arguments, with the matching context.
      Arguments that are not ground values do not match, nor does a program with a case
      of another arity that comes first. */
  function SelectCase(env: Env, args: seq<Term>): Option<(Term, Ctx)> {
    if args == [] || !AllGround(args) || exists j | 1 <= j < |args| :: Evaluatable(args[j]) then None
    else if args[0] !in env.progs then None
    else FirstMatch(env.progs[args[0]], args)
  }

  function FirstMatch(cases: seq<Case>, args: seq<Term>): Option<(Term, Ctx)>
    requires args != []
  {
    if cases == [] then None
    else if |cases[0].lhs| != |args| then None
    else match MatchRecAll(cases[0].lhs[1..], args[1..], map[])
      case Some(ctx) => Some((cases[0].rhs, ctx))
      case None => FirstMatch(cases[1..], args)
  }

  /** What an application of evaluated children gives: a term, or a body to evaluate. */
  datatype Outcome = Done(value: Term) | Enter(body: Term, ctx: Ctx)

  predicate IsCall(k: Kind, vs: seq<Term>) {
    (k.Apply? || k.ApplyOpaque?) && vs != [] && vs[0].ProgramConst?
  }

  /** A matched body that is ground, or matched without bindings, is not evaluated further. */
  predicate Immediate(body: Term, ctx: Ctx) {
    Ground(body) || ctx == map[]
  }

  function Reduce(env: Env, k: Kind, vs: seq<Term>): Outcome {
    if IsCall(k, vs) then
      match SelectCase(env, vs)
      case None => Done(Node(k, vs))
      case Some((body, c)) => if Immediate(body, c) then Done(body) else Enter(body, c)
    else if k.Op? then
      match EvalLit(env, k.op, vs)
      case None => Done(Node(k, vs))
      case Some(v) => Done(v)
    else Done(Node(k, vs))
  }

  // ----- the recursive evaluator -----

  /** The term stays as it is. */
  predicate Unchanged(t: Term, ctx: Ctx) {
    !Evaluatable(t) && (Ground(t) || ctx == map[])
  }

  /** The value of `t`, if it is reached with at most `fuel` nested program calls. */
  function Eval(env: Env, t: Term, ctx: Ctx, fuel: nat): Option<Term>
    decreases fuel, t, 1
  {
    if Unchanged(t, ctx) then Some(t)
    else match t
      case Param(_) => Some(if t in ctx then ctx[t] else t)
      case Node(k, cs) =>
        if k == Op(Ite) then
          if |cs| != 3 then Some(t)
          else match Eval(env, cs[0], ctx, fuel)
            case None => None
            case Some(c) =>
              if c.Bool? then Eval(env, cs[if c.value then 1 else 2], ctx, fuel)
              else match (Eval(env, cs[1], ctx, fuel), Eval(env, cs[2], ctx, fuel))
                case (Some(a), Some(b)) => Some(Node(k, [c, a, b]))
                case _ => None
        else (match EvalAll(env, cs, ctx, fuel)
          case None => None
          case Some(vs) =>
            match Reduce(env, k, vs)
            case Done(v) => Some(v)
            case Enter(body, c) => if fuel == 0 then None else Eval(env, body, c, fuel - 1))
      case _ => Some(t)
  }

  function EvalAll(env: Env, ts: seq<Term>, ctx: Ctx, fuel: nat): (r: Option<seq<Term>>)
    ensures r.Some? ==> |r.value| == |ts|
    decreases fuel, ts, 0
  {
    if ts == [] then Some([])
    else match (Eval(env, ts[0], ctx, fuel), EvalAll(env, ts[1..], ctx, fuel))
      case (Some(v), Some(vs)) => Some([v] + vs)
      case _ => None
  }

  /** Evaluation terminates with `v`. */
  ghost predicate Evaluates(env: Env, t: Term, ctx: Ctx, v: Term) {
    exists fuel: nat :: Eval(env, t, ctx, fuel) == Some(v)
  }

  lemma {:induction false} EvalMono(env: Env, t: Term, ctx: Ctx, fuel: nat, fuel': nat)
    requires fuel <= fuel' && Eval(env, t, ctx, fuel).Some?
    ensures Eval(env, t, ctx, fuel') == Eval(env, t, ctx, fuel)
    decreases fuel, t, 1
  {
    if !Unchanged(t, ctx) {
      match t
      case Node(k, cs) =>
        if k == Op(Ite) {
          if |cs| == 3 {
            EvalMono(env, cs[0], ctx, fuel, fuel');
            var c := Eval(env, cs[0], ctx, fuel).value;
            if c.Bool? {
              EvalMono(env, cs[if c.value then 1 else 2], ctx, fuel, fuel');
            } else {
              EvalMono(env, cs[1], ctx, fuel, fuel');
              EvalMono(env, cs[2], ctx, fuel, fuel');
            }
          }
        } else {
          EvalAllMono(env, cs, ctx, fuel, fuel');
          match Reduce(env, k, EvalAll(env, cs, ctx, fuel).value)
          case Done(_) =>
          case Enter(body, c) => EvalMono(env, body, c, fuel - 1, fuel' - 1);
        }
      case _ =>
    }
  }

  lemma {:induction false} EvalAllMono(env: Env, ts: seq<Term>, ctx: Ctx, fuel: nat, fuel': nat)
    requires fuel <= fuel' && EvalAll(env, ts, ctx, fuel).Some?
    ensures EvalAll(env, ts, ctx, fuel') == EvalAll(env, ts, ctx, fuel)
    decreases fuel, ts, 0
  {
    if ts != [] {
      EvalMono(env, ts[0], ctx, fuel, fuel');
      EvalAllMono(env, ts[1..], ctx, fuel, fuel');
    }
  }

  /** Evaluation has at most one result. */
  lemma {:induction false} EvaluatesUnique(env: Env, t: Term, ctx: Ctx, v: Term, v': Term)
    requires Evaluates(env, t, ctx, v) && Evaluates(env, t, ctx, v')
    ensures v == v'
  {
    var n: nat :| Eval(env, t, ctx, n) == Some(v);
    var n': nat :| Eval(env, t, ctx, n') == Some(v');
    if n <= n' {
      EvalMono(env, t, ctx, n, n');
    } else {
      EvalMono(env, t, ctx, n', n);
    }
  }

  ghost predicate EvaluatesAll(env: Env, ts: seq<Term>, ctx: Ctx, vs: seq<Term>) {
    |ts| == |vs| && forall i | 0 <= i < |ts| :: Evaluates(env, ts[i], ctx, vs[i])
  }

  /** Children that terminate one by one terminate within one common amount of fuel. */
  lemma {:induction false} CommonFuel(env: Env, ts: seq<Term>, ctx: Ctx, vs: seq<Term>) returns (fuel: nat)
    requires EvaluatesAll(env, ts, ctx, vs)
    ensures EvalAll(env, ts, ctx, fuel) == Some(vs)
  {
    if ts == [] {
      fuel := 0;
    } else {
      var n := CommonFuel(env, ts[1..], ctx, vs[1..]);
      assert Evaluates(env, ts[0], ctx, vs[0]);
      var m: nat :| Eval(env, ts[0], ctx, m) == Some(vs[0]);
      fuel := n + m;
      EvalAllMono(env, ts[1..], ctx, n, fuel);
      EvalMono(env, ts[0], ctx, m, fuel);
      assert [vs[0]] + vs[1..] == vs;
    }
  }

  lemma {:induction false} EvalAllElement(env: Env, ts: seq<Term>, ctx: Ctx, fuel: nat, i: nat)
    requires EvalAll(env, ts, ctx, fuel).Some? && i < |ts|
    ensures Eval(env, ts[i], ctx, fuel) == Some(EvalAll(env, ts, ctx, fuel).value[i])
  {
    if i > 0 {
      EvalAllElement(env, ts[1..], ctx, fuel, i - 1);
    }
  }

  lemma {:induction false} EvalAllIff(env: Env, ts: seq<Term>, ctx: Ctx, fuel: nat, vs: seq<Term>)
    requires |ts| == |vs| && forall i | 0 <= i < |ts| :: Eval(env, ts[i], ctx, fuel) == Some(vs[i])
    ensures EvalAll(env, ts, ctx, fuel) == Some(vs)
  {
    if ts != [] {
      EvalAllIff(env, ts[1..], ctx, fuel, vs[1..]);
      assert [vs[0]] + vs[1..] == vs;
    }
  }
}
