/** The evaluator as the checker runs it: nested loops over a stack of frames. */
module Evaluator {
  import opened Terms
  import opened Matching
  import opened ListSpecs
  import ListOps
  import opened Evaluation
  import opened EvalMachine
  import opened EvalSoundness

  /** Tries the cases of a program in order, each with an empty context. */
  method EvaluateProgramInternal(env: Env, children: seq<Term>) returns (r: Option<(Term, Ctx)>)
    requires children != []
    ensures r == SelectCase(env, children)
  {
    if !AllGround(children) {
      return None;
    }
    var nargs := |children|;
    for j := 1 to nargs
      invariant forall i | 1 <= i < j :: !Evaluatable(children[i])
    {
      if Evaluatable(children[j]) {
        return None;
      }
    }
    if children[0] !in env.progs {
      return None;
    }
    var cases := env.progs[children[0]];
    var i := 0;
    while i < |cases|
      invariant i <= |cases|
      invariant FirstMatch(cases, children) == FirstMatch(cases[i..], children)
    {
      var c := cases[i];
      if nargs != |c.lhs| {
        return None;
      }
      var matchSuccess, newCtx := MatchChildren(c.lhs, children);
      if matchSuccess {
        return Some((c.rhs, newCtx));
      }
      i := i + 1;
    }
    return None;
  }

  /** Matches the arguments of one case left to right, stopping at the first failure. */
  method MatchChildren(hchildren: seq<Term>, children: seq<Term>) returns (ok: bool, newCtx: Ctx)
    requires |hchildren| == |children| > 0
    ensures MatchRecAll(hchildren[1..], children[1..], map[]) == if ok then Some(newCtx) else None
  {
    newCtx := map[];
    var j := 1;
    while j < |children|
      invariant 1 <= j <= |children|
      invariant MatchRecAll(hchildren[1..], children[1..], map[]) ==
                MatchRecAll(hchildren[j..], children[j..], newCtx)
    {
      ok, newCtx := Match(hchildren[j], children[j], newCtx);
      if !ok {
        return;
      }
      j := j + 1;
    }
    ok := true;
  }

  method EvaluateLiteralOpInternal(env: Env, op: LitOp, args: seq<Term>) returns (r: Option<Term>)
    ensures r == EvalLit(env, op, args)
  {
    match op {
      case Ite =>
        if |args| == 3 && args[0].Bool? {
          return Some(args[if args[0].value then 1 else 2]);
        }
        return None;
      case Requires =>
        if |args| == 3 {
          if Ground(args[0]) && !Evaluatable(args[0]) && Ground(args[1]) && !Evaluatable(args[1]) && args[0] == args[1] {
            return Some(args[2]);
          }
        }
        return None;
      case _ =>
    }
    if !AllGround(args) {
      return None;
    }
    match op {
      case IsOk =>
        return if |args| == 1 then Some(Bool(!Evaluatable(args[0]))) else None;
      case IsEq =>
        if |args| != 2 {
          return None;
        }
        return Some(Bool(!Evaluatable(args[0]) && !Evaluatable(args[1]) && args[0] == args[1]));
      case Eq =>
        if |args| == 2 && !Evaluatable(args[0]) && !Evaluatable(args[1]) {
          return Some(Bool(args[0] == args[1]));
        }
        return None;
      case _ =>
    }
    if !IsListOp(op) {
      return env.prim(op, args);
    }
    if AllLiterals(args) || |args| != Arity(op) || args[0] !in env.assoc {
      return None;
    }
    var a := env.assoc[args[0]];
    r := ListOps.EvaluateListOp(op, Assoc(args[0], a.nil, a.isLeft), args);
  }

  /** The evaluated children, none for a child not visited, and whether one has changed. */
  method CollectChildren(evf: Frame, children: seq<Term>) returns (cchildren: seq<Option<Term>>, cchanged: bool)
    ensures |cchildren| == |children|
    ensures forall i | 0 <= i < |children| ::
              cchildren[i] == if IsDone(evf, children[i]) then Some(Val(evf, children[i])) else None
    ensures !cchanged ==> Vals(evf, children) == children
  {
    cchildren, cchanged := [], false;
    for i := 0 to |children|
      invariant |cchildren| == i
      invariant forall j | 0 <= j < i ::
                  cchildren[j] == if IsDone(evf, children[j]) then Some(Val(evf, children[j])) else None
      invariant !cchanged ==> forall j | 0 <= j < i :: Val(evf, children[j]) == children[j]
    {
      var cp := children[i];
      if cp in evf.visited && evf.visited[cp].Some? {
        cchildren := cchildren + [evf.visited[cp]];
        if !cchanged {
          cchanged := cp != evf.visited[cp].value;
        }
      } else {
        cchildren := cchildren + [None];
      }
    }
    assert !cchanged ==> Vals(evf, children) == children;
  }

  /** The body of the inner loop. */
  method VisitTop(env: Env, evf0: Frame, evalTrie0: Memo)
      returns (evf: Frame, evalTrie: Memo, pushed: Option<Frame>)
    requires evf0.visit != [] && StackInv(evf0)
    ensures (evf, evalTrie, pushed) == VisitStep(env, evf0, evalTrie0)
  {
    evf, evalTrie, pushed := evf0, evalTrie0, None;
    var cur := Top(evf);
    if !Evaluatable(cur) && (Ground(cur) || evf.ctx == map[]) {
      evf := Record(evf, cur);
      return;
    }
    if cur.Param? {
      evf := Record(evf, if cur in evf.ctx then evf.ctx[cur] else cur);
      return;
    }
    var children := if cur.Node? then cur.children else [];
    if cur !in evf.visited {
      if cur.Node? && cur.kind == Op(Ite) {
        if |children| != 3 {
          // a malformed if-then-else does not evaluate
          evf := Record(evf, cur);
          return;
        }
        // visit only the condition
        evf := evf.(visited := evf.visited[cur := None], visit := evf.visit + [children[0]]);
      } else {
        evf := evf.(visited := evf.visited[cur := None], visit := evf.visit + children);
      }
      return;
    }
    if evf.visited[cur].Some? {
      evf := evf.(visit := Rest(evf));
      return;
    }
    if !cur.Node? {
      evf := Record(evf, cur);
      return;
    }
    evf, evalTrie, pushed := CombineTop(env, evf, evalTrie);
  }

  /** The case of the inner loop where the children of the top term have been visited. */
  method CombineTop(env: Env, evf0: Frame, evalTrie0: Memo)
      returns (evf: Frame, evalTrie: Memo, pushed: Option<Frame>)
    requires evf0.visit != [] && StackInv(evf0) && IsOpen(evf0, Top(evf0)) && Top(evf0).Node?
    ensures (evf, evalTrie, pushed) == Combine(env, evf0, evalTrie0)
  {
    hide StackInv, SelectCase, EvalLit;
    evf, evalTrie, pushed := evf0, evalTrie0, None;
    var cur := Top(evf);
    var ck, children := cur.kind, cur.children;
    OpenTopServed(evf);
    if ck == Op(Ite) && |children| != 3 {
      evf := Record(evf, cur);
      return;
    }
    var cchildren, cchanged := CollectChildren(evf, children);
    if ck == Op(Ite) {
      assert children[0] in FirstChildren(cur);
      evf := CombineIteTop(evf, cchildren, cchanged);
      return;
    }
    assert forall i | 0 <= i < |children| :: children[i] in FirstChildren(cur);
    var args := seq(|children|, i requires 0 <= i < |children| => cchildren[i].value);
    assert args == Vals(evf, children);
    var evaluated: Option<Term> := None;
    if IsCall(ck, args) {
      if Hit(evalTrie, args) {
        // the call has been evaluated before; a stuck call is run again
        evaluated := evalTrie[args];
      } else {
        var selected := EvaluateProgramInternal(env, args);
        if selected.None? || Immediate(selected.value.0, selected.value.1) {
          evaluated := if selected.Some? then Some(selected.value.0) else None;
          evalTrie := evalTrie[args := evaluated];
        } else {
          // push an evaluation scope
          pushed := Some(NewFrame(selected.value.0, selected.value.1, Some(args)));
          return;
        }
      }
    } else if ck.Op? {
      evaluated := EvaluateLiteralOpInternal(env, ck.op, args);
    }
    if evaluated.None? {
      evaluated := Some(if cchanged then Node(ck, args) else cur);
    }
    evf := Record(evf, evaluated.value);
  }

  /** An if-then-else whose condition is evaluated: it waits for the branches it needs. */
  method CombineIteTop(evf0: Frame, cchildren: seq<Option<Term>>, cchanged: bool) returns (evf: Frame)
    requires evf0.visit != [] && Top(evf0).Node? && Top(evf0).kind == Op(Ite) && |Top(evf0).children| == 3
    requires |cchildren| == 3 && cchildren[0].Some?
    requires forall i | 0 <= i < 3 ::
               cchildren[i] == if IsDone(evf0, Top(evf0).children[i]) then Some(Val(evf0, Top(evf0).children[i])) else None
    requires !cchanged ==> Vals(evf0, Top(evf0).children) == Top(evf0).children
    ensures evf == CombineIte(evf0)
  {
    evf := evf0;
    var cur, children := Top(evf), Top(evf).children;
    var c := cchildren[0].value;
    if c.Bool? {
      // inspect the relevant child only
      var index := if c.value then 1 else 2;
      if cchildren[index].None? {
        evf := evf.(visit := evf.visit + [children[index]]);
      } else {
        evf := Record(evf, cchildren[index].value);
      }
      return;
    }
    var canEvaluate := true;
    for i := 1 to 3
      invariant canEvaluate <==> forall j | 1 <= j < i :: cchildren[j].Some?
      invariant evf == evf0.(visit := evf0.visit + (if i > 1 && cchildren[1].None? then [children[1]] else []) +
                                      (if i > 2 && cchildren[2].None? then [children[2]] else []))
    {
      if cchildren[i].None? {
        evf := evf.(visit := evf.visit + [children[i]]);
        canEvaluate := false;
      }
    }
    if canEvaluate {
      assert Vals(evf0, children) == [c, cchildren[1].value, cchildren[2].value];
      assert evf.visit == evf0.visit;
      evf := Record(evf, if cchanged then Node(Op(Ite), [c, cchildren[1].value, cchildren[2].value]) else cur);
    } else {
      assert evf.visit == evf0.visit + MissingBranches(evf0, children);
    }
  }

  lemma {:induction false} RunSnoc(env: Env, m: Machine, n: nat)
    ensures Run(env, m, n + 1) == Step(env, Run(env, m, n))
  {
    RunAdd(env, m, n, 1);
    assert Run(env, Run(env, m, n), 1) == Run(env, Step(env, Run(env, m, n)), 0);
  }

  /** Evaluation with an explicit stack, cut off after `budget` steps.  A run that ends
      returns the value of the recursive evaluator; by `EvalCompleteness.MachineIsEval`
      some budget suffices exactly when recursive evaluation terminates. */
  method Evaluate(env: Env, e: Term, ctx: Ctx, budget: nat) returns (r: Option<Term>)
    ensures var m := Run(env, Start(e, ctx), budget);
            r == if m.frames == [] then m.evaluated else None
    ensures r.Some? ==> Evaluates(env, e, ctx, r.value)
  {
    hide Run, VisitStep, PopFrame, FrameOk, StackInv, Truths, Linked;
    ghost var start := Start(e, ctx);
    assert Run(env, start, 0) == start by {
      RunZero(env, start);
    }
    var evalTrie: Memo := map[];
    var estack: seq<Frame> := [NewFrame(e, ctx, None)];
    var evaluated: Option<Term> := None;
    var steps := 0;
    while estack != [] && steps < budget
      invariant steps <= budget
      invariant Machine(estack, evalTrie, evaluated) == Run(env, start, steps)
      decreases budget - steps
    {
      var newContext := false;
      ghost var before := steps;
      while estack[|estack| - 1].visit != [] && !newContext && steps < budget
        invariant steps <= budget && estack != []
        invariant before <= steps && (newContext ==> before < steps)
        invariant Machine(estack, evalTrie, evaluated) == Run(env, start, steps)
        decreases budget - steps
      {
        RunSnoc(env, start, steps);
        TopFrameOk(env, e, ctx, steps);
        var top := |estack| - 1;
        var evf, pushed;
        evf, evalTrie, pushed := VisitTop(env, estack[top], evalTrie);
        estack := estack[top := evf];
        if pushed.Some? {
          newContext := true;
          estack := estack + [pushed.value];
        }
        steps := steps + 1;
      }
      if !newContext && steps < budget {
        // the current context is evaluated
        RunSnoc(env, start, steps);
        estack, evalTrie, evaluated := FinishFrame(estack, evalTrie);
        steps := steps + 1;
      }
    }
    HaltedResult(env, e, ctx, steps, budget);
    r := if estack == [] then evaluated else None;
  }

  lemma {:induction false} TopFrameOk(env: Env, e: Term, ctx: Ctx, n: nat)
    requires Run(env, Start(e, ctx), n).frames != []
    ensures var fs := Run(env, Start(e, ctx), n).frames; StackInv(fs[|fs| - 1])
  {
    ReachableOk(env, e, ctx, n);
    var fs := Run(env, Start(e, ctx), n).frames;
    assert FrameOk(env, fs[|fs| - 1]);
  }

  lemma {:induction false} HaltedResult(env: Env, e: Term, ctx: Ctx, n: nat, budget: nat)
    requires n <= budget && (Run(env, Start(e, ctx), n).frames == [] || n == budget)
    ensures var m := Run(env, Start(e, ctx), n);
            m.frames == [] ==>
              Run(env, Start(e, ctx), budget) == m && m.evaluated.Some? &&
              Evaluates(env, e, ctx, m.evaluated.value)
  {
    var m := Run(env, Start(e, ctx), n);
    if m.frames == [] {
      ReachableOk(env, e, ctx, n);
      RunAdd(env, Start(e, ctx), n, budget - n);
      RunHalted(env, m, budget - n);
    }
  }

  /** Pops the frame on top and carries its value to the call table and to the frame below. */
  method FinishFrame(estack0: seq<Frame>, evalTrie0: Memo)
      returns (estack: seq<Frame>, evalTrie: Memo, evaluated: Option<Term>)
    requires estack0 != []
    ensures forall ev :: Machine(estack, evalTrie, evaluated) == PopFrame(Machine(estack0, evalTrie0, ev))
  {
    var evf := estack0[|estack0| - 1];
    evaluated := Some(Val(evf, evf.init));
    evalTrie := if evf.key.Some? then evalTrie0[evf.key.value := evaluated] else evalTrie0;
    estack := estack0[..|estack0| - 1];
    if estack != [] && estack[|estack| - 1].visit != [] {
      estack := estack[|estack| - 1 := Record(estack[|estack| - 1], evaluated.value)];
    }
  }
}
