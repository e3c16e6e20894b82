/** Whenever the recursive evaluator has a value, the machine reaches it. */
module EvalCompleteness {
  import opened Terms
  import opened Evaluation
  import opened EvaluationRules
  import opened EvalMachine
  import opened EvalSoundness

  /** The recorded results are true. */
  ghost predicate Sound(env: Env, f: Frame, memo: Memo) {
    Truths(env, f) && MemoTrue(env, memo)
  }

  /** Every open term is larger than `size`. */
  ghost predicate OpenAbove(f: Frame, size: int) {
    forall t | IsOpen(f, t) :: size < Size(t)
  }

  /** `g` is `f` some steps later, back at the visit stack `visit`, with no other open terms. */
  ghost predicate Later(f: Frame, g: Frame, visit: seq<Term>) {
    && g.init == f.init && g.ctx == f.ctx && g.key == f.key && g.visit == visit
    && (forall t | IsDone(f, t) :: IsDone(g, t))
    && (forall t :: IsOpen(g, t) <==> IsOpen(f, t))
  }

  lemma {:induction false} LaterTrans(f: Frame, g: Frame, h: Frame, visit: seq<Term>, visit': seq<Term>)
    requires Later(f, g, visit) && Later(g, h, visit')
    ensures Later(f, h, visit')
  {
  }

  /** `g` is `f` some steps later, with its open top term recorded and taken off. */
  ghost predicate Recorded(f: Frame, g: Frame) {
    && f.visit != [] && IsDone(g, Top(f))
    && g.init == f.init && g.ctx == f.ctx && g.key == f.key && g.visit == Rest(f)
    && (forall t | IsDone(f, t) :: IsDone(g, t))
    && (forall t :: IsOpen(g, t) <==> IsOpen(f, t) && t != Top(f))
  }

  lemma {:induction false} RecordedRecord(f: Frame, v: Term)
    requires f.visit != [] && IsOpen(f, Top(f))
    ensures Recorded(f, Record(f, v))
  {
  }

  lemma {:induction false} LaterRecorded(f: Frame, f2: Frame, g: Frame)
    requires f.visit != [] && Later(f, f2, f.visit) && Recorded(f2, g)
    ensures Recorded(f, g)
  {
  }

  function State(base: seq<Frame>, f: Frame, memo: Memo, ev: Option<Term>): Machine {
    Machine(base + [f], memo, ev)
  }

  /** One step on a frame with work to do. */
  lemma {:induction false} StepFrame(env: Env, base: seq<Frame>, f: Frame, memo: Memo, ev: Option<Term>)
    requires f.visit != []
    ensures var (g, memo', pushed) := VisitStep(env, f, memo);
            Run(env, State(base, f, memo, ev), 1) ==
            if pushed.Some? then State(base + [g], pushed.value, memo', ev) else State(base, g, memo', ev)
  {
  }

  /** One step on a finished frame. */
  lemma {:induction false} StepPop(env: Env, base: seq<Frame>, f: Frame, g: Frame, memo: Memo, ev: Option<Term>)
    requires g.visit == [] && f.visit != [] && g.key.Some?
    ensures var v := Val(g, g.init);
            Run(env, State(base + [f], g, memo, ev), 1) ==
            State(base, Record(f, v), memo[g.key.value := Some(v)], Some(v))
  {
  }

  /** The recorded values of children that evaluate are the values. */
  lemma {:induction false} ValsAre(env: Env, f: Frame, ts: seq<Term>, fuel: nat)
    requires Truths(env, f) && EvalAll(env, ts, f.ctx, fuel).Some?
    requires forall i | 0 <= i < |ts| :: IsDone(f, ts[i])
    ensures Vals(f, ts) == EvalAll(env, ts, f.ctx, fuel).value
  {
    var vs := EvalAll(env, ts, f.ctx, fuel).value;
    forall i | 0 <= i < |ts| ensures Vals(f, ts)[i] == vs[i] {
      EvalAllElement(env, ts, f.ctx, fuel, i);
      EvaluatesUnique(env, ts[i], f.ctx, Val(f, ts[i]), vs[i]);
    }
  }

  lemma {:induction false} ValIs(env: Env, f: Frame, t: Term, fuel: nat)
    requires Truths(env, f) && Eval(env, t, f.ctx, fuel).Some? && IsDone(f, t)
    ensures Val(f, t) == Eval(env, t, f.ctx, fuel).value
  {
    EvaluatesUnique(env, t, f.ctx, Val(f, t), Eval(env, t, f.ctx, fuel).value);
  }

  /** The machine evaluates the term on top of the frame and comes back with its value recorded. */
  lemma {:induction false} Simulate(env: Env, base: seq<Frame>, f: Frame, memo: Memo, ev: Option<Term>, fuel: nat)
      returns (n: nat, g: Frame, memo': Memo, ev': Option<Term>)
    requires f.visit != [] && Sound(env, f, memo) && OpenAbove(f, Size(Top(f)))
    requires Eval(env, Top(f), f.ctx, fuel).Some?
    ensures Run(env, State(base, f, memo, ev), n) == State(base, g, memo', ev')
    ensures Later(f, g, Rest(f)) && IsDone(g, Top(f)) && Sound(env, g, memo')
    decreases fuel, Size(Top(f)), 3, 0
  {
    hide Eval, EvalAll, Run, Step, Sound, Size, Truths, VisitStep, Later, Recorded;
    var t := Top(f);
    StepFrame(env, base, f, memo, ev);
    if IsDirect(f) {
      n, g, memo', ev' := 1, VisitStep(env, f, memo).0, memo, ev;
      DirectStep(env, f, memo);
    } else {
      var f1 := Open(f);
      OpenStep(env, f, memo);
      OpenSound(env, f, memo);
      FirstChildrenEval(env, t, f.ctx, fuel);
      var n1, f2, memo1, ev1 := SimulateAll(env, base, f1, memo, ev, fuel, f.visit, FirstChildren(t), Size(t));
      OpenLater(f, f2);
      var n2;
      n2, g, memo', ev' := SimulateCombine(env, base, f2, memo1, ev1, fuel);
      n := 1 + n1 + n2;
      RunAdd(env, State(base, f, memo, ev), 1, n1 + n2);
      RunAdd(env, State(base, f1, memo, ev), n1, n2);
      LaterThrough(f, f2, g);
    }
  }

  /** The term on top is recorded, or skipped, in one step. */
  predicate IsDirect(f: Frame)
    requires f.visit != []
  {
    var t := Top(f);
    Unchanged(t, f.ctx) || t.Param? || t in f.visited || (t.Node? && t.kind == Op(Ite) && |t.children| != 3)
  }

  lemma {:induction false} DirectStep(env: Env, f: Frame, memo: Memo)
    requires f.visit != [] && Sound(env, f, memo) && OpenAbove(f, Size(Top(f))) && IsDirect(f)
    ensures var (g, memo', pushed) := VisitStep(env, f, memo);
            memo' == memo && pushed.None? &&
            Later(f, g, Rest(f)) && IsDone(g, Top(f)) && Sound(env, g, memo)
  {
    var t := Top(f);
    if Unchanged(t, f.ctx) || t.Param? || t !in f.visited {
      EvLeaf(env, t, f.ctx);
    }
  }

  lemma {:induction false} OpenStep(env: Env, f: Frame, memo: Memo)
    requires f.visit != [] && !IsDirect(f)
    ensures VisitStep(env, f, memo) == (Open(f), memo, None)
    ensures Open(f) == f.(visited := f.visited[Top(f) := None], visit := f.visit + FirstChildren(Top(f)))
  {
  }

  /** Back at the visit stack of `f`, its top term is open and may be combined. */
  lemma {:induction false} OpenLater(f: Frame, f2: Frame)
    requires f.visit != [] && !IsDirect(f) && Later(Open(f), f2, f.visit)
    requires OpenAbove(f, Size(Top(f)))
    ensures f2.visit == f.visit && Top(f2) == Top(f) && IsOpen(f2, Top(f)) && f2.ctx == f.ctx
    ensures OpenAbove(f2, Size(Top(f)) - 1)
  {
  }

  lemma {:induction false} OpenSound(env: Env, f: Frame, memo: Memo)
    requires f.visit != [] && Sound(env, f, memo) && OpenAbove(f, Size(Top(f))) && !IsDirect(f)
    ensures Sound(env, Open(f), memo) && OpenAbove(Open(f), Size(Top(f)) - 1)
  {
  }

  lemma {:induction false} FirstChildrenEval(env: Env, t: Term, ctx: Ctx, fuel: nat)
    requires !Unchanged(t, ctx) && !t.Param? && Eval(env, t, ctx, fuel).Some?
    ensures forall i | 0 <= i < |FirstChildren(t)| ::
              Size(FirstChildren(t)[i]) < Size(t) && Eval(env, FirstChildren(t)[i], ctx, fuel).Some?
  {
    forall i | 0 <= i < |FirstChildren(t)|
      ensures Size(FirstChildren(t)[i]) < Size(t) && Eval(env, FirstChildren(t)[i], ctx, fuel).Some?
    {
      SizeChild(t, i);
      if t.kind != Op(Ite) {
        EvalAllElement(env, t.children, ctx, fuel, i);
      }
    }
  }

  lemma {:induction false} LaterThrough(f: Frame, f2: Frame, g: Frame)
    requires f.visit != [] && !IsDirect(f)
    requires Later(Open(f), f2, f.visit) && Recorded(f2, g)
    ensures Later(f, g, Rest(f)) && IsDone(g, Top(f))
  {
  }

  /** The machine evaluates the terms pushed on top of `low`, the last one first. */
  lemma {:induction false} SimulateAll(env: Env, base: seq<Frame>, f: Frame, memo: Memo, ev: Option<Term>,
                                       fuel: nat, low: seq<Term>, ts: seq<Term>, bound: nat)
      returns (n: nat, g: Frame, memo': Memo, ev': Option<Term>)
    requires f.visit == low + ts && Sound(env, f, memo) && OpenAbove(f, bound - 1)
    requires forall i | 0 <= i < |ts| :: Size(ts[i]) < bound && Eval(env, ts[i], f.ctx, fuel).Some?
    ensures Run(env, State(base, f, memo, ev), n) == State(base, g, memo', ev')
    ensures Later(f, g, low) && Sound(env, g, memo')
    ensures forall i | 0 <= i < |ts| :: IsDone(g, ts[i])
    decreases fuel, bound, 0, |ts|
  {
    hide Eval, EvalAll, Run, Step, Sound, Size;
    RunZero(env, State(base, f, memo, ev));
    if ts == [] {
      n, g, memo', ev' := 0, f, memo, ev;
    } else {
      var k, front := |ts| - 1, ts[..|ts| - 1];
      assert Top(f) == ts[k] && Rest(f) == low + front;
      assert forall t | IsOpen(f, t) :: Size(ts[k]) < Size(t);
      var n1, f1, memo1, ev1 := Simulate(env, base, f, memo, ev, fuel);
      assert forall t | IsOpen(f1, t) :: bound - 1 < Size(t);
      var n2;
      n2, g, memo', ev' := SimulateAll(env, base, f1, memo1, ev1, fuel, low, front, bound);
      n := n1 + n2;
      RunAdd(env, State(base, f, memo, ev), n1, n2);
      LaterTrans(f, f1, g, low + front, low);
      forall i | 0 <= i < |ts| ensures IsDone(g, ts[i]) {
        if i < k {
          assert IsDone(g, front[i]);
        }
      }
    }
  }

  /** From the open term on top with its first children recorded to its value recorded. */
  lemma {:induction false} SimulateCombine(env: Env, base: seq<Frame>, f: Frame, memo: Memo, ev: Option<Term>, fuel: nat)
      returns (n: nat, g: Frame, memo': Memo, ev': Option<Term>)
    requires f.visit != [] && Sound(env, f, memo) && IsOpen(f, Top(f))
    requires OpenAbove(f, Size(Top(f)) - 1)
    requires !Unchanged(Top(f), f.ctx) && !Top(f).Param?
    requires Top(f).Node? && Top(f).kind == Op(Ite) ==> |Top(f).children| == 3
    requires forall i | 0 <= i < |FirstChildren(Top(f))| :: IsDone(f, FirstChildren(Top(f))[i])
    requires Eval(env, Top(f), f.ctx, fuel).Some?
    ensures Run(env, State(base, f, memo, ev), n) == State(base, g, memo', ev')
    ensures Recorded(f, g) && Sound(env, g, memo')
    decreases fuel, Size(Top(f)), 2, 0
  {
    var t := Top(f);
    if !t.Node? {
      StepFrame(env, base, f, memo, ev);
      EvLeaf(env, t, f.ctx);
      n, g, memo', ev' := 1, Record(f, t), memo, ev;
      RecordedRecord(f, t);
    } else if t.kind == Op(Ite) {
      assert FirstChildren(t) == [t.children[0]] && IsDone(f, FirstChildren(t)[0]);
      n, g, memo', ev' := SimulateIte(env, base, f, memo, ev, fuel);
    } else {
      assert FirstChildren(t) == t.children;
      ValsAre(env, f, t.children, fuel);
      var vs := Vals(f, t.children);
      if IsCall(t.kind, vs) {
        n, g, memo', ev' := SimulateCall(env, base, f, memo, ev, fuel);
      } else {
        StepFrame(env, base, f, memo, ev);
        var v := Reduce(env, t.kind, vs).value;
        n, g, memo', ev' := 1, Record(f, v), memo, ev;
        assert Evaluates(env, t, f.ctx, v);
        RecordedRecord(f, v);
      }
    }
  }

  lemma {:induction false} SimulateIte(env: Env, base: seq<Frame>, f: Frame, memo: Memo, ev: Option<Term>, fuel: nat)
      returns (n: nat, g: Frame, memo': Memo, ev': Option<Term>)
    requires f.visit != [] && Sound(env, f, memo) && IsOpen(f, Top(f))
    requires OpenAbove(f, Size(Top(f)) - 1) && !Unchanged(Top(f), f.ctx)
    requires Top(f).Node? && Top(f).kind == Op(Ite) && |Top(f).children| == 3
    requires IsDone(f, Top(f).children[0])
    requires Eval(env, Top(f), f.ctx, fuel).Some?
    ensures Run(env, State(base, f, memo, ev), n) == State(base, g, memo', ev')
    ensures Recorded(f, g) && Sound(env, g, memo')
    decreases fuel, Size(Top(f)), 1, 0
  {
    hide Eval, EvalAll, Run, Step, Sound, Size, Truths;
    var t, cs := Top(f), Top(f).children;
    var missing := MissingBranches(f, cs);
    MissingEval(env, f, memo, fuel);
    if missing == [] {
      n, g, memo', ev' := RecordIte(env, base, f, memo, ev, fuel);
    } else {
      StepFrame(env, base, f, memo, ev);
      var f1 := CombineIte(f);
      assert VisitStep(env, f, memo) == (f1, memo, None);
      PushSound(env, f, memo, missing);
      var n1, f2, memo1, ev1 := SimulateAll(env, base, f1, memo, ev, fuel, f.visit, missing, Size(t));
      assert forall t :: IsOpen(f1, t) <==> IsOpen(f, t);
      assert Later(f, f2, f.visit);
      NothingMissing(env, f, memo, f2, memo1, fuel);
      var n2;
      n2, g, memo', ev' := RecordIte(env, base, f2, memo1, ev1, fuel);
      n := 1 + n1 + n2;
      RunAdd(env, State(base, f, memo, ev), 1, n1 + n2);
      RunAdd(env, State(base, f1, memo, ev), n1, n2);
      LaterRecorded(f, f2, g);
    }
  }

  lemma {:induction false} MissingEval(env: Env, f: Frame, memo: Memo, fuel: nat)
    requires f.visit != [] && Sound(env, f, memo) && !Unchanged(Top(f), f.ctx)
    requires Top(f).Node? && Top(f).kind == Op(Ite) && |Top(f).children| == 3
    requires IsDone(f, Top(f).children[0]) && Eval(env, Top(f), f.ctx, fuel).Some?
    ensures var missing := MissingBranches(f, Top(f).children);
            forall i | 0 <= i < |missing| ::
              Size(missing[i]) < Size(Top(f)) && Eval(env, missing[i], f.ctx, fuel).Some?
    ensures Eval(env, Top(f).children[0], f.ctx, fuel).Some?
  {
    ValIs(env, f, Top(f).children[0], fuel);
    SizeChild(Top(f), 1);
    SizeChild(Top(f), 2);
  }

  lemma {:induction false} PushSound(env: Env, f: Frame, memo: Memo, more: seq<Term>)
    requires Sound(env, f, memo)
    ensures Sound(env, f.(visit := f.visit + more), memo)
  {
  }

  /** Once the missing branches are recorded, none is missing: the condition kept its value. */
  lemma {:induction false} NothingMissing(env: Env, f: Frame, memo: Memo, g: Frame, memo': Memo, fuel: nat)
    requires f.visit != [] && Sound(env, f, memo) && Sound(env, g, memo') && Later(f, g, f.visit)
    requires Top(f).Node? && |Top(f).children| == 3 && IsDone(f, Top(f).children[0])
    requires Eval(env, Top(f).children[0], f.ctx, fuel).Some?
    requires var missing := MissingBranches(f, Top(f).children);
             forall i | 0 <= i < |missing| :: IsDone(g, missing[i])
    ensures MissingBranches(g, Top(f).children) == []
  {
    var cs := Top(f).children;
    var missing := MissingBranches(f, cs);
    ValIs(env, f, cs[0], fuel);
    ValIs(env, g, cs[0], fuel);
    forall c | c in missing ensures IsDone(g, c) {
    }
    if !Val(f, cs[0]).Bool? {
      assert IsDone(f, cs[1]) || cs[1] in missing;
      assert IsDone(f, cs[2]) || cs[2] in missing;
    } else {
      var b := cs[if Val(f, cs[0]).value then 1 else 2];
      assert IsDone(f, b) || b in missing;
    }
  }

  lemma {:induction false} RecordIte(env: Env, base: seq<Frame>, f: Frame, memo: Memo, ev: Option<Term>, fuel: nat)
      returns (n: nat, g: Frame, memo': Memo, ev': Option<Term>)
    requires f.visit != [] && Sound(env, f, memo) && IsOpen(f, Top(f)) && !Unchanged(Top(f), f.ctx)
    requires Top(f).Node? && Top(f).kind == Op(Ite) && |Top(f).children| == 3
    requires IsDone(f, Top(f).children[0]) && MissingBranches(f, Top(f).children) == []
    ensures Run(env, State(base, f, memo, ev), n) == State(base, g, memo', ev')
    ensures Recorded(f, g) && Sound(env, g, memo')
  {
    var t, cs := Top(f), Top(f).children;
    StepFrame(env, base, f, memo, ev);
    n, g, memo', ev' := 1, CombineIte(f), memo, ev;
    var c := Val(f, cs[0]);
    if c.Bool? {
      EvIteBool(env, t, f.ctx, c, Val(f, cs[if c.value then 1 else 2]));
    } else {
      assert forall i | 0 <= i < 3 :: IsDone(f, cs[i]);
      ValsTrue(env, f, cs);
      EvIteStuck(env, t, f.ctx, Vals(f, cs));
    }
  }

  lemma {:induction false} SimulateCall(env: Env, base: seq<Frame>, f: Frame, memo: Memo, ev: Option<Term>, fuel: nat)
      returns (n: nat, g: Frame, memo': Memo, ev': Option<Term>)
    requires f.visit != [] && Sound(env, f, memo) && IsOpen(f, Top(f)) && !Unchanged(Top(f), f.ctx)
    requires Top(f).Node? && Top(f).kind != Op(Ite) && IsCall(Top(f).kind, Vals(f, Top(f).children))
    requires EvalAll(env, Top(f).children, f.ctx, fuel) == Some(Vals(f, Top(f).children))
    requires Eval(env, Top(f), f.ctx, fuel).Some?
    ensures Run(env, State(base, f, memo, ev), n) == State(base, g, memo', ev')
    ensures Recorded(f, g) && Sound(env, g, memo')
    decreases fuel, Size(Top(f)), 1, 0
  {
    hide EvalAll, Run, Step, Size, VisitStep, CombineCall, Recorded, SelectCase, EvalLit;
    var t := Top(f);
    var vs := Vals(f, t.children);
    var v := Eval(env, t, f.ctx, fuel).value;
    assert Evaluates(env, t, f.ctx, v);
    StepFrame(env, base, f, memo, ev);
    CallStep(env, f, memo);
    if Hit(memo, vs) || Reduce(env, t.kind, vs).Done? {
      n, g, memo', ev' := 1, CombineCall(env, f, memo).0, CombineCall(env, f, memo).1, ev;
      CallWithoutFrame(env, f, memo, fuel);
    } else {
      var body, c := Reduce(env, t.kind, vs).body, Reduce(env, t.kind, vs).ctx;
      var h := NewFrame(body, c, Some(vs));
      NewFrameOk(env, body, c, Some(vs));
      var n1, h', memo1, ev1 := Simulate(env, base + [f], h, memo, ev, fuel - 1);
      ValIs(env, h', body, fuel - 1);
      StepPop(env, base, f, h', memo1, ev1);
      n, g, memo', ev' := 1 + n1 + 1, Record(f, v), memo1[vs := Some(v)], Some(v);
      assert Evaluates(env, body, c, v) && EntryTrue(env, vs, Some(v));
      RecordedRecord(f, v);
      RunAdd(env, State(base, f, memo, ev), 1, n1 + 1);
      RunAdd(env, State(base + [f], h, memo, ev), n1, 1);
    }
  }

  lemma {:induction false} CallStep(env: Env, f: Frame, memo: Memo)
    requires f.visit != [] && IsOpen(f, Top(f)) && !Unchanged(Top(f), f.ctx)
    requires Top(f).Node? && Top(f).kind != Op(Ite) && IsCall(Top(f).kind, Vals(f, Top(f).children))
    ensures VisitStep(env, f, memo) == CombineCall(env, f, memo)
    ensures var vs := Vals(f, Top(f).children);
            !Hit(memo, vs) && Reduce(env, Top(f).kind, vs).Enter? ==>
              var o := Reduce(env, Top(f).kind, vs);
              CombineCall(env, f, memo) == (f, memo, Some(NewFrame(o.body, o.ctx, Some(vs))))
  {
  }

  /** A call that needs no frame records the value of the recursive evaluator. */
  lemma {:induction false} CallWithoutFrame(env: Env, f: Frame, memo: Memo, fuel: nat)
    requires f.visit != [] && Sound(env, f, memo) && IsOpen(f, Top(f)) && !Unchanged(Top(f), f.ctx)
    requires Top(f).Node? && Top(f).kind != Op(Ite) && IsCall(Top(f).kind, Vals(f, Top(f).children))
    requires EvalAll(env, Top(f).children, f.ctx, fuel) == Some(Vals(f, Top(f).children))
    requires Eval(env, Top(f), f.ctx, fuel).Some?
    requires Hit(memo, Vals(f, Top(f).children)) || Reduce(env, Top(f).kind, Vals(f, Top(f).children)).Done?
    ensures var (g, memo', pushed) := CombineCall(env, f, memo);
            Recorded(f, g) && Sound(env, g, memo') && pushed.None?
  {
    var t := Top(f);
    var k, vs, v := t.kind, Vals(f, t.children), Eval(env, t, f.ctx, fuel).value;
    assert Evaluates(env, t, f.ctx, v);
    RecordedRecord(f, v);
    if Hit(memo, vs) {
      assert EntryTrue(env, vs, memo[vs]);
      match Reduce(env, k, vs)
      case Done(_) =>
      case Enter(body, c) =>
        assert Evaluates(env, body, c, v);
        EvaluatesUnique(env, body, c, memo[vs].value, v);
    }
    assert CombineCall(env, f, memo).0 == Record(f, v);
  }

  /** The machine halts with the value whenever the recursive evaluator has one. */
  lemma {:induction false} Reaches(env: Env, e: Term, ctx: Ctx, v: Term)
    requires Evaluates(env, e, ctx, v)
    ensures Halts(env, e, ctx, v)
  {
    hide Eval, Run, Step, Size;
    var fuel: nat :| Eval(env, e, ctx, fuel) == Some(v);
    var f := NewFrame(e, ctx, None);
    NewFrameOk(env, e, ctx, None);
    assert Start(e, ctx) == State([], f, map[], None);
    var n, g, memo, ev := Simulate(env, [], f, map[], None, fuel);
    ValIs(env, g, e, fuel);
    LastStep(env, g, memo, ev);
    RunAdd(env, Start(e, ctx), n, 1);
  }

  /** The bottom frame is popped when all its work is done. */
  lemma {:induction false} LastStep(env: Env, g: Frame, memo: Memo, ev: Option<Term>)
    requires g.visit == [] && g.key.None?
    ensures Run(env, State([], g, memo, ev), 1) == Machine([], memo, Some(Val(g, g.init)))
  {
  }

  /** The machine computes exactly the recursive evaluator: it halts with `v` if and only
      if recursive evaluation terminates with `v`. */
  lemma {:induction false} MachineIsEval(env: Env, e: Term, ctx: Ctx, v: Term)
    ensures Halts(env, e, ctx, v) <==> Evaluates(env, e, ctx, v)
  {
    if Halts(env, e, ctx, v) {
      var n: nat :| var m := Run(env, Start(e, ctx), n); m.frames == [] && m.evaluated == Some(v);
      ReachableOk(env, e, ctx, n);
    }
    if Evaluates(env, e, ctx, v) {
      Reaches(env, e, ctx, v);
    }
  }
}
