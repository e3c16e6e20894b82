/** The evaluation machine: a stack of frames, each with a stack of terms to visit and
    a table of results, and one table of program calls shared by all frames. */
module EvalMachine {
  import opened Terms
  import opened Evaluation

  /** `visited` maps a term to none while its children are evaluated, and to its value
      afterwards.  `key` says which program call the frame evaluates. */
  datatype Frame = Frame(init: Term, ctx: Ctx, visited: map<Term, Option<Term>>,
                         visit: seq<Term>, key: Option<seq<Term>>)

  /** The values of program calls; none, and so no hit, for a call that is stuck. */
  type Memo = map<seq<Term>, Option<Term>>

  datatype Machine = Machine(frames: seq<Frame>, memo: Memo, evaluated: Option<Term>)

  function NewFrame(init: Term, ctx: Ctx, key: Option<seq<Term>>): Frame {
    Frame(init, ctx, map[], [init], key)
  }

  function Start(e: Term, ctx: Ctx): Machine {
    Machine([NewFrame(e, ctx, None)], map[], None)
  }

  predicate IsDone(f: Frame, t: Term) {
    t in f.visited && f.visited[t].Some?
  }

  predicate IsOpen(f: Frame, t: Term) {
    t in f.visited && f.visited[t].None?
  }

  function Top(f: Frame): Term
    requires f.visit != []
  {
    f.visit[|f.visit| - 1]
  }

  function Rest(f: Frame): seq<Term>
    requires f.visit != []
  {
    f.visit[..|f.visit| - 1]
  }

  /** The recorded value of a visited child. */
  function Val(f: Frame, t: Term): Term {
    if IsDone(f, t) then f.visited[t].value else t
  }

  function Vals(f: Frame, ts: seq<Term>): seq<Term> {
    seq(|ts|, i requires 0 <= i < |ts| => Val(f, ts[i]))
  }

  /** The term on top has the value `v`. */
  function Record(f: Frame, v: Term): Frame
    requires f.visit != []
  {
    f.(visited := f.visited[Top(f) := Some(v)], visit := Rest(f))
  }

  /** The children that are evaluated first: of an if-then-else, only the condition. */
  function FirstChildren(t: Term): seq<Term> {
    if !t.Node? then []
    else if t.kind == Op(Ite) then (if |t.children| == 3 then [t.children[0]] else [])
    else t.children
  }

  function Open(f: Frame): Frame
    requires f.visit != []
  {
    var cur := Top(f);
    if cur.Node? && cur.kind == Op(Ite) && |cur.children| != 3 then Record(f, cur)
    else f.(visited := f.visited[cur := None], visit := f.visit + FirstChildren(cur))
  }

  /** The branches of an if-then-else that are still to be evaluated, given the value of
      its condition. */
  function MissingBranches(f: Frame, cs: seq<Term>): seq<Term>
    requires |cs| == 3
  {
    var c := Val(f, cs[0]);
    if c.Bool? then
      var branch := cs[if c.value then 1 else 2];
      if IsDone(f, branch) then [] else [branch]
    else
      (if IsDone(f, cs[1]) then [] else [cs[1]]) + (if IsDone(f, cs[2]) then [] else [cs[2]])
  }

  function CombineIte(f: Frame): Frame
    requires f.visit != [] && Top(f).Node? && |Top(f).children| == 3
  {
    var cs := Top(f).children;
    var missing := MissingBranches(f, cs);
    if missing != [] then f.(visit := f.visit + missing)
    else
      var c := Val(f, cs[0]);
      Record(f, if c.Bool? then Val(f, cs[if c.value then 1 else 2]) else Node(Op(Ite), Vals(f, cs)))
  }

  predicate Hit(memo: Memo, vs: seq<Term>) {
    vs in memo && memo[vs].Some?
  }

  /** One step of the inner loop: the frame, the call table, and a frame to push. */
  function CombineCall(env: Env, f: Frame, memo: Memo): (Frame, Memo, Option<Frame>)
    requires f.visit != [] && Top(f).Node?
  {
    var k, vs := Top(f).kind, Vals(f, Top(f).children);
    if Hit(memo, vs) then (Record(f, memo[vs].value), memo, None)
    else match SelectCase(env, vs)
      case None => (Record(f, Node(k, vs)), memo[vs := None], None)
      case Some((body, c)) =>
        if Immediate(body, c) then (Record(f, body), memo[vs := Some(body)], None)
        else (f, memo, Some(NewFrame(body, c, Some(vs))))
  }

  function Combine(env: Env, f: Frame, memo: Memo): (Frame, Memo, Option<Frame>)
    requires f.visit != []
  {
    var cur := Top(f);
    if !cur.Node? then (Record(f, cur), memo, None)
    else if cur.kind == Op(Ite) then
      (if |cur.children| == 3 then (CombineIte(f), memo, None) else (Record(f, cur), memo, None))
    else
      var vs := Vals(f, cur.children);
      if IsCall(cur.kind, vs) then CombineCall(env, f, memo)
      else
        match Reduce(env, cur.kind, vs)
        case Done(v) => (Record(f, v), memo, None)
        case Enter(_, _) => (f, memo, None)
  }

  function VisitStep(env: Env, f: Frame, memo: Memo): (Frame, Memo, Option<Frame>)
    requires f.visit != []
  {
    var cur := Top(f);
    if Unchanged(cur, f.ctx) then (Record(f, cur), memo, None)
    else if cur.Param? then (Record(f, if cur in f.ctx then f.ctx[cur] else cur), memo, None)
    else if cur !in f.visited then (Open(f), memo, None)
    else if f.visited[cur].Some? then (f.(visit := Rest(f)), memo, None)
    else Combine(env, f, memo)
  }

  /** The frame on top is finished: its value goes to the call table and to the frame below. */
  function PopFrame(m: Machine): Machine
    requires m.frames != []
  {
    var n := |m.frames| - 1;
    var f := m.frames[n];
    var v := Val(f, f.init);
    var memo := if f.key.Some? then m.memo[f.key.value := Some(v)] else m.memo;
    var below := m.frames[..n];
    if n == 0 || below[n - 1].visit == [] then Machine(below, memo, Some(v))
    else Machine(below[n - 1 := Record(below[n - 1], v)], memo, Some(v))
  }

  function Step(env: Env, m: Machine): Machine {
    if m.frames == [] then m
    else
      var n := |m.frames| - 1;
      if m.frames[n].visit == [] then PopFrame(m)
      else
        var (f, memo, pushed) := VisitStep(env, m.frames[n], m.memo);
        var frames := m.frames[n := f];
        Machine(if pushed.Some? then frames + [pushed.value] else frames, memo, m.evaluated)
  }

  function Run(env: Env, m: Machine, n: nat): Machine
    decreases n
  {
    if n == 0 then m else Run(env, Step(env, m), n - 1)
  }

  lemma {:induction false} RunZero(env: Env, m: Machine)
    ensures Run(env, m, 0) == m
  {
  }

  lemma {:induction false} RunAdd(env: Env, m: Machine, a: nat, b: nat)
    ensures Run(env, m, a + b) == Run(env, Run(env, m, a), b)
    decreases a
  {
    hide Step;
    if a > 0 {
      RunAdd(env, Step(env, m), a - 1, b);
    }
  }

  lemma {:induction false} RunHalted(env: Env, m: Machine, n: nat)
    requires m.frames == []
    ensures Run(env, m, n) == m
    decreases n
  {
    if n > 0 {
      RunHalted(env, m, n - 1);
    }
  }

  /** The machine started on `e` halts with `v`. */
  ghost predicate Halts(env: Env, e: Term, ctx: Ctx, v: Term) {
    exists n: nat ::
      var m := Run(env, Start(e, ctx), n);
      m.frames == [] && m.evaluated == Some(v)
  }
}

/** The values that evaluation gives to composite terms. */
module EvaluationRules {
  import opened Terms
  import opened Evaluation

  lemma {:induction false} EvLeaf(env: Env, t: Term, ctx: Ctx)
    requires !t.Node? || Unchanged(t, ctx) || (t.kind == Op(Ite) && |t.children| != 3)
    ensures Evaluates(env, t, ctx,
              if !Unchanged(t, ctx) && t.Param? && t in ctx then ctx[t] else t)
  {
    assert Eval(env, t, ctx, 0).Some?;
  }

  lemma {:induction false} EvIteBool(env: Env, t: Term, ctx: Ctx, c: Term, v: Term)
    requires !Unchanged(t, ctx) && t.Node? && t.kind == Op(Ite) && |t.children| == 3
    requires Evaluates(env, t.children[0], ctx, c) && c.Bool?
    requires Evaluates(env, t.children[if c.value then 1 else 2], ctx, v)
    ensures Evaluates(env, t, ctx, v)
  {
    var b := t.children[if c.value then 1 else 2];
    var n: nat :| Eval(env, t.children[0], ctx, n) == Some(c);
    var m: nat :| Eval(env, b, ctx, m) == Some(v);
    EvalMono(env, t.children[0], ctx, n, n + m);
    EvalMono(env, b, ctx, m, n + m);
    assert Eval(env, t, ctx, n + m) == Some(v);
  }

  lemma {:induction false} EvIteStuck(env: Env, t: Term, ctx: Ctx, vs: seq<Term>)
    requires !Unchanged(t, ctx) && t.Node? && t.kind == Op(Ite) && |t.children| == 3
    requires EvaluatesAll(env, t.children, ctx, vs) && !vs[0].Bool?
    ensures Evaluates(env, t, ctx, Node(Op(Ite), vs))
  {
    var n := CommonFuel(env, t.children, ctx, vs);
    forall i | 0 <= i < 3 ensures Eval(env, t.children[i], ctx, n) == Some(vs[i]) {
      EvalAllElement(env, t.children, ctx, n, i);
    }
    assert vs == [vs[0], vs[1], vs[2]];
    assert Eval(env, t, ctx, n) == Some(Node(Op(Ite), vs));
  }

  /** The outcome of reducing evaluated children has the value `v`. */
  ghost predicate OutcomeEvaluates(env: Env, o: Outcome, v: Term) {
    match o
    case Done(w) => w == v
    case Enter(body, c) => Evaluates(env, body, c, v)
  }

  lemma {:induction false} EvNode(env: Env, t: Term, ctx: Ctx, vs: seq<Term>, v: Term)
    requires !Unchanged(t, ctx) && t.Node? && t.kind != Op(Ite)
    requires EvaluatesAll(env, t.children, ctx, vs)
    requires OutcomeEvaluates(env, Reduce(env, t.kind, vs), v)
    ensures Evaluates(env, t, ctx, v)
  {
    hide Reduce, EvalAll;
    var n := CommonFuel(env, t.children, ctx, vs);
    match Reduce(env, t.kind, vs)
    case Done(_) =>
      assert Eval(env, t, ctx, n) == Some(v);
    case Enter(body, c) =>
      var m: nat :| Eval(env, body, c, m) == Some(v);
      EvalAllMono(env, t.children, ctx, n, n + m + 1);
      EvalMono(env, body, c, m, n + m);
      assert Eval(env, t, ctx, n + m + 1) == Some(v);
  }
}

/** Everything the machine records is true, so every run that halts returns the value
    of the recursive evaluator. */
module EvalSoundness {
  import opened Terms
  import opened Evaluation
  import opened EvaluationRules
  import opened EvalMachine

  ghost predicate Truths(env: Env, f: Frame) {
    forall t | IsDone(f, t) :: Evaluates(env, t, f.ctx, f.visited[t].value)
  }

  ghost predicate EntryTrue(env: Env, key: seq<Term>, r: Option<Term>) {
    match SelectCase(env, key)
    case None => r.None?
    case Some((body, c)) =>
      r.Some? && if Immediate(body, c) then r.value == body else Evaluates(env, body, c, r.value)
  }

  /** Every entry of the call table, also one for a stuck call, is the true result. */
  ghost predicate MemoTrue(env: Env, memo: Memo) {
    forall key | key in memo :: EntryTrue(env, key, memo[key])
  }

  /** The children to evaluate first are recorded, or above the position of `t`. */
  ghost predicate Served(f: Frame, t: Term, i: nat)
    requires i < |f.visit|
  {
    forall c | c in FirstChildren(t) :: IsDone(f, c) || c in f.visit[i + 1..]
  }

  /** The discipline of the visit stack. */
  ghost predicate StackInv(f: Frame) {
    && (forall t | IsOpen(f, t) :: !Unchanged(t, f.ctx) && !t.Param? && exists i: nat :: Tops(f.visit, t, i))
    && (forall t, i: nat | IsOpen(f, t) && Tops(f.visit, t, i) :: Served(f, t, i))
    && (IsDone(f, f.init) || f.init in f.visit)
  }

  ghost predicate FrameOk(env: Env, f: Frame) {
    Truths(env, f) && StackInv(f)
  }

  /** The frame above evaluates the body of the call on top of the frame below. */
  ghost predicate Linked(env: Env, below: Frame, above: Frame) {
    below.visit != [] &&
    var cur := Top(below);
    IsOpen(below, cur) && cur.Node? && cur.kind != Op(Ite) &&
    (forall i | 0 <= i < |cur.children| :: IsDone(below, cur.children[i])) &&
    var vs := Vals(below, cur.children);
    IsCall(cur.kind, vs) && above.key == Some(vs) &&
    SelectCase(env, vs) == Some((above.init, above.ctx)) && !Immediate(above.init, above.ctx)
  }

  ghost predicate MachineInv(env: Env, e: Term, ctx: Ctx, m: Machine) {
    && MemoTrue(env, m.memo)
    && (forall i | 0 <= i < |m.frames| :: FrameOk(env, m.frames[i]))
    && (forall i | 0 < i < |m.frames| :: Linked(env, m.frames[i - 1], m.frames[i]))
    && (if m.frames == [] then m.evaluated.Some? && Evaluates(env, e, ctx, m.evaluated.value)
        else m.frames[0].init == e && m.frames[0].ctx == ctx && m.frames[0].key.None?)
  }

  // ----- the visit stack -----

  /** Taking the top off, once it is recorded, keeps the discipline. */
  lemma {:induction false} ServedPop(f: Frame, g: Frame, t: Term, i: nat)
    requires f.visit != [] && g.visit == Rest(f) && i < |g.visit| && Served(f, t, i) && IsDone(g, Top(f))
    requires forall c | IsDone(f, c) :: IsDone(g, c)
    ensures Served(g, t, i)
  {
    forall c | c in FirstChildren(t) ensures IsDone(g, c) || c in g.visit[i + 1..] {
      if c != Top(f) && !IsDone(g, c) {
        assert !IsDone(f, c);
        var j :| i + 1 <= j < |f.visit| && f.visit[j] == c;
        assert g.visit[i + 1..][j - i - 1] == c;
      }
    }
  }

  lemma {:induction false} StackPop(f: Frame, g: Frame)
    requires f.visit != [] && StackInv(f)
    requires g.init == f.init && g.ctx == f.ctx && g.visit == Rest(f)
    requires IsDone(g, Top(f))
    requires forall t | t != Top(f) :: (t in f.visited <==> t in g.visited) && (t in f.visited ==> f.visited[t] == g.visited[t])
    ensures StackInv(g)
  {
    var n := |f.visit| - 1;
    forall t | IsOpen(g, t)
      ensures !Unchanged(t, g.ctx) && !t.Param? && exists i: nat :: Tops(g.visit, t, i)
    {
      assert IsOpen(f, t);
      var i: nat :| Tops(f.visit, t, i);
      assert Tops(g.visit, t, i);
    }
    forall t, i: nat | IsOpen(g, t) && Tops(g.visit, t, i)
      ensures Served(g, t, i)
    {
      assert IsOpen(f, t);
      var k: nat :| Tops(f.visit, t, k);
      assert Tops(g.visit, t, k);
      TopsUnique(g.visit, t, i, k);
      ServedPop(f, g, t, i);
    }
    if !IsDone(g, g.init) {
      var j :| 0 <= j < |f.visit| && f.visit[j] == f.init;
      assert j < n;
      assert g.visit[j] == g.init;
    }
  }

  /** `g` is `f` with its top term open and `more` smaller terms pushed. */
  ghost predicate Pushes(f: Frame, g: Frame, more: seq<Term>) {
    && f.visit != []
    && g == f.(visited := f.visited[Top(f) := None], visit := f.visit + more)
    && StackInv(f) && !IsDone(f, Top(f)) && !Unchanged(Top(f), f.ctx) && !Top(f).Param?
    && (forall i | 0 <= i < |more| :: Size(more[i]) < Size(Top(f)))
    && (IsOpen(f, Top(f)) || forall c | c in FirstChildren(Top(f)) :: c in more)
  }

  lemma {:induction false} PushTops(f: Frame, g: Frame, more: seq<Term>, t: Term) returns (i: nat)
    requires Pushes(f, g, more) && IsOpen(g, t)
    ensures Tops(g.visit, t, i)
    ensures t == Top(f) ==> i == |f.visit| - 1
    ensures t != Top(f) ==> Tops(f.visit, t, i)
  {
    if t == Top(f) {
      i := |f.visit| - 1;
    } else {
      assert IsOpen(f, t);
      i :| Tops(f.visit, t, i);
      assert Size(Top(f)) < Size(t);
    }
  }

  lemma {:induction false} PushServed(f: Frame, g: Frame, more: seq<Term>, t: Term, i: nat)
    requires Pushes(f, g, more) && IsOpen(g, t) && Tops(g.visit, t, i)
    ensures Served(g, t, i)
  {
    var k := PushTops(f, g, more, t);
    TopsUnique(g.visit, t, i, k);
    if t == Top(f) && !IsOpen(f, t) {
      assert g.visit[i + 1..] == more;
    } else {
      assert Served(f, t, i);
      assert g.visit[i + 1..] == f.visit[i + 1..] + more;
    }
  }

  /** Pushing smaller terms on top of an open term keeps the discipline. */
  lemma {:induction false} StackPush(f: Frame, g: Frame, more: seq<Term>)
    requires Pushes(f, g, more)
    ensures StackInv(g)
  {
    forall t | IsOpen(g, t)
      ensures !Unchanged(t, g.ctx) && !t.Param? && exists i: nat :: Tops(g.visit, t, i)
    {
      var i := PushTops(f, g, more, t);
      assert t != Top(f) ==> IsOpen(f, t);
    }
    forall t, i: nat | IsOpen(g, t) && Tops(g.visit, t, i) ensures Served(g, t, i) {
      PushServed(f, g, more, t, i);
    }
    if !IsDone(f, f.init) {
      assert f.init in g.visit;
    }
  }

  /** An open term is on top only once its first children are recorded. */
  lemma {:induction false} OpenTopServed(f: Frame)
    requires f.visit != [] && StackInv(f) && IsOpen(f, Top(f))
    ensures forall c | c in FirstChildren(Top(f)) :: IsDone(f, c)
  {
  }

  // ----- one step -----

  lemma {:induction false} RecordOk(env: Env, f: Frame, v: Term)
    requires f.visit != [] && FrameOk(env, f) && Evaluates(env, Top(f), f.ctx, v)
    ensures FrameOk(env, Record(f, v))
  {
    StackPop(f, Record(f, v));
  }

  lemma {:induction false} OpenOk(env: Env, f: Frame)
    requires f.visit != [] && FrameOk(env, f)
    requires !Unchanged(Top(f), f.ctx) && !Top(f).Param? && Top(f) !in f.visited
    ensures FrameOk(env, Open(f))
  {
    var cur := Top(f);
    if cur.Node? && cur.kind == Op(Ite) && |cur.children| != 3 {
      EvLeaf(env, cur, f.ctx);
      RecordOk(env, f, cur);
    } else {
      var more := FirstChildren(cur);
      forall i | 0 <= i < |more| ensures Size(more[i]) < Size(cur) {
        SizeChild(cur, i);
      }
      StackPush(f, Open(f), more);
      forall t | IsDone(Open(f), t) ensures IsDone(f, t) {
      }
    }
  }

  lemma {:induction false} ValsTrue(env: Env, f: Frame, ts: seq<Term>)
    requires Truths(env, f) && forall i | 0 <= i < |ts| :: IsDone(f, ts[i])
    ensures EvaluatesAll(env, ts, f.ctx, Vals(f, ts))
  {
  }

  lemma {:induction false} CombineIteOk(env: Env, f: Frame)
    requires f.visit != [] && FrameOk(env, f) && IsOpen(f, Top(f))
    requires Top(f).Node? && Top(f).kind == Op(Ite) && |Top(f).children| == 3
    ensures FrameOk(env, CombineIte(f))
  {
    OpenTopServed(f);
    var cur, cs := Top(f), Top(f).children;
    assert cs[0] in FirstChildren(cur);
    var missing := MissingBranches(f, cs);
    var c := Val(f, cs[0]);
    if missing != [] {
      forall i | 0 <= i < |missing| ensures Size(missing[i]) < Size(cur) {
        SizeChild(cur, 1);
        SizeChild(cur, 2);
      }
      assert f.visited[cur := None] == f.visited;
      StackPush(f, CombineIte(f), missing);
    } else if c.Bool? {
      var b := cs[if c.value then 1 else 2];
      EvIteBool(env, cur, f.ctx, c, Val(f, b));
      RecordOk(env, f, Val(f, b));
    } else {
      assert forall i | 0 <= i < 3 :: IsDone(f, cs[i]);
      ValsTrue(env, f, cs);
      EvIteStuck(env, cur, f.ctx, Vals(f, cs));
      RecordOk(env, f, Node(Op(Ite), Vals(f, cs)));
    }
  }

  lemma {:induction false} CombineCallOk(env: Env, f: Frame, memo: Memo)
    requires f.visit != [] && FrameOk(env, f) && MemoTrue(env, memo) && IsOpen(f, Top(f))
    requires Top(f).Node? && Top(f).kind != Op(Ite) && IsCall(Top(f).kind, Vals(f, Top(f).children))
    ensures var (g, memo', pushed) := CombineCall(env, f, memo);
            FrameOk(env, g) && MemoTrue(env, memo') &&
            (pushed.Some? ==> g == f && FrameOk(env, pushed.value) && Linked(env, g, pushed.value))
  {
    OpenTopServed(f);
    var cur := Top(f);
    var vs := Vals(f, cur.children);
    ValsTrue(env, f, cur.children);
    if Hit(memo, vs) {
      assert EntryTrue(env, vs, memo[vs]);
      EvNode(env, cur, f.ctx, vs, memo[vs].value);
      RecordOk(env, f, memo[vs].value);
    } else {
      match SelectCase(env, vs)
      case None =>
        EvNode(env, cur, f.ctx, vs, Node(cur.kind, vs));
        RecordOk(env, f, Node(cur.kind, vs));
      case Some((body, c)) =>
        if Immediate(body, c) {
          EvNode(env, cur, f.ctx, vs, body);
          RecordOk(env, f, body);
        } else {
          NewFrameOk(env, body, c, Some(vs));
        }
    }
  }

  lemma {:induction false} NewFrameOk(env: Env, init: Term, ctx: Ctx, key: Option<seq<Term>>)
    ensures FrameOk(env, NewFrame(init, ctx, key))
  {
  }

  lemma {:induction false} VisitOk(env: Env, f: Frame, memo: Memo)
    requires f.visit != [] && FrameOk(env, f) && MemoTrue(env, memo)
    ensures var (g, memo', pushed) := VisitStep(env, f, memo);
            g.init == f.init && g.ctx == f.ctx && g.key == f.key &&
            FrameOk(env, g) && MemoTrue(env, memo') &&
            (pushed.Some? ==> g == f && FrameOk(env, pushed.value) && Linked(env, g, pushed.value))
  {
    var cur := Top(f);
    if Unchanged(cur, f.ctx) || cur.Param? {
      EvLeaf(env, cur, f.ctx);
      RecordOk(env, f, VisitStep(env, f, memo).0.visited[cur].value);
    } else if cur !in f.visited {
      OpenOk(env, f);
    } else if f.visited[cur].Some? {
      StackPop(f, f.(visit := Rest(f)));
    } else {
      CombineOk(env, f, memo);
    }
  }

  lemma {:induction false} CombineOk(env: Env, f: Frame, memo: Memo)
    requires f.visit != [] && FrameOk(env, f) && MemoTrue(env, memo) && IsOpen(f, Top(f))
    ensures var (g, memo', pushed) := Combine(env, f, memo);
            g.init == f.init && g.ctx == f.ctx && g.key == f.key &&
            FrameOk(env, g) && MemoTrue(env, memo') &&
            (pushed.Some? ==> g == f && FrameOk(env, pushed.value) && Linked(env, g, pushed.value))
  {
    var cur := Top(f);
    if !cur.Node? || (cur.kind == Op(Ite) && |cur.children| != 3) {
      EvLeaf(env, cur, f.ctx);
      RecordOk(env, f, cur);
    } else if cur.kind == Op(Ite) {
      CombineIteOk(env, f);
    } else {
      var vs := Vals(f, cur.children);
      if IsCall(cur.kind, vs) {
        CombineCallOk(env, f, memo);
      } else {
        OpenTopServed(f);
        ValsTrue(env, f, cur.children);
        var v := Reduce(env, cur.kind, vs).value;
        EvNode(env, cur, f.ctx, vs, v);
        RecordOk(env, f, v);
      }
    }
  }

  lemma {:induction false} PopOk(env: Env, e: Term, ctx: Ctx, m: Machine)
    requires MachineInv(env, e, ctx, m) && m.frames != [] && m.frames[|m.frames| - 1].visit == []
    ensures MachineInv(env, e, ctx, PopFrame(m))
  {
    var n := |m.frames| - 1;
    var f, m' := m.frames[n], PopFrame(m);
    assert FrameOk(env, f) && IsDone(f, f.init);
    var v := Val(f, f.init);
    assert Evaluates(env, f.init, f.ctx, v);
    if n > 0 {
      var below := m.frames[n - 1];
      assert Linked(env, below, f);
      assert FrameOk(env, below);
      var cur := Top(below);
      var vs := Vals(below, cur.children);
      ValsTrue(env, below, cur.children);
      EvNode(env, cur, below.ctx, vs, v);
      RecordOk(env, below, v);
      forall i | 0 < i < |m'.frames| ensures Linked(env, m'.frames[i - 1], m'.frames[i]) {
        assert Linked(env, m.frames[i - 1], m.frames[i]);
      }
    }
  }

  lemma {:induction false} StepOk(env: Env, e: Term, ctx: Ctx, m: Machine)
    requires MachineInv(env, e, ctx, m)
    ensures MachineInv(env, e, ctx, Step(env, m))
  {
    if m.frames != [] {
      var n := |m.frames| - 1;
      var f := m.frames[n];
      if f.visit == [] {
        PopOk(env, e, ctx, m);
      } else {
        assert FrameOk(env, f);
        VisitOk(env, f, m.memo);
        var (g, memo', pushed) := VisitStep(env, f, m.memo);
        var m' := Step(env, m);
        forall i | 0 < i < |m'.frames| ensures Linked(env, m'.frames[i - 1], m'.frames[i]) {
          if i <= n {
            assert Linked(env, m.frames[i - 1], m.frames[i]);
          }
        }
      }
    }
  }

  lemma {:induction false} RunOk(env: Env, e: Term, ctx: Ctx, m: Machine, n: nat)
    requires MachineInv(env, e, ctx, m)
    ensures MachineInv(env, e, ctx, Run(env, m, n))
    decreases n
  {
    hide Step, MachineInv;
    if n > 0 {
      StepOk(env, e, ctx, m);
      RunOk(env, e, ctx, Step(env, m), n - 1);
    }
  }

  /** In every state of every run, the results and the call table are true. */
  lemma {:induction false} ReachableOk(env: Env, e: Term, ctx: Ctx, n: nat)
    ensures MachineInv(env, e, ctx, Run(env, Start(e, ctx), n))
  {
    NewFrameOk(env, e, ctx, None);
    RunOk(env, e, ctx, Start(e, ctx), n);
  }
}
