/** Entailment, proof rules and the checking of one step. */
module ProofSemantics {
  import opened Terms

  /** A model is the set of formulas it makes true. */
  type Model = iset<Term>

  ghost predicate Satisfies(m: Model, gamma: seq<Term>) {
    forall i | 0 <= i < |gamma| :: gamma[i] in m
  }

  ghost predicate Entails(models: iset<Model>, gamma: seq<Term>, f: Term) {
    forall m | m in models && Satisfies(m, gamma) :: f in m
  }

  /** `(pf F)`. */
  function MkProof(f: Term): Term {
    Node(Proof, [f])
  }

  predicate IsProof(t: Term) {
    t.Node? && t.kind.Proof? && |t.children| == 1
  }

  function Proven(t: Term): Term
    requires IsProof(t)
  {
    t.children[0]
  }

  /** The data of a proof rule: its premise list operator, whether it consumes an
      assumption, whether it takes the conclusion as an argument, and its program. */
  datatype Rule = Rule(premiseList: Option<Term>, isAssume: bool, isExplicit: bool, program: Term)

  /** What a step needs from the term level: running the program of a rule, combining a
      premise list, and the type check of the conclusion. */
  datatype Kernel = Kernel(
    run: (Term, seq<Term>) -> Option<Term>,
    combine: (Term, seq<Term>) -> Option<Term>,
    isBool: Term -> bool)

  predicate AllProofs(ps: seq<Term>) {
    forall i | 0 <= i < |ps| :: IsProof(ps[i])
  }

  function Formulas(ps: seq<Term>): (fs: seq<Term>)
    requires AllProofs(ps)
    ensures |fs| == |ps|
  {
    seq(|ps|, i requires 0 <= i < |ps| => Proven(ps[i]))
  }

  /** The arguments that the rule's program is run on. */
  function RuleArguments(kernel: Kernel, rule: Rule, args: seq<Term>, proven: Option<Term>,
                         assumption: Option<Term>, premises: seq<Term>): Option<seq<Term>>
  {
    if rule.isExplicit && proven.None? then None
    else if assumption.Some? != rule.isAssume then None
    else
      var front := args + (if rule.isExplicit then [proven.value] else [])
                        + (if assumption.Some? then [assumption.value] else []);
      if rule.premiseList.None? then Some(front + premises)
      else if !AllProofs(premises) then None
      else match kernel.combine(rule.premiseList.value, Formulas(premises))
        case None => None
        case Some(ap) => Some(front + [MkProof(ap)])
  }

  /** The conclusion of a step; none if the step does not check.  `assumption` is the
      assumption that a step-pop discharges. */
  function CheckStep(kernel: Kernel, rule: Rule, args: seq<Term>, proven: Option<Term>,
                     assumption: Option<Term>, premises: seq<Term>): Option<Term>
  {
    match RuleArguments(kernel, rule, args, proven, assumption, premises)
    case None => None
    case Some(children) =>
      match if children == [] then Some(rule.program) else kernel.run(rule.program, children)
      case None => None
      case Some(g) => if kernel.isBool(g) && (proven.Some? ==> proven.value == g) then Some(g) else None
  }

  /** `children` are passed to the rule's program: the arguments of the step, the stated conclusion if
      the rule demands one, the discharged assumption, and the premises, which the premise list
      operator of the rule, if it has one, combines into one proof. */
  ghost predicate Passed(kernel: Kernel, rule: Rule, args: seq<Term>, proven: Option<Term>,
                         assumption: Option<Term>, premises: seq<Term>, children: seq<Term>)
  {
    var n := |args|;
    var m := if rule.isExplicit then n + 1 else n;
    var k := if assumption.Some? then m + 1 else m;
    && k <= |children| && children[..n] == args
    && (rule.isExplicit ==> proven == Some(children[n]))
    && (assumption.Some? ==> children[m] == assumption.value)
    && match rule.premiseList
       case None => children[k..] == premises
       case Some(op) =>
         |children| == k + 1 && IsProof(children[k]) && AllProofs(premises) &&
         kernel.combine(op, Formulas(premises)) == Some(Proven(children[k]))
  }

  /** The program returns the formula `g`, which is the stated conclusion if there is one. */
  ghost predicate Concludes(kernel: Kernel, rule: Rule, children: seq<Term>, proven: Option<Term>, g: Term) {
    && (if children == [] then g == rule.program else kernel.run(rule.program, children) == Some(g))
    && kernel.isBool(g)
    && forall f | proven == Some(f) :: f == g
  }

  lemma {:induction false} FrontIff(args: seq<Term>, stated: seq<Term>, assumed: seq<Term>, rest: seq<Term>, children: seq<Term>)
    requires |stated| <= 1 && |assumed| <= 1
    ensures children == args + stated + assumed + rest <==>
            var n, k := |args|, |args| + |stated| + |assumed|;
            k <= |children| && children[..n] == args && (stated != [] ==> children[n] == stated[0]) &&
            (assumed != [] ==> children[n + |stated|] == assumed[0]) && children[k..] == rest
  {
    var n, m, k := |args|, |args| + |stated|, |args| + |stated| + |assumed|;
    var front := args + stated + assumed;
    if children == front + rest {
      assert children[..n] == args && children[k..] == rest;
    } else if k <= |children| && children[..n] == args && children[k..] == rest {
      assert children == children[..n] + children[n..m] + children[m..k] + children[k..];
      assert stated != [] && children[n] == stated[0] ==> children[n..m] == stated;
      assert assumed != [] && children[m] == assumed[0] ==> children[m..k] == assumed;
      assert stated == [] ==> children[n..m] == stated;
      assert assumed == [] ==> children[m..k] == assumed;
    }
  }

  lemma {:induction false} ProofOf(t: Term)
    requires IsProof(t)
    ensures t == MkProof(Proven(t))
  {
    assert t.children == [Proven(t)];
  }

  lemma {:induction false} ArgumentsIff(kernel: Kernel, rule: Rule, args: seq<Term>, proven: Option<Term>,
                                        assumption: Option<Term>, premises: seq<Term>, children: seq<Term>)
    ensures RuleArguments(kernel, rule, args, proven, assumption, premises) == Some(children) <==>
            rule.isAssume == assumption.Some? && Passed(kernel, rule, args, proven, assumption, premises, children)
  {
    if rule.isAssume == assumption.Some? && (rule.isExplicit ==> proven.Some?) {
      var stated := if rule.isExplicit then [proven.value] else [];
      var assumed := if assumption.Some? then [assumption.value] else [];
      var k := |args| + |stated| + |assumed|;
      match rule.premiseList
      case None => FrontIff(args, stated, assumed, premises, children);
      case Some(op) =>
        if AllProofs(premises) && kernel.combine(op, Formulas(premises)).Some? {
          var p := MkProof(kernel.combine(op, Formulas(premises)).value);
          FrontIff(args, stated, assumed, [p], children);
          if |children| == k + 1 {
            assert children[k..] == [children[k]];
            if IsProof(children[k]) {
              ProofOf(children[k]);
            }
          }
        }
    }
  }

  /** A step concludes `g` exactly if it states and discharges what its rule demands, and the rule's
      program returns `g` on what it is passed. */
  lemma {:induction false} CheckStepIff(kernel: Kernel, rule: Rule, args: seq<Term>, proven: Option<Term>,
                                        assumption: Option<Term>, premises: seq<Term>, g: Term)
    ensures CheckStep(kernel, rule, args, proven, assumption, premises) == Some(g) <==>
            rule.isAssume == assumption.Some? &&
            exists children :: Passed(kernel, rule, args, proven, assumption, premises, children) &&
                               Concludes(kernel, rule, children, proven, g)
  {
    hide RuleArguments, Passed;
    forall children
      ensures RuleArguments(kernel, rule, args, proven, assumption, premises) == Some(children) <==>
              rule.isAssume == assumption.Some? && Passed(kernel, rule, args, proven, assumption, premises, children)
    {
      ArgumentsIff(kernel, rule, args, proven, assumption, premises, children);
    }
    if CheckStep(kernel, rule, args, proven, assumption, premises) == Some(g) {
      var children := RuleArguments(kernel, rule, args, proven, assumption, premises).value;
      assert Passed(kernel, rule, args, proven, assumption, premises, children);
    }
  }

  /** A sound rule: in every model what its program returns holds if the premises do, respectively
      if the premises hold under the discharged assumption. */
  ghost predicate RuleSound(models: iset<Model>, kernel: Kernel, rule: Rule) {
    forall args, proven, assumption: Option<Term>, premises, children, g |
      rule.isAssume == assumption.Some? && Passed(kernel, rule, args, proven, assumption, premises, children) &&
      Concludes(kernel, rule, children, proven, g) ::
      AllProofs(premises) && StepSound(models, assumption, Formulas(premises), g)
  }

  lemma {:induction false} RuleSoundStep(models: iset<Model>, kernel: Kernel, rule: Rule, args: seq<Term>,
      proven: Option<Term>, assumption: Option<Term>, premises: seq<Term>, g: Term)
    requires RuleSound(models, kernel, rule) && CheckStep(kernel, rule, args, proven, assumption, premises) == Some(g)
    ensures AllProofs(premises) && StepSound(models, assumption, Formulas(premises), g)
  {
    hide Passed, Concludes, StepSound, CheckStep;
    CheckStepIff(kernel, rule, args, proven, assumption, premises, g);
  }

  ghost predicate StepSound(models: iset<Model>, assumption: Option<Term>, fs: seq<Term>, g: Term) {
    forall m | m in models ::
      ((assumption.Some? ==> assumption.value in m) ==> Satisfies(m, fs)) ==> g in m
  }

  /** A step without assumption keeps entailment. */
  lemma {:induction false} StepEntails(models: iset<Model>, gamma: seq<Term>, fs: seq<Term>, g: Term)
    requires StepSound(models, None, fs, g)
    requires forall i | 0 <= i < |fs| :: Entails(models, gamma, fs[i])
    ensures Entails(models, gamma, g)
  {
  }

  lemma {:induction false} EntailsMore(models: iset<Model>, gamma: seq<Term>, more: seq<Term>, f: Term)
    requires Entails(models, gamma, f)
    ensures Entails(models, gamma + more, f)
  {
    forall m | m in models && Satisfies(m, gamma + more) ensures f in m {
      assert Satisfies(m, gamma) by {
        forall i | 0 <= i < |gamma| ensures gamma[i] in m {
          assert (gamma + more)[i] == gamma[i];
        }
      }
    }
  }

  /** Every assumption of the scope but the first is also assumed outside, or repeats the first. */
  ghost predicate Covered(gamma: seq<Term>, scope: seq<Term>)
    requires scope != []
  {
    forall i | 0 <= i < |scope| :: scope[i] in gamma || scope[i] == scope[0]
  }

  /** Discharging only the first assumption of a covered scope keeps entailment. */
  lemma {:induction false} PopEntails(models: iset<Model>, gamma: seq<Term>, scope: seq<Term>, fs: seq<Term>, g: Term)
    requires scope != [] && Covered(gamma, scope)
    requires StepSound(models, Some(scope[0]), fs, g)
    requires forall i | 0 <= i < |fs| :: Entails(models, gamma + scope, fs[i])
    ensures Entails(models, gamma, g)
  {
    forall m | m in models && Satisfies(m, gamma) ensures g in m {
      if scope[0] in m {
        assert Satisfies(m, gamma + scope) by {
          forall i | 0 <= i < |gamma + scope| ensures (gamma + scope)[i] in m {
            if i >= |gamma| {
              assert scope[i - |gamma|] in gamma || scope[i - |gamma|] == scope[0];
            }
          }
        }
      }
    }
  }

  /** A step-pop is sound for every class of models and every sound step exactly when the
      scope is covered: an uncovered extra assumption escapes. */
  lemma {:induction false} PopSoundIffCovered(gamma: seq<Term>, scope: seq<Term>)
    requires scope != []
    ensures Covered(gamma, scope) <==>
            forall models: iset<Model>, fs: seq<Term>, g: Term |
              StepSound(models, Some(scope[0]), fs, g) &&
              forall i | 0 <= i < |fs| :: Entails(models, gamma + scope, fs[i]) ::
              Entails(models, gamma, g)
  {
    if Covered(gamma, scope) {
      forall models: iset<Model>, fs: seq<Term>, g: Term |
        StepSound(models, Some(scope[0]), fs, g) &&
        forall i | 0 <= i < |fs| :: Entails(models, gamma + scope, fs[i])
        ensures Entails(models, gamma, g)
      {
        PopEntails(models, gamma, scope, fs, g);
      }
    } else {
      var k :| 0 <= k < |scope| && scope[k] !in gamma && scope[k] != scope[0];
      var m: Model := iset t | t in gamma || t == scope[0];
      var models, fs, g := iset{m}, [scope[k]], scope[k];
      assert (gamma + scope)[|gamma| + k] == scope[k];
      assert StepSound(models, Some(scope[0]), fs, g) by {
        assert fs[0] !in m;
      }
      assert m in models && Satisfies(m, gamma) && g !in m;
      assert !Entails(models, gamma, g);
    }
  }
}

/** The machine of the proof commands, on values. */
module ProofMachine {
  import opened Terms
  import opened Bindings
  import opened ProofSemantics
  import Symbols

  /** The symbol table, all assumptions, and their number when each scope was opened. */
  datatype State = State(env: Env, assumptions: seq<Term>, sizes: seq<nat>)

  /** The term level, and the referenced assertions with their normal form, if there are any. */
  datatype Config = Config(kernel: Kernel, reference: Option<set<Term>>, normalize: Term -> Term)

  datatype Command =
    | Assume(name: string, f: Term)
    | AssumePush(name: string, f: Term)
    | Step(name: string, rule: Rule, proven: Option<Term>, premises: seq<string>, args: seq<Term>)
    | StepPop(name: string, rule: Rule, proven: Option<Term>, premises: seq<string>, args: seq<Term>)
    | Declare(name: string, t: Term)
    | Alias(name: string, source: string)

  ghost function Lookup(env: Env, name: string): Option<Term> {
    var os := Of(name, env.binds);
    if os == [] then None else Some(os[|os| - 1])
  }

  /** The terms of the named premises; none if a name is unbound. */
  ghost function LookupAll(env: Env, names: seq<string>): Option<seq<Term>> {
    if names == [] then Some([])
    else match (Lookup(env, names[0]), LookupAll(env, names[1..]))
      case (Some(t), Some(ts)) => Some([t] + ts)
      case _ => None
  }

  ghost predicate Valid(s: State) {
    && s.env.Valid()
    && |s.sizes| == |s.env.sizes|
    && (forall i | 0 <= i < |s.sizes| :: s.sizes[i] < |s.assumptions|)
    && (forall i, j | 0 <= i < j < |s.sizes| :: s.sizes[i] < s.sizes[j])
  }

  /** The assumptions made before the innermost scope, and those made in it. */
  ghost function Outside(s: State): seq<Term>
    requires Valid(s) && s.sizes != []
  {
    s.assumptions[..s.sizes[|s.sizes| - 1]]
  }

  ghost function Scope(s: State): (r: seq<Term>)
    requires Valid(s) && s.sizes != []
    ensures r != []
  {
    s.assumptions[s.sizes[|s.sizes| - 1]..]
  }

  ghost function Push(s: State): State
    requires Valid(s)
  {
    State(s.env.PushScope(), s.assumptions, s.sizes + [|s.assumptions|])
  }

  ghost function Pop(s: State): State
    requires Valid(s) && s.sizes != []
  {
    State(s.env.PopScope(), Outside(s), s.sizes[..|s.sizes| - 1])
  }

  /** Binds the name to a proof of the formula and adds the formula to the assumptions. */
  ghost function AddAssumption(s: State, name: string, f: Term): State
    requires s.env.Valid()
  {
    State(s.env.Bind(name, MkProof(f)), s.assumptions + [f], s.sizes)
  }

  predicate Referenced(cfg: Config, f: Term) {
    cfg.reference.Some? ==> cfg.normalize(f) in cfg.reference.value
  }

  /** One command; none if the checker stops with an error. */
  ghost function Exec(cfg: Config, s: State, c: Command): Option<State>
    requires Valid(s)
  {
    match c
    case Assume(name, f) =>
      if s.sizes == [] && !Referenced(cfg, f) then None else Some(AddAssumption(s, name, f))
    case AssumePush(name, f) => Some(AddAssumption(Push(s), name, f))
    case Step(name, rule, proven, premises, args) =>
      (match LookupAll(s.env, premises)
       case None => None
       case Some(ps) =>
         match CheckStep(cfg.kernel, rule, args, proven, None, ps)
         case None => None
         case Some(g) => Some(s.(env := s.env.Bind(name, MkProof(g)))))
    case StepPop(name, rule, proven, premises, args) =>
      if s.sizes == [] then None
      else (match LookupAll(s.env, premises)
            case None => None
            case Some(ps) =>
              match CheckStep(cfg.kernel, rule, args, proven, Some(Scope(s)[0]), ps)
              case None => None
              case Some(g) => var p := Pop(s); Some(p.(env := p.env.Bind(name, MkProof(g)))))
    case Declare(name, t) => if IsProof(t) then None else Some(s.(env := s.env.Bind(name, t)))
    case Alias(name, source) =>
      match Lookup(s.env, source)
      case None => None
      case Some(t) => Some(s.(env := s.env.Bind(name, t)))
  }

  ghost function Start(): State {
    State(Env([], 0, []), [], [])
  }

  lemma {:induction false} PushValid(s: State)
    requires Valid(s)
    ensures forall name, f :: Valid(AddAssumption(Push(s), name, f))
  {
  }

  lemma {:induction false} ExecValid(cfg: Config, s: State, c: Command)
    requires Valid(s) && Exec(cfg, s, c).Some?
    ensures Valid(Exec(cfg, s, c).value)
  {
    hide CheckStep;
    match c
    case AssumePush(name, f) => PushValid(s);
    case _ =>
  }

  ghost function Run(cfg: Config, s: State, cs: seq<Command>): Option<State>
    requires Valid(s)
    decreases |cs|
  {
    if cs == [] then Some(s)
    else match Exec(cfg, s, cs[0])
      case None => None
      case Some(s') => ExecValid(cfg, s, cs[0]); Run(cfg, s', cs[1..])
  }

  // ----- which commands are accepted -----

  lemma {:induction false} LookupAllIff(env: Env, names: seq<string>, ts: seq<Term>)
    ensures LookupAll(env, names) == Some(ts) <==>
            |ts| == |names| && forall i | 0 <= i < |names| :: Lookup(env, names[i]) == Some(ts[i])
  {
    hide Lookup;
    if names != [] && ts != [] {
      LookupAllIff(env, names[1..], ts[1..]);
      assert ts == [ts[0]] + ts[1..];
      if |ts| == |names| {
        assert forall i | 1 <= i < |names| :: names[i] == names[1..][i - 1] && ts[i] == ts[1..][i - 1];
      }
    }
  }

  lemma {:induction false} PremisesIff(env: Env, names: seq<string>, ts: seq<Term>)
    ensures LookupAll(env, names) == Some(ts) <==>
            |ts| == |names| && forall i | 0 <= i < |ts| :: Latest(env.binds, names[i], ts[i])
  {
    hide LookupAll, Lookup, Latest;
    LookupAllIff(env, names, ts);
    forall n, t ensures Lookup(env, n) == Some(t) <==> Latest(env.binds, n, t) {
      LookupLatest(env, n, t);
    }
  }

  /** A step, or a step-pop, concludes `g`: its premises are bound, its rule is one for steps,
      respectively for step-pops, and the rule's program returns `g`.  A step-pop discharges the
      first assumption of the innermost scope. */
  ghost predicate Checks(cfg: Config, s: State, isPop: bool, rule: Rule, proven: Option<Term>, premises: seq<string>,
                         args: seq<Term>, g: Term)
    requires Valid(s)
  {
    && rule.isAssume == isPop && (isPop ==> s.sizes != [])
    && var assumption := if isPop then Some(s.assumptions[s.sizes[|s.sizes| - 1]]) else None;
    exists ps: seq<Term>, children: seq<Term> ::
      && |ps| == |premises| && (forall i | 0 <= i < |ps| :: Latest(s.env.binds, premises[i], ps[i]))
      && Passed(cfg.kernel, rule, args, proven, assumption, ps, children)
      && Concludes(cfg.kernel, rule, children, proven, g)
  }

  /** The state after a conclusion: only what was there before the scope that is closed, and the binding. */
  ghost function Concluded(s: State, isPop: bool, name: string, g: Term): State
    requires Valid(s) && (isPop ==> s.sizes != [])
  {
    var n := if isPop then |s.sizes| - 1 else |s.sizes|;
    var binds := if isPop then s.env.binds[..s.env.globals + s.env.sizes[n]] else s.env.binds;
    State(Env(binds + [(name, MkProof(g))], if n == 0 then s.env.globals + 1 else s.env.globals, s.env.sizes[..n]),
          if isPop then s.assumptions[..s.sizes[n]] else s.assumptions, s.sizes[..n])
  }

  /** Exactly when a step or step-pop is accepted, and what it binds. */
  lemma {:induction false} StepIff(cfg: Config, s: State, isPop: bool, name: string, rule: Rule, proven: Option<Term>,
      premises: seq<string>, args: seq<Term>, s': State)
    requires Valid(s)
    ensures var c := if isPop then StepPop(name, rule, proven, premises, args) else Step(name, rule, proven, premises, args);
            Exec(cfg, s, c) == Some(s') <==>
            exists g :: Checks(cfg, s, isPop, rule, proven, premises, args, g) && s' == Concluded(s, isPop, name, g)
  {
    hide Exec, Concluded, ConcludesIn, Passed, Concludes;
    if isPop ==> s.sizes != [] {
      ExecConcludes(cfg, s, isPop, name, rule, proven, premises, args, s');
      forall g
        ensures Checks(cfg, s, isPop, rule, proven, premises, args, g) <==>
                ConcludesIn(cfg, s, isPop, rule, proven, premises, args, g)
        ensures Concluded(s, isPop, name, g) == After(s, isPop, name, g)
      {
        ChecksIff(cfg, s, isPop, rule, proven, premises, args, g);
        ConcludedIs(s, isPop, name, g);
      }
      hide Checks, After;
    } else {
      assert Exec(cfg, s, StepPop(name, rule, proven, premises, args)).None? by {
        NoPop(cfg, s, name, rule, proven, premises, args);
      }
    }
  }

  lemma {:induction false} NoPop(cfg: Config, s: State, name: string, rule: Rule, proven: Option<Term>,
      premises: seq<string>, args: seq<Term>)
    requires Valid(s) && s.sizes == []
    ensures Exec(cfg, s, StepPop(name, rule, proven, premises, args)).None?
  {
  }

  lemma {:induction false} ExecConcludes(cfg: Config, s: State, isPop: bool, name: string, rule: Rule, proven: Option<Term>,
      premises: seq<string>, args: seq<Term>, s': State)
    requires Valid(s) && (isPop ==> s.sizes != [])
    ensures var c := if isPop then StepPop(name, rule, proven, premises, args) else Step(name, rule, proven, premises, args);
            Exec(cfg, s, c) == Some(s') <==>
            exists g :: ConcludesIn(cfg, s, isPop, rule, proven, premises, args, g) && s' == After(s, isPop, name, g)
  {
    hide CheckStep, LookupAll, Lookup;
    if LookupAll(s.env, premises).Some? {
      var r := CheckStep(cfg.kernel, rule, args, proven, if isPop then Some(Scope(s)[0]) else None, LookupAll(s.env, premises).value);
      assert r.Some? ==> ConcludesIn(cfg, s, isPop, rule, proven, premises, args, r.value);
    }
  }

  /** Exactly when an assumption is accepted, and what it changes: outside all scopes it must be
      referenced if there is a reference. */
  lemma {:induction false} AssumeIff(cfg: Config, s: State, isPush: bool, name: string, f: Term, s': State)
    requires Valid(s)
    ensures Exec(cfg, s, if isPush then AssumePush(name, f) else Assume(name, f)) == Some(s') <==>
            (isPush || s.sizes != [] || cfg.reference.None? || cfg.normalize(f) in cfg.reference.value) &&
            s'.env.binds == s.env.binds + [(name, Node(Proof, [f]))] && s'.assumptions == s.assumptions + [f] &&
            s'.env.globals == s.env.globals + (if isPush || s.sizes != [] then 0 else 1) &&
            s'.sizes == s.sizes + (if isPush then [|s.assumptions|] else []) &&
            s'.env.sizes == s.env.sizes + if isPush then [|s.env.binds| - s.env.globals] else []
  {
    hide CheckStep, LookupAll, Lookup;
    var sizes := s.sizes + if isPush then [|s.assumptions|] else [];
    var envSizes := s.env.sizes + if isPush then [|s.env.binds| - s.env.globals] else [];
    assert !isPush ==> sizes == s.sizes && envSizes == s.env.sizes;
    assert Exec(cfg, s, if isPush then AssumePush(name, f) else Assume(name, f)) ==
           if isPush || s.sizes != [] || Referenced(cfg, f)
           then Some(State(Env(s.env.binds + [(name, Node(Proof, [f]))],
                               s.env.globals + if isPush || s.sizes != [] then 0 else 1, envSizes), s.assumptions + [f], sizes))
           else None;
    hide Exec;
  }

  ghost predicate ConcludesIn(cfg: Config, s: State, isPop: bool, rule: Rule, proven: Option<Term>, premises: seq<string>,
                              args: seq<Term>, g: Term)
    requires Valid(s) && (isPop ==> s.sizes != [])
  {
    LookupAll(s.env, premises).Some? &&
    CheckStep(cfg.kernel, rule, args, proven, if isPop then Some(Scope(s)[0]) else None, LookupAll(s.env, premises).value) == Some(g)
  }

  ghost function After(s: State, isPop: bool, name: string, g: Term): State
    requires Valid(s) && (isPop ==> s.sizes != [])
  {
    var p := if isPop then Pop(s) else s;
    p.(env := p.env.Bind(name, MkProof(g)))
  }

  lemma {:induction false} ConcludedIs(s: State, isPop: bool, name: string, g: Term)
    requires Valid(s) && (isPop ==> s.sizes != [])
    ensures Concluded(s, isPop, name, g) == After(s, isPop, name, g)
  {
    if !isPop {
      assert s.sizes[..|s.sizes|] == s.sizes && s.env.sizes[..|s.sizes|] == s.env.sizes;
    }
  }

  lemma {:induction false} ChecksIff(cfg: Config, s: State, isPop: bool, rule: Rule, proven: Option<Term>,
      premises: seq<string>, args: seq<Term>, g: Term)
    requires Valid(s) && (isPop ==> s.sizes != [])
    ensures Checks(cfg, s, isPop, rule, proven, premises, args, g) <==>
            ConcludesIn(cfg, s, isPop, rule, proven, premises, args, g)
  {
    hide CheckStep, LookupAll, Lookup, Latest, Passed, Concludes;
    var assumption := if isPop then Some(s.assumptions[s.sizes[|s.sizes| - 1]]) else None;
    assert isPop ==> Scope(s)[0] == s.assumptions[s.sizes[|s.sizes| - 1]];
    forall ps: seq<Term>
      ensures LookupAll(s.env, premises) == Some(ps) <==>
              |ps| == |premises| && forall i | 0 <= i < |ps| :: Latest(s.env.binds, premises[i], ps[i])
    {
      PremisesIff(s.env, premises, ps);
    }
    if LookupAll(s.env, premises).Some? {
      CheckStepIff(cfg.kernel, rule, args, proven, assumption, LookupAll(s.env, premises).value, g);
    }
  }

  /** A declaration binds a term that is no proof. */
  lemma {:induction false} DeclareIff(cfg: Config, s: State, name: string, t: Term, s': State)
    requires Valid(s)
    ensures Exec(cfg, s, Declare(name, t)) == Some(s') <==> !(exists f :: t == Node(Proof, [f])) && BindsOnly(s, name, t, s')
  {
    if IsProof(t) {
      ProofOf(t);
    }
    BindIs(s, name, t, s');
  }

  /** An alias binds the latest term of another name. */
  lemma {:induction false} AliasIff(cfg: Config, s: State, name: string, source: string, s': State)
    requires Valid(s)
    ensures Exec(cfg, s, Alias(name, source)) == Some(s') <==>
            exists t :: Latest(s.env.binds, source, t) && BindsOnly(s, name, t, s')
  {
    hide Of, BindsOnly, Latest;
    forall u ensures BindsOnly(s, name, u, s') <==> s' == s.(env := s.env.Bind(name, u)) {
      BindIs(s, name, u, s');
    }
    forall u ensures Lookup(s.env, source) == Some(u) <==> Latest(s.env.binds, source, u) {
      LookupLatest(s.env, source, u);
    }
    hide Lookup;
  }

  /** A binding of the name to `t` after which there is no other one. */
  ghost predicate Latest(binds: seq<Binding>, name: string, t: Term) {
    exists j: nat :: j < |binds| && binds[j] == (name, t) && forall k | j < k < |binds| :: binds[k].0 != name
  }

  /** A name stands for the term of its latest binding. */
  lemma {:induction false} LookupLatest(env: Env, name: string, t: Term)
    ensures Lookup(env, name) == Some(t) <==> Latest(env.binds, name, t)
  {
    LatestIff(name, env.binds, t);
  }

  /** One binding more, and nothing else. */
  ghost predicate BindsOnly(s: State, name: string, t: Term, s': State) {
    s' == State(Env(s.env.binds + [(name, t)], if s.env.sizes == [] then s.env.globals + 1 else s.env.globals, s.env.sizes),
                s.assumptions, s.sizes)
  }

  lemma {:induction false} BindIs(s: State, name: string, t: Term, s': State)
    requires Valid(s)
    ensures BindsOnly(s, name, t, s') <==> s' == s.(env := s.env.Bind(name, t))
  {
  }

  /** The states that a run goes through. */
  ghost predicate Trace(cfg: Config, ss: seq<State>, cs: seq<Command>) {
    |ss| == |cs| + 1 && forall i | 0 <= i < |cs| :: Valid(ss[i]) && Exec(cfg, ss[i], cs[i]) == Some(ss[i + 1])
  }

  /** A run is accepted exactly if each command is, one after the other. */
  lemma {:induction false} RunIff(cfg: Config, s: State, cs: seq<Command>, s': State)
    requires Valid(s)
    ensures Run(cfg, s, cs) == Some(s') <==> exists ss :: Trace(cfg, ss, cs) && ss[0] == s && ss[|cs|] == s'
  {
    hide Run, Exec;
    if Run(cfg, s, cs) == Some(s') {
      var ss := TraceOf(cfg, s, cs);
    }
    if exists ss :: Trace(cfg, ss, cs) && ss[0] == s && ss[|cs|] == s' {
      var ss :| Trace(cfg, ss, cs) && ss[0] == s && ss[|cs|] == s';
      RunAlong(cfg, ss, cs);
    }
  }

  lemma {:induction false} TraceOf(cfg: Config, s: State, cs: seq<Command>) returns (ss: seq<State>)
    requires Valid(s) && Run(cfg, s, cs).Some?
    ensures Trace(cfg, ss, cs) && ss[0] == s && Run(cfg, s, cs) == Some(ss[|cs|])
    decreases |cs|
  {
    hide Exec;
    if cs == [] {
      ss := [s];
    } else {
      ExecValid(cfg, s, cs[0]);
      var ts := TraceOf(cfg, Exec(cfg, s, cs[0]).value, cs[1..]);
      ss := [s] + ts;
      forall i | 0 <= i < |cs| ensures Valid(ss[i]) && Exec(cfg, ss[i], cs[i]) == Some(ss[i + 1]) {
        assert i > 0 ==> ss[i] == ts[i - 1] && cs[i] == cs[1..][i - 1];
      }
    }
  }

  lemma {:induction false} RunAlong(cfg: Config, ss: seq<State>, cs: seq<Command>)
    requires Trace(cfg, ss, cs) && Valid(ss[0])
    ensures Run(cfg, ss[0], cs) == Some(ss[|cs|])
    decreases |cs|
  {
    hide Exec;
    if cs != [] {
      assert Valid(ss[0]) && Exec(cfg, ss[0], cs[0]) == Some(ss[1]);
      ExecValid(cfg, ss[0], cs[0]);
      var ts, ds := ss[1..], cs[1..];
      forall i | 0 <= i < |ds| ensures Valid(ts[i]) && Exec(cfg, ts[i], ds[i]) == Some(ts[i + 1]) {
        assert ts[i] == ss[i + 1] && ds[i] == cs[i + 1];
      }
      RunAlong(cfg, ts, ds);
    }
  }

  // ----- soundness -----

  /** A binding that was made before scope `k` was opened. */
  ghost predicate Before(s: State, j: nat, k: nat)
    requires Valid(s) && k < |s.sizes|
  {
    j < s.env.globals + s.env.sizes[k]
  }

  /** Every live binding to a proof is entailed by the assumptions, and by those made
      before any scope that it precedes. */
  ghost predicate BindingSound(models: iset<Model>, s: State, j: nat)
    requires Valid(s) && j < |s.env.binds|
  {
    var t := s.env.binds[j].1;
    IsProof(t) ==>
      Entails(models, s.assumptions, Proven(t)) &&
      forall k: nat | k < |s.sizes| && Before(s, j, k) :: Entails(models, s.assumptions[..s.sizes[k]], Proven(t))
  }

  ghost predicate Sound(models: iset<Model>, s: State) {
    Valid(s) && forall j: nat | j < |s.env.binds| :: BindingSound(models, s, j)
  }

  lemma {:induction false} LookupSound(models: iset<Model>, s: State, name: string)
    requires Sound(models, s) && Lookup(s.env, name).Some? && IsProof(Lookup(s.env, name).value)
    ensures Entails(models, s.assumptions, Proven(Lookup(s.env, name).value))
  {
    var j := LastOf(name, s.env.binds);
    assert BindingSound(models, s, j);
  }

  lemma {:induction false} LastOf(name: string, binds: seq<Binding>) returns (j: nat)
    requires Of(name, binds) != []
    ensures j < |binds| && binds[j] == (name, Of(name, binds)[|Of(name, binds)| - 1])
  {
    var n := |binds| - 1;
    if binds[n].0 == name {
      j := n;
    } else {
      j := LastOf(name, binds[..n]);
    }
  }

  lemma {:induction false} LookupAllSound(models: iset<Model>, s: State, names: seq<string>)
    requires Sound(models, s) && LookupAll(s.env, names).Some? && AllProofs(LookupAll(s.env, names).value)
    ensures forall i | 0 <= i < |Formulas(LookupAll(s.env, names).value)| ::
              Entails(models, s.assumptions, Formulas(LookupAll(s.env, names).value)[i])
  {
    hide Sound, Entails, Lookup, LookupAll;
    var ts := LookupAll(s.env, names).value;
    LookupAllIff(s.env, names, ts);
    forall i | 0 <= i < |ts| ensures Entails(models, s.assumptions, Formulas(ts)[i]) {
      LookupSound(models, s, names[i]);
    }
  }

  /** A new binding that the current assumptions entail. */
  lemma {:induction false} BindSound(models: iset<Model>, s: State, name: string, t: Term)
    requires Sound(models, s) && (IsProof(t) ==> Entails(models, s.assumptions, Proven(t)))
    ensures Sound(models, s.(env := s.env.Bind(name, t)))
  {
    hide Entails;
    var s' := s.(env := s.env.Bind(name, t));
    forall j: nat | j < |s'.env.binds| ensures BindingSound(models, s', j) {
      if j < |s.env.binds| {
        assert BindingSound(models, s, j);
        forall k: nat | k < |s'.sizes| && Before(s', j, k)
          ensures IsProof(s'.env.binds[j].1) ==> Entails(models, s'.assumptions[..s'.sizes[k]], Proven(s'.env.binds[j].1))
        {
          assert Before(s, j, k);
        }
      }
    }
  }

  lemma {:induction false} MoreSound(models: iset<Model>, s: State, f: Term)
    requires Sound(models, s)
    ensures Sound(models, s.(assumptions := s.assumptions + [f]))
  {
    hide Entails;
    var s' := s.(assumptions := s.assumptions + [f]);
    forall j: nat | j < |s'.env.binds| ensures BindingSound(models, s', j) {
      var t := s.env.binds[j].1;
      assert BindingSound(models, s, j);
      if IsProof(t) {
        EntailsMore(models, s.assumptions, [f], Proven(t));
        forall k: nat | k < |s'.sizes| && Before(s', j, k)
          ensures Entails(models, s'.assumptions[..s'.sizes[k]], Proven(t))
        {
          assert Before(s, j, k);
          assert s'.assumptions[..s'.sizes[k]] == s.assumptions[..s.sizes[k]];
        }
      }
    }
  }

  lemma {:induction false} AssumptionEntailed(models: iset<Model>, gamma: seq<Term>, f: Term)
    ensures Entails(models, gamma + [f], f)
  {
    assert (gamma + [f])[|gamma|] == f;
  }

  lemma {:induction false} AssumeSound(models: iset<Model>, s: State, name: string, f: Term)
    requires Sound(models, s)
    ensures Sound(models, AddAssumption(s, name, f))
  {
    MoreSound(models, s, f);
    AssumptionEntailed(models, s.assumptions, f);
    BindSound(models, s.(assumptions := s.assumptions + [f]), name, MkProof(f));
  }

  lemma {:induction false} AssumePushSound(models: iset<Model>, s: State, name: string, f: Term)
    requires Sound(models, s)
    ensures Sound(models, AddAssumption(Push(s), name, f))
  {
    hide Entails;
    var n := |s.sizes|;
    var gamma := s.assumptions + [f];
    var p := State(s.env.PushScope(), gamma, s.sizes + [|s.assumptions|]);
    PushValid(s);
    assert Valid(AddAssumption(Push(s), name, f));
    forall j: nat | j < |p.env.binds| ensures BindingSound(models, p, j) {
      var t := s.env.binds[j].1;
      assert BindingSound(models, s, j);
      if IsProof(t) {
        EntailsMore(models, s.assumptions, [f], Proven(t));
        forall k: nat | k < |p.sizes| && Before(p, j, k)
          ensures Entails(models, p.assumptions[..p.sizes[k]], Proven(t))
        {
          if k < n {
            assert Before(s, j, k);
            assert p.assumptions[..p.sizes[k]] == s.assumptions[..s.sizes[k]];
          } else {
            assert p.assumptions[..|s.assumptions|] == s.assumptions;
          }
        }
      }
    }
    AssumptionEntailed(models, s.assumptions, f);
    BindSound(models, p, name, MkProof(f));
  }

  lemma {:induction false} PopSound(models: iset<Model>, s: State)
    requires Sound(models, s) && s.sizes != []
    ensures Sound(models, Pop(s))
  {
    hide Entails;
    var p, n := Pop(s), |s.sizes| - 1;
    forall j: nat | j < |p.env.binds| ensures BindingSound(models, p, j) {
      assert BindingSound(models, s, j);
      assert Before(s, j, n);
      forall k: nat | k < |p.sizes| && Before(p, j, k)
        ensures IsProof(s.env.binds[j].1) ==> Entails(models, p.assumptions[..p.sizes[k]], Proven(s.env.binds[j].1))
      {
        assert Before(s, j, k);
        assert p.assumptions[..p.sizes[k]] == s.assumptions[..s.sizes[k]];
      }
    }
  }

  /** The rules of the command are sound. */
  ghost predicate CommandRuleSound(models: iset<Model>, cfg: Config, c: Command) {
    (c.Step? || c.StepPop?) ==> RuleSound(models, cfg.kernel, c.rule)
  }

  /** A step-pop closes a scope whose further assumptions are covered. */
  ghost predicate PopCovered(s: State, c: Command)
    requires Valid(s)
  {
    c.StepPop? && s.sizes != [] ==> Covered(Outside(s), Scope(s))
  }

  lemma {:induction false} ExecSound(models: iset<Model>, cfg: Config, s: State, c: Command)
    requires Sound(models, s) && CommandRuleSound(models, cfg, c) && PopCovered(s, c)
    requires Exec(cfg, s, c).Some?
    ensures Sound(models, Exec(cfg, s, c).value)
  {
    hide CheckStep, Sound, Entails, StepSound, Covered, BindingSound, RuleSound;
    assert Valid(s) by {
      SoundValid(models, s);
    }
    match c
    case Assume(name, f) => AssumeSound(models, s, name, f);
    case AssumePush(name, f) => AssumePushSound(models, s, name, f);
    case Step(name, rule, proven, premises, args) =>
      var ps := LookupAll(s.env, premises).value;
      var g := CheckStep(cfg.kernel, rule, args, proven, None, ps).value;
      RuleSoundStep(models, cfg.kernel, rule, args, proven, None, ps, g);
      LookupAllSound(models, s, premises);
      StepEntails(models, s.assumptions, Formulas(ps), g);
      BindSound(models, s, name, MkProof(g));
    case StepPop(name, rule, proven, premises, args) =>
      var ps := LookupAll(s.env, premises).value;
      var g := CheckStep(cfg.kernel, rule, args, proven, Some(Scope(s)[0]), ps).value;
      RuleSoundStep(models, cfg.kernel, rule, args, proven, Some(Scope(s)[0]), ps, g);
      LookupAllSound(models, s, premises);
      assert Outside(s) + Scope(s) == s.assumptions;
      PopEntails(models, Outside(s), Scope(s), Formulas(ps), g);
      PopSound(models, s);
      BindSound(models, Pop(s), name, MkProof(g));
    case Declare(name, t) => BindSound(models, s, name, t);
    case Alias(name, source) =>
      if IsProof(Lookup(s.env, source).value) {
        LookupSound(models, s, source);
      }
      BindSound(models, s, name, Lookup(s.env, source).value);
  }

  lemma {:induction false} SoundValid(models: iset<Model>, s: State)
    requires Sound(models, s)
    ensures Valid(s)
  {
  }

  /** Every step-pop of the run closes a covered scope. */
  ghost predicate CoveredRun(cfg: Config, s: State, cs: seq<Command>)
    requires Valid(s)
    decreases |cs|
  {
    cs != [] ==>
      PopCovered(s, cs[0]) &&
      (Exec(cfg, s, cs[0]).Some? ==>
        (ExecValid(cfg, s, cs[0]); CoveredRun(cfg, Exec(cfg, s, cs[0]).value, cs[1..])))
  }

  lemma {:induction false} RunSound(models: iset<Model>, cfg: Config, s: State, cs: seq<Command>)
    requires Sound(models, s) && CoveredRun(cfg, s, cs)
    requires forall i | 0 <= i < |cs| :: CommandRuleSound(models, cfg, cs[i])
    requires Run(cfg, s, cs).Some?
    ensures Sound(models, Run(cfg, s, cs).value)
    decreases |cs|
  {
    hide Exec, Sound, PopCovered, CommandRuleSound;
    SoundValid(models, s);
    if cs != [] {
      assert CommandRuleSound(models, cfg, cs[0]);
      ExecSound(models, cfg, s, cs[0]);
      assert forall i | 0 <= i < |cs| - 1 :: cs[1..][i] == cs[i + 1];
      RunSound(models, cfg, Exec(cfg, s, cs[0]).value, cs[1..]);
    }
  }

  // ----- plain assumptions at level zero only -----

  /** Plain assume is used only outside all scopes, starting from `depth` open scopes. */
  ghost predicate PlainAtZero(cs: seq<Command>, depth: int)
    decreases |cs|
  {
    cs != [] ==>
      (cs[0].Assume? ==> depth == 0) &&
      PlainAtZero(cs[1..], if cs[0].AssumePush? then depth + 1 else if cs[0].StepPop? then depth - 1 else depth)
  }

  /** Each open scope holds exactly the assumption that opened it. */
  ghost predicate Singles(s: State) {
    Valid(s) && forall k: nat | k < |s.sizes| :: ScopeEnd(s, k) == s.sizes[k] + 1
  }

  ghost function ScopeEnd(s: State, k: nat): nat {
    if k + 1 < |s.sizes| then s.sizes[k + 1] else |s.assumptions|
  }

  lemma {:induction false} SingleScope(s: State)
    requires Singles(s) && s.sizes != []
    ensures |Scope(s)| == 1
  {
  }

  lemma {:induction false} SinglesCovered(cfg: Config, s: State, cs: seq<Command>)
    requires Singles(s) && PlainAtZero(cs, |s.sizes|)
    ensures CoveredRun(cfg, s, cs)
    decreases |cs|
  {
    hide CheckStep;
    if cs != [] {
      if s.sizes != [] {
        SingleScope(s);
      }
      if Exec(cfg, s, cs[0]).Some? {
        ExecValid(cfg, s, cs[0]);
        ExecSingles(cfg, s, cs[0]);
        SinglesCovered(cfg, Exec(cfg, s, cs[0]).value, cs[1..]);
      }
    }
  }

  lemma {:induction false} ExecSingles(cfg: Config, s: State, c: Command)
    requires Singles(s) && Exec(cfg, s, c).Some? && (c.Assume? ==> s.sizes == [])
    ensures var s' := Exec(cfg, s, c).value;
            Singles(s') &&
            |s'.sizes| == if c.AssumePush? then |s.sizes| + 1 else if c.StepPop? then |s.sizes| - 1 else |s.sizes|
  {
    hide CheckStep;
    ExecValid(cfg, s, c);
  }

  /** Soundness of whole runs: if plain assume is used only at level zero and the rules are
      sound, then after every accepted run each formula with a visible proof is entailed by
      the current assumptions. */
  lemma {:induction false} AcceptedRunsAreSound(models: iset<Model>, cfg: Config, cs: seq<Command>, name: string)
    requires PlainAtZero(cs, 0) && forall i | 0 <= i < |cs| :: CommandRuleSound(models, cfg, cs[i])
    requires Run(cfg, Start(), cs).Some?
    requires Lookup(Run(cfg, Start(), cs).value.env, name).Some?
    requires IsProof(Lookup(Run(cfg, Start(), cs).value.env, name).value)
    ensures var s := Run(cfg, Start(), cs).value;
            Entails(models, s.assumptions, Proven(Lookup(s.env, name).value))
  {
    hide Exec, CommandRuleSound, Entails, Run;
    SinglesCovered(cfg, Start(), cs);
    RunSound(models, cfg, Start(), cs);
    LookupSound(models, Run(cfg, Start(), cs).value, name);
  }

  // ----- the reference -----

  /** With a reference, every assumption made at level zero is one of the referenced assertions. */
  lemma {:induction false} TopAssumptionsReferenced(cfg: Config, s: State, cs: seq<Command>)
    requires Valid(s) && Run(cfg, s, cs).Some?
    requires var top := if s.sizes == [] then |s.assumptions| else s.sizes[0];
             forall i | 0 <= i < top :: Referenced(cfg, s.assumptions[i])
    ensures var r := Run(cfg, s, cs).value;
            var top := if r.sizes == [] then |r.assumptions| else r.sizes[0];
            top <= |r.assumptions| && forall i | 0 <= i < top :: Referenced(cfg, r.assumptions[i])
    decreases |cs|
  {
    hide CheckStep, Referenced;
    if cs != [] {
      ExecValid(cfg, s, cs[0]);
      TopAssumptionsReferenced(cfg, Exec(cfg, s, cs[0]).value, cs[1..]);
    }
  }

  // ----- nested plain assumptions -----

  /** The condition on plain assume is needed: with a nested plain assume, a sound rule
      lets an accepted run prove a formula outside that nothing entails. */
  lemma {:induction false} NestedAssumeUnsound(t: Term, f: Term)
    requires t != f
    ensures exists models: iset<Model>, cfg: Config, cs: seq<Command> ::
              (forall i | 0 <= i < |cs| :: CommandRuleSound(models, cfg, cs[i])) &&
              !PlainAtZero(cs, 0) && Run(cfg, Start(), cs).Some? &&
              var s := Run(cfg, Start(), cs).value;
              s.sizes == [] && Lookup(s.env, "c") == Some(MkProof(f)) && !Entails(models, s.assumptions, f)
  {
    hide Run, CommandRuleSound, CheckStep;
    var models: iset<Model> := iset{iset{t}};
    var rule, kernel := Rule(Some(t), true, false, t), CarryKernel(t);
    var cfg := Config(kernel, None, (g: Term) => g);
    var cs := [AssumePush("a", t), Assume("b", f), StepPop("c", rule, None, ["b"], [])];
    forall i | 0 <= i < |cs| ensures CommandRuleSound(models, cfg, cs[i]) {
      CarryCommandSound(models, cfg, cs[i], t);
    }
    NestedRun(cfg, cs, rule, t, f);
    assert !PlainAtZero(cs, 0) by {
      assert cs[1..][0] == Assume("b", f);
    }
    var s := Run(cfg, Start(), cs).value;
    assert s.env.binds[..0] == [] && Of("c", []) == [] && Of("c", s.env.binds) == [] + [MkProof(f)];
    NothingEntails(models, t, f);
  }

  lemma {:induction false} NothingEntails(models: iset<Model>, t: Term, f: Term)
    requires models == iset{iset{t}} && t != f
    ensures !Entails(models, [], f)
  {
  }

  /** A rule that concludes its one premise, discharging the assumption `t`. */
  ghost function CarryKernel(t: Term): Kernel {
    Kernel(
      (program: Term, children: seq<Term>) =>
        if |children| == 2 && children[0] == t && IsProof(children[1]) then Some(Proven(children[1])) else None,
      (op: Term, fs: seq<Term>) => if |fs| == 1 then Some(fs[0]) else None,
      (g: Term) => true)
  }

  lemma {:induction false} CarryCommandSound(models: iset<Model>, cfg: Config, c: Command, t: Term)
    requires models == iset{iset{t}} && cfg.kernel == CarryKernel(t)
    requires c.Step? || c.StepPop? ==> c.rule == Rule(Some(t), true, false, t)
    ensures CommandRuleSound(models, cfg, c)
  {
    var kernel, rule := cfg.kernel, Rule(Some(t), true, false, t);
    forall args, proven, assumption: Option<Term>, premises, children, g |
      rule.isAssume == assumption.Some? && Passed(kernel, rule, args, proven, assumption, premises, children) &&
      Concludes(kernel, rule, children, proven, g)
      ensures AllProofs(premises) && StepSound(models, assumption, Formulas(premises), g)
    {
      assert assumption == Some(t) && Formulas(premises) == [Proven(children[1])];
      assert forall m | m in models :: t in m;
    }
  }

  /** The run `(assume-push a t) (assume b f) (step-pop c :premises (b))`. */
  lemma {:induction false} NestedRun(cfg: Config, cs: seq<Command>, rule: Rule, t: Term, f: Term)
    requires cfg.reference == None && rule == Rule(Some(t), true, false, t)
    requires cs == [AssumePush("a", t), Assume("b", f), StepPop("c", rule, None, ["b"], [])]
    requires cfg.kernel.run(t, [t, MkProof(f)]) == Some(f) && cfg.kernel.combine(t, [f]) == Some(f) && cfg.kernel.isBool(f)
    ensures Run(cfg, Start(), cs) == Some(State(Env([("c", MkProof(f))], 1, []), [], []))
  {
    hide Exec, Run, MkProof;
    var a, b, c := ("a", MkProof(t)), ("b", MkProof(f)), ("c", MkProof(f));
    var s1 := State(Env([a], 0, [0]), [t], [0]);
    var s2 := State(Env([a, b], 0, [0]), [t, f], [0]);
    var s3 := State(Env([c], 1, []), [], []);
    NestedAssumes(cfg, t, f, s1, s2);
    NestedPop(cfg, s2, rule, t, f);
    RunThree(cfg, cs, Start(), s1, s2, s3);
  }

  lemma {:induction false} NestedAssumes(cfg: Config, t: Term, f: Term, s1: State, s2: State)
    requires cfg.reference == None && s1 == State(Env([("a", MkProof(t))], 0, [0]), [t], [0])
    requires s2 == State(Env([("a", MkProof(t)), ("b", MkProof(f))], 0, [0]), [t, f], [0])
    ensures Valid(s1) && Valid(s2)
    ensures Exec(cfg, Start(), AssumePush("a", t)) == Some(s1) && Exec(cfg, s1, Assume("b", f)) == Some(s2)
  {
    hide Exec;
    AssumeIff(cfg, Start(), true, "a", t, s1);
    AssumeIff(cfg, s1, false, "b", f, s2);
  }

  lemma {:induction false} RunThree(cfg: Config, cs: seq<Command>, s: State, s1: State, s2: State, s3: State)
    requires |cs| == 3 && Valid(s) && Valid(s1) && Valid(s2) && Valid(s3)
    requires Exec(cfg, s, cs[0]) == Some(s1) && Exec(cfg, s1, cs[1]) == Some(s2) && Exec(cfg, s2, cs[2]) == Some(s3)
    ensures Run(cfg, s, cs) == Some(s3)
  {
    hide Exec;
    assert cs[1..] == [cs[1], cs[2]] && cs[1..][1..] == [cs[2]] && [cs[2]][1..] == [];
    assert Run(cfg, s3, []) == Some(s3);
    assert Run(cfg, s2, [cs[2]]) == Some(s3);
    assert Run(cfg, s1, cs[1..]) == Some(s3);
  }

  lemma {:induction false} NestedPop(cfg: Config, s: State, rule: Rule, t: Term, f: Term)
    requires rule == Rule(Some(t), true, false, t)
    requires s == State(Env([("a", MkProof(t)), ("b", MkProof(f))], 0, [0]), [t, f], [0])
    requires cfg.kernel.run(t, [t, MkProof(f)]) == Some(f) && cfg.kernel.combine(t, [f]) == Some(f) && cfg.kernel.isBool(f)
    ensures Exec(cfg, s, StepPop("c", rule, None, ["b"], [])) == Some(State(Env([("c", MkProof(f))], 1, []), [], []))
  {
    var ps := [MkProof(f)];
    NestedCheck(cfg.kernel, rule, t, f);
    NestedLookup(s.env, f);
    assert Scope(s) == [t, f];
    assert Pop(s) == State(Env([], 0, []), [], []);
    assert Env([], 0, []).Bind("c", MkProof(f)) == Env([("c", MkProof(f))], 1, []);
  }

  lemma {:induction false} NestedLookup(env: Env, f: Term)
    requires |env.binds| == 2 && env.binds[1] == ("b", MkProof(f))
    ensures LookupAll(env, ["b"]) == Some([MkProof(f)])
  {
    var binds := env.binds;
    assert Lookup(env, "b") == Some(MkProof(f)) by {
      OfSnoc("b", binds[..1], binds[1]);
      assert binds == binds[..1] + [binds[1]];
    }
    assert ["b"][1..] == [] && LookupAll(env, ["b"][1..]) == Some([]);
    assert [MkProof(f)] + [] == [MkProof(f)];
    assert LookupAll(env, ["b"]) == Some([MkProof(f)] + []);
  }

  lemma {:induction false} NestedCheck(kernel: Kernel, rule: Rule, t: Term, f: Term)
    requires rule == Rule(Some(t), true, false, t)
    requires kernel.run(t, [t, MkProof(f)]) == Some(f) && kernel.combine(t, [f]) == Some(f) && kernel.isBool(f)
    ensures CheckStep(kernel, rule, [], None, Some(t), [MkProof(f)]) == Some(f)
  {
    var ps := [MkProof(f)];
    assert Formulas(ps) == [f];
    assert RuleArguments(kernel, rule, [], None, Some(t), ps) == Some([] + [] + [t] + [MkProof(f)]);
    assert [] + [] + [t] + [MkProof(f)] == [t, MkProof(f)];
  }

  // ----- a subproof leaves one trace -----

  /** Scopes are opened and closed in pairs, and the scopes open at the start stay open. */
  ghost predicate Nested(cs: seq<Command>, depth: int)
    decreases |cs|
  {
    if cs == [] then depth == 0
    else
      (cs[0].StepPop? ==> depth > 0) &&
      Nested(cs[1..], if cs[0].AssumePush? then depth + 1 else if cs[0].StepPop? then depth - 1 else depth)
  }

  /** `r` has the first `n` scopes of `s`, with everything made before the last of them and
      the assumption that opened it. */
  ghost predicate Kept(s: State, r: State, n: nat)
    requires Valid(s) && 0 < n <= |s.sizes|
  {
    Valid(r) && Symbols.Kept(s.env, r.env, n) && r.sizes == s.sizes[..n] &&
    var k := s.sizes[n - 1] + 1;
    k <= |r.assumptions| && r.assumptions[..k] == s.assumptions[..k]
  }

  lemma {:induction false} ExecKeeps(cfg: Config, s: State, c: Command, r: State, n: nat)
    requires Valid(s) && Exec(cfg, s, c).Some? && Valid(Exec(cfg, s, c).value)
    requires 0 < n <= |s.sizes| && n <= |Exec(cfg, s, c).value.sizes|
    requires Kept(Exec(cfg, s, c).value, r, n)
    ensures Kept(s, r, n)
  {
    hide CheckStep, Symbols.Kept;
    var s' := Exec(cfg, s, c).value;
    var k := s.sizes[n - 1] + 1;
    assert s'.sizes[..n] == s.sizes[..n];
    assert s'.assumptions[..k] == s.assumptions[..k];
    match c
    case Assume(name, f) => Symbols.KeptBind(s.env, r.env, n, name, MkProof(f));
    case AssumePush(name, f) =>
      Symbols.KeptBind(s.env.PushScope(), r.env, n, name, MkProof(f));
      Symbols.KeptPush(s.env, r.env, n);
    case StepPop(name, rule, proven, premises, args) =>
      var e := s.env.PopScope();
      Symbols.KeptBind(e, r.env, n, name, s'.env.binds[|e.binds|].1);
      Symbols.KeptPop(s.env, r.env, n);
    case _ =>
      Symbols.KeptBind(s.env, r.env, n, c.name, s'.env.binds[|s.env.binds|].1);
  }

  lemma {:induction false} NestedKeeps(cfg: Config, s: State, cs: seq<Command>, depth: nat)
    requires Valid(s) && Nested(cs, depth) && depth < |s.sizes| && Run(cfg, s, cs).Some?
    ensures Kept(s, Run(cfg, s, cs).value, |s.sizes| - depth)
    decreases |cs|
  {
    hide Kept, Exec, Valid;
    if cs == [] {
      KeptSelf(s);
    } else {
      ExecValid(cfg, s, cs[0]);
      ExecDepth(cfg, s, cs[0]);
      var s' := Exec(cfg, s, cs[0]).value;
      NestedKeeps(cfg, s', cs[1..], depth + (|s'.sizes| - |s.sizes|));
      ExecKeeps(cfg, s, cs[0], Run(cfg, s, cs).value, |s.sizes| - depth);
    }
  }

  lemma {:induction false} ExecDepth(cfg: Config, s: State, c: Command)
    requires Valid(s) && Exec(cfg, s, c).Some?
    ensures |Exec(cfg, s, c).value.sizes| ==
            if c.AssumePush? then |s.sizes| + 1 else if c.StepPop? then |s.sizes| - 1 else |s.sizes|
  {
  }

  lemma {:induction false} KeptSelf(s: State)
    requires Valid(s) && s.sizes != []
    ensures Kept(s, s, |s.sizes|)
  {
  }

  /** A subproof is discharged exactly: the step-pop consumes the formula of the matching
      assume-push, whatever happened in between, and all that remains of the subproof is
      the binding of its conclusion, made outside the scope. */
  lemma {:induction false} SubproofTrace(cfg: Config, s: State, name: string, f: Term, body: seq<Command>, pop: Command)
    requires Valid(s) && pop.StepPop? && Nested(body, 0)
    requires var s1 := AddAssumption(Push(s), name, f);
             Valid(s1) && Run(cfg, s1, body).Some? && Valid(Run(cfg, s1, body).value) &&
             Exec(cfg, Run(cfg, s1, body).value, pop).Some?
    ensures var r := Run(cfg, AddAssumption(Push(s), name, f), body).value;
            var ps := LookupAll(r.env, pop.premises);
            ps.Some? &&
            var g := CheckStep(cfg.kernel, pop.rule, pop.args, pop.proven, Some(f), ps.value);
            g.Some? && Exec(cfg, r, pop) == Some(s.(env := s.env.Bind(pop.name, MkProof(g.value))))
  {
    hide CheckStep;
    var s1 := AddAssumption(Push(s), name, f);
    var n := |s.sizes|;
    NestedKeeps(cfg, s1, body, 0);
    var r := Run(cfg, s1, body).value;
    assert Kept(s1, r, n + 1);
    Symbols.KeptBind(s.env.PushScope(), r.env, n + 1, name, MkProof(f));
    Symbols.KeptThenPop(s.env, r.env);
    assert r.sizes == s1.sizes == s.sizes + [|s.assumptions|];
    assert r.assumptions[..|s.assumptions| + 1] == s.assumptions + [f];
    assert Scope(r)[0] == r.assumptions[..|s.assumptions| + 1][|s.assumptions|] == f;
    assert Outside(r) == r.assumptions[..|s.assumptions| + 1][..|s.assumptions|] == s.assumptions;
    assert r.sizes[..|r.sizes| - 1] == s.sizes;
    assert Pop(r) == s;
  }
}
