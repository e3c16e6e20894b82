/** The proof commands as the checker runs them, on a state that is updated in place. */
module ProofChecker {
  import opened Terms
  import opened Bindings
  import opened ProofSemantics
  import opened ProofMachine

  class Checker {
    const cfg: Config
    const table: Symbols.SymbolTable
    var assumptions: seq<Term>
    var assumptionsSizeCtx: seq<nat>

    ghost function Abs(): State
      reads this, table
    {
      State(table.env, assumptions, assumptionsSizeCtx)
    }

    ghost predicate Valid()
      reads this, table
    {
      table.Valid() && ProofMachine.Valid(Abs())
    }

    constructor (cfg: Config)
      ensures Valid() && fresh(table) && this.cfg == cfg && Abs() == Start()
    {
      this.cfg := cfg;
      table := new Symbols.SymbolTable();
      assumptions, assumptionsSizeCtx := [], [];
    }

    method PushAssumptionScope()
      requires Valid()
      modifies this, table
      ensures table.Valid() && Abs() == Push(old(Abs()))
    {
      table.PushScope();
      assumptionsSizeCtx := assumptionsSizeCtx + [|assumptions|];
    }

    method PopAssumptionScope()
      requires Valid() && assumptionsSizeCtx != []
      modifies this, table
      ensures Valid() && Abs() == Pop(old(Abs()))
    {
      var lastSize := assumptionsSizeCtx[|assumptionsSizeCtx| - 1];
      assumptionsSizeCtx := assumptionsSizeCtx[..|assumptionsSizeCtx| - 1];
      assumptions := assumptions[..lastSize];
      var ok := table.PopScope();
    }

    /** Adds to the assumptions; false if it should be one of the referenced assertions and is not. */
    method AddAssumption(a: Term) returns (ok: bool)
      modifies this`assumptions
      ensures assumptions == old(assumptions) + [a]
      ensures ok <==> (assumptionsSizeCtx == [] ==> Referenced(cfg, a))
    {
      assumptions := assumptions + [a];
      if cfg.reference.Some? {
        if assumptionsSizeCtx == [] {
          return cfg.normalize(a) in cfg.reference.value;
        }
      }
      return true;
    }

    method ParsePremises(names: seq<string>) returns (r: Option<seq<Term>>)
      requires Valid()
      ensures r == LookupAll(table.env, names)
    {
      var i := 0;
      var ts: seq<Term> := [];
      while i < |names|
        invariant 0 <= i <= |names|
        invariant LookupAll(table.env, names[..i]) == Some(ts)
      {
        LookupAllNext(table.env, names, i);
        var t := table.GetVar(names[i]);
        if t.None? {
          return None;
        }
        ts := ts + [t.value];
        i := i + 1;
      }
      assert names[..i] == names;
      return Some(ts);
    }

    lemma {:induction false} LookupAllNext(env: Env, names: seq<string>, i: nat)
      requires i < |names|
      ensures Lookup(env, names[i]).None? ==> LookupAll(env, names).None?
      ensures LookupAll(env, names[..i]).Some? && Lookup(env, names[i]).Some? ==>
                LookupAll(env, names[..i + 1]) == Some(LookupAll(env, names[..i]).value + [Lookup(env, names[i]).value])
    {
      if i > 0 {
        LookupAllNext(env, names[1..], i - 1);
        assert names[..i + 1][1..] == names[1..][..i] && names[..i][1..] == names[1..][..i - 1];
        if LookupAll(env, names[..i]).Some? && Lookup(env, names[i]).Some? {
          var x, v, t := Lookup(env, names[0]).value, LookupAll(env, names[1..][..i - 1]).value, Lookup(env, names[i]).value;
          assert [x] + (v + [t]) == [x] + v + [t];
        }
      } else {
        assert names[..i + 1] == [names[0]] && names[..i] == [] && names[..i + 1][1..] == [];
        assert LookupAll(env, []) == Some([]);
        assert Lookup(env, names[i]).Some? ==> var t := Lookup(env, names[i]).value; [t] + [] == [] + [t];
      }
    }

    /** The conclusion of the step, if it checks; a step-pop discharges the first of the
        current assumptions. */
    method NotifyStep(rule: Rule, proven: Option<Term>, premises: seq<Term>, args: seq<Term>, isPop: bool)
        returns (result: Option<Term>)
      requires Valid() && (isPop ==> assumptionsSizeCtx != [])
      ensures result == CheckStep(cfg.kernel, rule, args, proven, if isPop then Some(Scope(Abs())[0]) else None, premises)
    {
      hide Symbols.Represents, Symbols.SymbolTable.Valid;
      var children := args;
      if rule.isExplicit {
        if proven.None? {
          return None;
        }
        children := children + [proven.value];
      }
      assert children == args + if rule.isExplicit then [proven.value] else [];
      var assumption: Option<Term> := None;
      if isPop == rule.isAssume {
        if isPop {
          var current := assumptions[assumptionsSizeCtx[|assumptionsSizeCtx| - 1]..];
          assumption := Some(current[0]);
          children := children + [current[0]];
        }
      } else {
        return None;
      }
      ghost var front := args + (if rule.isExplicit then [proven.value] else [])
                              + (if assumption.Some? then [assumption.value] else []);
      assert children == front;
      if rule.premiseList.Some? {
        for i := 0 to |premises|
          invariant forall j | 0 <= j < i :: IsProof(premises[j])
        {
          if !IsProof(premises[i]) {
            return None;
          }
        }
        var ap := cfg.kernel.combine(rule.premiseList.value, Formulas(premises));
        if ap.None? {
          return None;
        }
        children := children + [MkProof(ap.value)];
      } else {
        children := children + premises;
      }
      assert RuleArguments(cfg.kernel, rule, args, proven, assumption, premises) == Some(children);
      if children == [] {
        result := Some(rule.program);
      } else {
        result := cfg.kernel.run(rule.program, children);
        if result.None? {
          return;
        }
      }
      if !cfg.kernel.isBool(result.value) || (proven.Some? && proven.value != result.value) {
        return None;
      }
    }

    /** One command: it is accepted, and changes the state, exactly as the machine on values says. */
    method ParseNextCommand(c: Command) returns (ok: bool)
      requires Valid()
      modifies this, table
      ensures ok <==> Exec(cfg, old(Abs()), c).Some?
      ensures ok ==> Valid() && Some(Abs()) == Exec(cfg, old(Abs()), c)
    {
      hide CheckStep, Symbols.Represents;
      ghost var s := Abs();
      match c
      case Assume(name, f) =>
        table.Bind(name, MkProof(f));
        ok := AddAssumption(f);
      case AssumePush(name, f) =>
        PushAssumptionScope();
        PushValid(s);
        table.Bind(name, MkProof(f));
        ok := AddAssumption(f);
      case Step(name, rule, proven, premises, args) =>
        ok := ParseStep(name, rule, proven, premises, args, false);
      case StepPop(name, rule, proven, premises, args) =>
        if assumptionsSizeCtx == [] {
          return false;
        }
        ok := ParseStep(name, rule, proven, premises, args, true);
      case Declare(name, t) =>
        if IsProof(t) {
          return false;
        }
        table.Bind(name, t);
        ok := true;
      case Alias(name, source) => ok := BindAlias(name, source);
    }

    method BindAlias(name: string, source: string) returns (ok: bool)
      requires Valid()
      modifies this, table
      ensures ok <==> Lookup(old(table.env), source).Some?
      ensures ok ==> Valid() && Abs() == old(Abs()).(env := old(table.env).Bind(name, Lookup(old(table.env), source).value))
    {
      hide Symbols.Represents, Of;
      var t := table.GetVar(source);
      if t.None? {
        return false;
      }
      table.Bind(name, t.value);
      ok := true;
    }

    /** The common part of step and step-pop; the scope is closed before the conclusion is bound. */
    method ParseStep(name: string, rule: Rule, proven: Option<Term>, premises: seq<string>, args: seq<Term>, isPop: bool)
        returns (ok: bool)
      requires Valid() && (isPop ==> assumptionsSizeCtx != [])
      modifies this, table
      ensures var c := if isPop then StepPop(name, rule, proven, premises, args) else Step(name, rule, proven, premises, args);
              (ok <==> Exec(cfg, old(Abs()), c).Some?) &&
              (ok ==> Valid() && Some(Abs()) == Exec(cfg, old(Abs()), c))
    {
      hide CheckStep, Symbols.Represents;
      var ps := ParsePremises(premises);
      if ps.None? {
        return false;
      }
      var concTerm := NotifyStep(rule, proven, ps.value, args, isPop);
      if concTerm.None? {
        return false;
      }
      if isPop {
        PopAssumptionScope();
      }
      table.Bind(name, MkProof(concTerm.value));
      ok := true;
    }

    /** A whole file: it is accepted, with the same final state, exactly as the machine says. */
    method ParseCommands(cs: seq<Command>) returns (ok: bool)
      requires Valid() && Abs() == Start()
      modifies this, table
      ensures ok <==> Run(cfg, Start(), cs).Some?
      ensures ok ==> Valid() && Some(Abs()) == Run(cfg, Start(), cs)
    {
      hide Exec, Symbols.Represents;
      var i := 0;
      while i < |cs|
        invariant i <= |cs| && Valid()
        invariant Run(cfg, Start(), cs) == Run(cfg, Abs(), cs[i..])
      {
        assert cs[i..][1..] == cs[i + 1..];
        ok := ParseNextCommand(cs[i]);
        if !ok {
          return;
        }
        i := i + 1;
      }
      ok := true;
    }
  }
}
