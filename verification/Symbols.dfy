/** The scoped, overloadable symbol table, as a list of live bindings. */
module Bindings {
  import opened Terms

  type Binding = (string, Term)

  /** All live bindings in the order they were made, how many of them are global, and
      for each open scope how many non-global bindings there were when it was opened. */
  datatype Env = Env(binds: seq<Binding>, globals: nat, sizes: seq<nat>) {

    ghost predicate Valid() {
      && globals <= |binds|
      && (sizes == [] ==> globals == |binds|)
      && (forall i | 0 <= i < |sizes| :: globals + sizes[i] <= |binds|)
      && (forall i, j | 0 <= i < j < |sizes| :: sizes[i] <= sizes[j])
      && (sizes != [] ==> sizes[0] == 0)
    }

    ghost function PushScope(): (e: Env)
      requires Valid()
      ensures e.Valid() && e.sizes != []
    {
      this.(sizes := sizes + [|binds| - globals])
    }

    ghost function PopScope(): (e: Env)
      requires Valid() && sizes != []
      ensures e.Valid()
    {
      var n := globals + sizes[|sizes| - 1];
      assert |sizes| == 1 ==> binds[..n] == binds[..globals];
      this.(binds := binds[..n], sizes := sizes[..|sizes| - 1])
    }

    ghost function Bind(name: string, e: Term): (r: Env)
      requires Valid()
      ensures r.Valid()
    {
      Env(binds + [(name, e)], if sizes == [] then globals + 1 else globals, sizes)
    }
  }

  /** The terms bound to a name, oldest first. */
  ghost function Of(name: string, binds: seq<Binding>): seq<Term> {
    if binds == [] then []
    else
      var rest, last := binds[..|binds| - 1], binds[|binds| - 1];
      Of(name, rest) + if last.0 == name then [last.1] else []
  }

  ghost predicate IsBound(name: string, binds: seq<Binding>) {
    exists i | 0 <= i < |binds| :: binds[i].0 == name
  }

  function Names(binds: seq<Binding>): seq<string> {
    seq(|binds|, i requires 0 <= i < |binds| => binds[i].0)
  }

  /** The names of the non-global bindings that overloaded an earlier binding. */
  ghost function OverloadedNames(binds: seq<Binding>, globals: nat): seq<string> {
    if |binds| <= globals then []
    else
      var rest, name := binds[..|binds| - 1], binds[|binds| - 1].0;
      OverloadedNames(rest, globals) + if IsBound(name, rest) then [name] else []
  }

  lemma {:induction false} OfSnoc(name: string, binds: seq<Binding>, b: Binding)
    ensures Of(name, binds + [b]) == Of(name, binds) + if b.0 == name then [b.1] else []
  {
  }

  lemma {:induction false} OfEmptyIff(name: string, binds: seq<Binding>)
    ensures Of(name, binds) == [] <==> !IsBound(name, binds)
  {
    if binds != [] {
      var n := |binds| - 1;
      OfEmptyIff(name, binds[..n]);
      if IsBound(name, binds[..n]) {
        var i :| 0 <= i < n && binds[..n][i].0 == name;
        assert binds[i].0 == name;
      }
    }
  }

  lemma {:induction false} BoundSnoc(name: string, binds: seq<Binding>, b: Binding)
    ensures IsBound(name, binds + [b]) <==> IsBound(name, binds) || b.0 == name
  {
    var all := binds + [b];
    assert all[|binds|] == b;
    if IsBound(name, binds) {
      var i :| 0 <= i < |binds| && binds[i].0 == name;
      assert all[i].0 == name;
    }
  }

  lemma {:induction false} OverloadedBound(binds: seq<Binding>, globals: nat, name: string)
    requires name in OverloadedNames(binds, globals)
    ensures |Of(name, binds)| >= 2
  {
    var n := |binds| - 1;
    var rest, last := binds[..n], binds[n];
    if name in OverloadedNames(rest, globals) {
      OverloadedBound(rest, globals, name);
    } else {
      OfEmptyIff(name, rest);
    }
  }

  /** Where a name is bound, oldest first. */
  ghost function Positions(name: string, binds: seq<Binding>): (ps: seq<nat>)
    ensures forall i | 0 <= i < |ps| :: ps[i] < |binds|
  {
    if binds == [] then []
    else
      var n := |binds| - 1;
      Positions(name, binds[..n]) + if binds[n].0 == name then [n] else []
  }

  /** The terms of a name are read off at all positions where it is bound, in their order. */
  lemma {:induction false} OfPositions(name: string, binds: seq<Binding>)
    ensures var ps := Positions(name, binds);
            |ps| == |Of(name, binds)| &&
            (forall i | 0 <= i < |ps| :: binds[ps[i]] == (name, Of(name, binds)[i])) &&
            (forall i, j | 0 <= i < j < |ps| :: ps[i] < ps[j])
  {
    if binds != [] {
      OfPositions(name, binds[..|binds| - 1]);
    }
  }

  lemma {:induction false} PositionsIff(name: string, binds: seq<Binding>, p: nat)
    requires p < |binds|
    ensures p in Positions(name, binds) <==> binds[p].0 == name
  {
    var n := |binds| - 1;
    if p < n {
      PositionsIff(name, binds[..n], p);
    } else {
      assert p !in Positions(name, binds[..n]);
    }
  }

  /** The last term of a name is that of its latest binding. */
  lemma {:induction false} LatestIff(name: string, binds: seq<Binding>, t: Term)
    ensures var os := Of(name, binds);
            os != [] && os[|os| - 1] == t <==>
            exists j: nat :: j < |binds| && binds[j] == (name, t) && forall k | j < k < |binds| :: binds[k].0 != name
  {
    var n, os := |binds| - 1, Of(name, binds);
    if binds != [] {
      var rest := binds[..n];
      LatestIff(name, rest, t);
      assert forall i | 0 <= i < n :: rest[i] == binds[i];
      if binds[n].0 == name {
        assert os[|os| - 1] == binds[n].1;
      } else {
        assert os == Of(name, rest);
        if exists j: nat :: j < n && rest[j] == (name, t) && forall k | j < k < n :: rest[k].0 != name {
          var j: nat :| j < n && rest[j] == (name, t) && forall k | j < k < n :: rest[k].0 != name;
          assert binds[j] == (name, t) && forall k | j < k < |binds| :: binds[k].0 != name;
        }
        if exists j: nat :: j < |binds| && binds[j] == (name, t) && forall k | j < k < |binds| :: binds[k].0 != name {
          var j: nat :| j < |binds| && binds[j] == (name, t) && forall k | j < k < |binds| :: binds[k].0 != name;
          assert j < n && rest[j] == (name, t) && forall k | j < k < n :: rest[k].0 != name;
        }
      }
    }
  }

  /** The last overloaded name is the name of the last binding exactly when the last
      binding is an overload: this is what the undo loop tests. */
  lemma {:induction false} LastOverloaded(binds: seq<Binding>, globals: nat)
    requires globals < |binds|
    ensures var over, rest, name := OverloadedNames(binds, globals), binds[..|binds| - 1], binds[|binds| - 1].0;
            over != [] && over[|over| - 1] == name <==> IsBound(name, rest)
  {
    var over, rest, name := OverloadedNames(binds, globals), binds[..|binds| - 1], binds[|binds| - 1].0;
    if over != [] && over[|over| - 1] == name && !IsBound(name, rest) {
      assert over == OverloadedNames(rest, globals);
      OverloadedBound(rest, globals, name);
      OfEmptyIff(name, rest);
    }
  }
}

module Symbols {
  import opened Terms
  import opened Bindings

  /** A name is bound to its last binding, and overloaded by all of them if there are several. */
  ghost predicate Tables(binds: seq<Binding>, symTable: map<string, Term>, overloads: map<string, seq<Term>>) {
    && (forall n :: n in symTable <==> IsBound(n, binds))
    && (forall n | n in symTable :: Of(n, binds) != [] && symTable[n] == Of(n, binds)[|Of(n, binds)| - 1])
    && (forall n :: n in overloads <==> |Of(n, binds)| >= 2)
    && (forall n | n in overloads :: overloads[n] == Of(n, binds))
  }

  /** The concrete tables say what the bindings say. */
  ghost predicate Represents(env: Env, symTable: map<string, Term>, overloads: map<string, seq<Term>>,
                             overloadedDecls: seq<string>)
  {
    Tables(env.binds, symTable, overloads) && overloadedDecls == OverloadedNames(env.binds, env.globals)
  }

  /** The tables are determined by the bindings. */
  lemma {:induction false} RepresentsUnique(env: Env, s: map<string, Term>, o: map<string, seq<Term>>, d: seq<string>,
                                            s': map<string, Term>, o': map<string, seq<Term>>, d': seq<string>)
    requires Represents(env, s, o, d) && Represents(env, s', o', d')
    ensures s == s' && o == o' && d == d'
  {
  }

  lemma {:induction false} SnocFacts(binds: seq<Binding>, b: Binding, n: string)
    ensures Of(n, binds + [b]) == Of(n, binds) + if n == b.0 then [b.1] else []
    ensures IsBound(n, binds + [b]) <==> IsBound(n, binds) || n == b.0
    ensures Of(n, binds) == [] <==> !IsBound(n, binds)
  {
    OfSnoc(n, binds, b);
    BoundSnoc(n, binds, b);
    OfEmptyIff(n, binds);
  }

  lemma {:induction false} OverloadedSnoc(binds: seq<Binding>, b: Binding, globals: nat)
    ensures OverloadedNames(binds + [b], globals) ==
            if |binds| + 1 <= globals then []
            else OverloadedNames(binds, globals) + if IsBound(b.0, binds) then [b.0] else []
  {
  }

  lemma {:induction false} NoneOverloaded(binds: seq<Binding>, globals: nat)
    requires |binds| <= globals
    ensures OverloadedNames(binds, globals) == []
  {
  }

  /** The tables after one more binding. */
  lemma {:induction false} BindRepresents(env: Env, name: string, e: Term, s: map<string, Term>, o: map<string, seq<Term>>, d: seq<string>)
    requires env.Valid() && Represents(env, s, o, d)
    ensures var o' := if name in s then o[name := (if name in o then o[name] else [s[name]]) + [e]] else o;
            var d' := if name in s && env.sizes != [] then d + [name] else d;
            Represents(env.Bind(name, e), s[name := e], o', d')
  {
    hide Of, IsBound, OverloadedNames, Tables;
    var b := (name, e);
    BindTables(env.binds, name, e, s, o);
    SnocFacts(env.binds, b, name);
    OverloadedSnoc(env.binds, b, env.Bind(name, e).globals);
    TablesBound(env.binds, s, o, name);
    if env.sizes == [] {
      NoneOverloaded(env.binds, env.globals);
    }
  }

  lemma {:induction false} TablesBound(binds: seq<Binding>, s: map<string, Term>, o: map<string, seq<Term>>, name: string)
    requires Tables(binds, s, o)
    ensures name in s <==> IsBound(name, binds)
  {
  }

  lemma {:induction false} BindTables(binds: seq<Binding>, name: string, e: Term, s: map<string, Term>, o: map<string, seq<Term>>)
    requires Tables(binds, s, o)
    ensures var o' := if name in s then o[name := (if name in o then o[name] else [s[name]]) + [e]] else o;
            Tables(binds + [(name, e)], s[name := e], o')
  {
    hide Of, IsBound;
    var binds', s' := binds + [(name, e)], s[name := e];
    var o' := if name in s then o[name := (if name in o then o[name] else [s[name]]) + [e]] else o;
    SnocFacts(binds, (name, e), name);
    assert name in s && name !in o ==> Of(name, binds) == [s[name]];
    forall n ensures n in s' <==> IsBound(n, binds') {
      SnocFacts(binds, (name, e), n);
    }
    forall n | n in s' ensures Of(n, binds') != [] && s'[n] == Of(n, binds')[|Of(n, binds')| - 1] {
      SnocFacts(binds, (name, e), n);
    }
    forall n ensures n in o' <==> |Of(n, binds')| >= 2 {
      SnocFacts(binds, (name, e), n);
    }
    forall n | n in o' ensures o'[n] == Of(n, binds') {
      SnocFacts(binds, (name, e), n);
    }
  }

  /** The tables after the last binding, which is not global, is undone. */
  lemma {:induction false} UndoRepresents(env: Env, s: map<string, Term>, o: map<string, seq<Term>>, d: seq<string>,
                                          rest: seq<Binding>, b: Binding)
    requires env.globals <= |rest| && env.binds == rest + [b] && Represents(env, s, o, d)
    ensures b.0 in s && (d != [] && d[|d| - 1] == b.0 <==> IsBound(b.0, rest))
    ensures IsBound(b.0, rest) ==>
              b.0 in o && |o[b.0]| >= 2 &&
              var ov := o[b.0][..|o[b.0]| - 1];
              Represents(env.(binds := rest), s[b.0 := ov[|ov| - 1]],
                         if |ov| == 1 then o - {b.0} else o[b.0 := ov], d[..|d| - 1])
    ensures !IsBound(b.0, rest) ==> Represents(env.(binds := rest), s - {b.0}, o, d)
  {
    hide Of, IsBound, OverloadedNames;
    var name := b.0;
    SnocFacts(rest, b, name);
    OverloadedSnoc(rest, b, env.globals);
    assert env.binds[..|env.binds| - 1] == rest;
    LastOverloaded(env.binds, env.globals);
    if IsBound(name, rest) {
      var ov := o[name][..|o[name]| - 1];
      assert ov == Of(name, rest);
      var s', o' := s[name := ov[|ov| - 1]], if |ov| == 1 then o - {name} else o[name := ov];
      UndoTables(rest, b, s, s', o, o');
      assert d[..|d| - 1] == OverloadedNames(rest, env.globals);
    } else {
      UndoTables(rest, b, s, s - {name}, o, o);
    }
  }

  lemma {:induction false} UndoTables(rest: seq<Binding>, b: Binding, s: map<string, Term>, s': map<string, Term>,
                                      o: map<string, seq<Term>>, o': map<string, seq<Term>>)
    requires Tables(rest + [b], s, o)
    requires forall n | n != b.0 :: (n in s' <==> n in s) && (n in s ==> s'[n] == s[n])
    requires forall n | n != b.0 :: (n in o' <==> n in o) && (n in o ==> o'[n] == o[n])
    requires b.0 in s' <==> IsBound(b.0, rest)
    requires b.0 in s' ==> Of(b.0, rest) != [] && s'[b.0] == Of(b.0, rest)[|Of(b.0, rest)| - 1]
    requires b.0 in o' <==> |Of(b.0, rest)| >= 2
    requires b.0 in o' ==> o'[b.0] == Of(b.0, rest)
    ensures Tables(rest, s', o')
  {
    hide Of, IsBound;
    forall n ensures n in s' <==> IsBound(n, rest) {
      SnocFacts(rest, b, n);
    }
    forall n | n in s' ensures Of(n, rest) != [] && s'[n] == Of(n, rest)[|Of(n, rest)| - 1] {
      SnocFacts(rest, b, n);
    }
    forall n ensures n in o' <==> |Of(n, rest)| >= 2 {
      SnocFacts(rest, b, n);
    }
    forall n | n in o' ensures o'[n] == Of(n, rest) {
      SnocFacts(rest, b, n);
    }
  }

  class SymbolTable {
    var symTable: map<string, Term>
    var decls: seq<string>
    var overloadedDecls: seq<string>
    var overloads: map<string, seq<Term>>
    var declsSizeCtx: seq<nat>
    ghost var env: Env

    ghost predicate Valid()
      reads this
    {
      && env.Valid()
      && env.sizes == declsSizeCtx
      && decls == Names(env.binds[env.globals..])
      && Represents(env, symTable, overloads, overloadedDecls)
    }

    constructor ()
      ensures Valid() && env == Env([], 0, [])
    {
      symTable, decls, overloadedDecls, overloads, declsSizeCtx := map[], [], [], map[], [];
      env := Env([], 0, []);
    }

    method PushScope()
      requires Valid()
      modifies this
      ensures Valid() && env == old(env).PushScope()
      ensures symTable == old(symTable) && overloads == old(overloads)
    {
      declsSizeCtx := declsSizeCtx + [|decls|];
      env := env.PushScope();
    }

    /** Binds a name; if it is bound already, both terms stay known as overloads. */
    method Bind(name: string, e: Term)
      requires Valid()
      modifies this
      ensures Valid() && env == old(env).Bind(name, e)
    {
      hide Represents;
      BindRepresents(env, name, e, symTable, overloads, overloadedDecls);
      if name in symTable {
        var ov := if name in overloads then overloads[name] else [symTable[name]];
        overloads := overloads[name := ov + [e]];
        if declsSizeCtx != [] {
          overloadedDecls := overloadedDecls + [name];
        }
      }
      symTable := symTable[name := e];
      if declsSizeCtx != [] {
        decls := decls + [name];
      }
      ghost var env' := env.Bind(name, e);
      assert env.sizes != [] ==> env'.binds[env'.globals..] == env.binds[env.globals..] + [(name, e)];
      assert env.sizes == [] ==> env'.binds[env'.globals..] == [];
      env := env';
    }

    /** Undoes the bindings of the innermost scope, last one first. */
    method PopScope() returns (ok: bool)
      requires Valid()
      modifies this
      ensures ok <==> old(declsSizeCtx) != []
      ensures Valid() && env == if ok then old(env).PopScope() else old(env)
    {
      hide Represents;
      if declsSizeCtx == [] {
        return false;
      }
      ok := true;
      ghost var env0 := env;
      var lastSize := declsSizeCtx[|declsSizeCtx| - 1];
      declsSizeCtx := declsSizeCtx[..|declsSizeCtx| - 1];
      var i := |decls|;
      while i > lastSize
        invariant lastSize <= i <= |decls| && decls == Names(env0.binds[env0.globals..])
        invariant declsSizeCtx == env0.sizes[..|env0.sizes| - 1]
        invariant env == env0.(binds := env0.binds[..env0.globals + i])
        invariant Represents(env, symTable, overloads, overloadedDecls)
      {
        i := i - 1;
        ghost var rest := env0.binds[..env0.globals + i];
        assert rest == env.binds[..|env.binds| - 1];
        UndoRepresents(env, symTable, overloads, overloadedDecls, rest, env.binds[|rest|]);
        assert env.binds[|rest|].0 == decls[i];
        env := env.(binds := rest);
        if overloadedDecls != [] && overloadedDecls[|overloadedDecls| - 1] == decls[i] {
          overloadedDecls := overloadedDecls[..|overloadedDecls| - 1];
          var ov := overloads[decls[i]];
          ov := ov[..|ov| - 1];
          symTable := symTable[decls[i] := ov[|ov| - 1]];
          if |ov| == 1 {
            overloads := overloads - {decls[i]};
          } else {
            overloads := overloads[decls[i] := ov];
          }
          continue;
        }
        symTable := symTable - {decls[i]};
      }
      decls := decls[..lastSize];
      SameTables(env, env0.PopScope(), symTable, overloads, overloadedDecls);
      env := env0.PopScope();
    }

    lemma {:induction false} SameTables(e: Env, e': Env, s: map<string, Term>, o: map<string, seq<Term>>, d: seq<string>)
      requires Represents(e, s, o, d) && e.binds == e'.binds && e.globals == e'.globals
      ensures Represents(e', s, o, d)
    {
    }

    method GetVar(name: string) returns (r: Option<Term>)
      requires Valid()
      ensures r == var os := Of(name, env.binds); if os == [] then None else Some(os[|os| - 1])
      ensures forall t :: r == Some(t) <==>
                exists j: nat :: j < |env.binds| && env.binds[j] == (name, t) &&
                                 forall k | j < k < |env.binds| :: env.binds[k].0 != name
    {
      forall t {
        LatestIff(name, env.binds, t);
      }
      OfEmptyIff(name, env.binds);
      r := if name in symTable then Some(symTable[name]) else None;
    }
  }

  // ----- runs of operations -----

  datatype TableOp = Push | Pop | BindOp(name: string, e: Term)

  /** Every pop has its push. */
  ghost predicate Bracketed(ops: seq<TableOp>, depth: int)
    requires depth >= 0
  {
    if ops == [] then depth == 0
    else match ops[0]
      case Push => Bracketed(ops[1..], depth + 1)
      case Pop => depth > 0 && Bracketed(ops[1..], depth - 1)
      case BindOp(_, _) => Bracketed(ops[1..], depth)
  }

  /** A pop without a scope is fatal. */
  ghost function RunOps(env: Env, ops: seq<TableOp>): (r: Env)
    requires env.Valid()
    ensures r.Valid()
    decreases |ops|
  {
    if ops == [] then env
    else match ops[0]
      case Push => RunOps(env.PushScope(), ops[1..])
      case Pop => if env.sizes != [] then RunOps(env.PopScope(), ops[1..]) else env
      case BindOp(n, e) => RunOps(env.Bind(n, e), ops[1..])
  }

  /** `r` has the first `n` scopes of `env`, and the bindings made before the last of them. */
  ghost predicate Kept(env: Env, r: Env, n: nat)
    requires env.Valid() && 0 < n <= |env.sizes|
  {
    var k := env.globals + env.sizes[n - 1];
    r.globals == env.globals && r.sizes == env.sizes[..n] && k <= |r.binds| && r.binds[..k] == env.binds[..k]
  }

  lemma {:induction false} KeptPush(env: Env, r: Env, n: nat)
    requires env.Valid() && 0 < n <= |env.sizes| && Kept(env.PushScope(), r, n)
    ensures Kept(env, r, n)
  {
  }

  lemma {:induction false} KeptPop(env: Env, r: Env, n: nat)
    requires env.Valid() && 0 < n < |env.sizes| && Kept(env.PopScope(), r, n)
    ensures Kept(env, r, n)
  {
  }

  lemma {:induction false} KeptBind(env: Env, r: Env, n: nat, name: string, e: Term)
    requires env.Valid() && 0 < n <= |env.sizes| && Kept(env.Bind(name, e), r, n)
    ensures Kept(env, r, n)
  {
  }

  /** A bracketed run inside an open scope only adds bindings to that scope. */
  lemma {:induction false} BracketedRun(env: Env, ops: seq<TableOp>, depth: nat)
    requires env.Valid() && Bracketed(ops, depth) && depth < |env.sizes|
    ensures Kept(env, RunOps(env, ops), |env.sizes| - depth)
    decreases |ops|
  {
    hide Kept;
    var n := |env.sizes| - depth;
    if ops == [] {
      KeptSelf(env);
    } else {
      match ops[0]
      case Push =>
        BracketedRun(env.PushScope(), ops[1..], depth + 1);
        KeptPush(env, RunOps(env, ops), n);
      case Pop =>
        BracketedRun(env.PopScope(), ops[1..], depth - 1);
        KeptPop(env, RunOps(env, ops), n);
      case BindOp(name, e) =>
        BracketedRun(env.Bind(name, e), ops[1..], depth);
        KeptBind(env, RunOps(env, ops), n, name, e);
    }
  }

  lemma {:induction false} KeptSelf(env: Env)
    requires env.Valid() && env.sizes != []
    ensures Kept(env, env, |env.sizes|)
  {
  }

  /** Popping the scope that a run was made in gives back what was there before it was opened. */
  lemma {:induction false} KeptThenPop(env: Env, r: Env)
    requires env.Valid() && r.Valid() && Kept(env.PushScope(), r, |env.sizes| + 1)
    ensures r.sizes != [] && r.PopScope() == env
  {
  }

  lemma {:induction false} RunAppend(env: Env, ops: seq<TableOp>, op: TableOp, depth: nat)
    requires env.Valid() && Bracketed(ops, depth) && depth < |env.sizes|
    ensures RunOps(env, ops + [op]) == RunOps(RunOps(env, ops), [op])
    decreases |ops|
  {
    if ops == [] {
      assert ops + [op] == [op];
    } else {
      assert (ops + [op])[1..] == ops[1..] + [op];
      match ops[0]
      case Push =>
        RunAppend(env.PushScope(), ops[1..], op, depth + 1);
      case Pop =>
        RunAppend(env.PopScope(), ops[1..], op, depth - 1);
      case BindOp(name, e) =>
        RunAppend(env.Bind(name, e), ops[1..], op, depth);
    }
  }

  /** A scope leaves no trace: after a push, any bracketed run of bindings, overloads and
      inner scopes, and the matching pop, every table is what it was. */
  lemma {:induction false} ScopeRestores(env: Env, ops: seq<TableOp>,
                                         s: map<string, Term>, o: map<string, seq<Term>>, d: seq<string>,
                                         s': map<string, Term>, o': map<string, seq<Term>>, d': seq<string>)
    requires env.Valid() && Bracketed(ops, 0)
    requires Represents(env, s, o, d)
    requires Represents(RunOps(env, [Push] + ops + [Pop]), s', o', d')
    ensures RunOps(env, [Push] + ops + [Pop]) == env && s' == s && o' == o && d' == d
  {
    hide Kept;
    var inner := env.PushScope();
    assert ([Push] + ops + [Pop])[1..] == ops + [Pop];
    BracketedRun(inner, ops, 0);
    RunAppend(inner, ops, Pop, 0);
    var r := RunOps(inner, ops);
    KeptThenPop(env, r);
    assert [Pop][1..] == [] && RunOps(r, [Pop]) == r.PopScope();
    RepresentsUnique(env, s, o, d, s', o', d');
  }
}
