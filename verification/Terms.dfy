/** Terms of the proof checker as values.  Two terms of the checker are the same
    object iff they are structurally equal, which module HashConsing proves; so
    the pointer comparisons of the source are equalities of these values. */
module Terms {

  datatype Option<+T> = None | Some(value: T)

  /** The operators the evaluator interprets.  `Prim` stands for each remaining
      literal operator (arithmetic, strings, hashes, types, ...), told apart by a code. */
  datatype LitOp =
    | Ite | Requires | IsOk | IsEq | Eq
    | ListNil | ListCons | ListLength | ListConcat | ListNth | ListFind
    | ListErase | ListEraseAll | ListRev | ListSetOf
    | ListMinclude | ListMeq | ListDiff | ListInter | ListSingletonElim
    | Prim(code: nat)

  datatype Kind =
    | Apply | ApplyOpaque | Tuple | Lambda | Variable | Proof | Parameterized
    | FunctionType | ProgramType | QuoteType | Type | BoolType | As | AsReturn
    | Op(op: LitOp)

  /** The leaves that carry data, and one constructor for everything built from a
      kind and a list of children (which may be empty, as for `Type`). */
  datatype Term =
    | Param(id: nat)
    | ProgramConst(id: nat)
    | Symbol(id: nat)
    | Any
    | Bool(value: bool)
    | Numeral(n: int)
    | Literal(id: nat)
    | Node(kind: Kind, children: seq<Term>)

  /** A context binds parameters to terms. */
  type Ctx = map<Term, Term>

  predicate IsLiteral(t: Term) {
    t.Bool? || t.Numeral? || t.Literal?
  }

  /** No parameter and no `eo::?` occurs. */
  predicate Ground(t: Term) {
    match t
    case Param(_) => false
    case Any => false
    case Node(_, cs) => forall i | 0 <= i < |cs| :: Ground(cs[i])
    case _ => true
  }

  /** A program constant, `eo::?` or applied literal operator occurs. */
  predicate Evaluatable(t: Term) {
    match t
    case ProgramConst(_) => true
    case Any => true
    case Node(k, cs) => cs != [] && (k.Op? || exists i | 0 <= i < |cs| :: Evaluatable(cs[i]))
    case _ => false
  }

  predicate AllGround(ts: seq<Term>) {
    forall i | 0 <= i < |ts| :: Ground(ts[i])
  }

  /** A ground term on which no evaluation is pending. */
  predicate Value(t: Term) {
    Ground(t) && !Evaluatable(t)
  }

  ghost function Size(t: Term): (n: nat)
    ensures n > 0
    decreases t, 1
  {
    match t
    case Node(_, cs) => 1 + Sizes(cs)
    case _ => 1
  }

  ghost function Sizes(ts: seq<Term>): nat
    decreases ts, 0
  {
    if ts == [] then 0 else Size(ts[0]) + Sizes(ts[1..])
  }

  lemma {:induction false} SizesAppend(xs: seq<Term>, ys: seq<Term>)
    ensures Sizes(xs + ys) == Sizes(xs) + Sizes(ys)
  {
    if xs == [] {
      assert xs + ys == ys;
    } else {
      assert (xs + ys)[1..] == xs[1..] + ys;
      SizesAppend(xs[1..], ys);
    }
  }

  lemma {:induction false} SizeElement(ts: seq<Term>, i: nat)
    requires i < |ts|
    ensures Size(ts[i]) <= Sizes(ts)
  {
    if i > 0 {
      SizeElement(ts[1..], i - 1);
    }
  }

  lemma {:induction false} SizeChild(t: Term, i: nat)
    requires t.Node? && i < |t.children|
    ensures Size(t.children[i]) < Size(t)
  {
    SizeElement(t.children, i);
  }

  /** The parameters that occur in a term. */
  ghost function Params(t: Term): (ps: set<Term>)
    ensures forall p | p in ps :: p.Param?
    decreases t
  {
    match t
    case Param(_) => {t}
    case Node(_, cs) => set i, p | 0 <= i < |cs| && p in Params(cs[i]) :: p
    case _ => {}
  }

  ghost function ParamsOf(ts: seq<Term>): set<Term> {
    set i, p | 0 <= i < |ts| && p in Params(ts[i]) :: p
  }

  /** `eo::?` occurs. */
  predicate HasAny(t: Term) {
    match t
    case Any => true
    case Node(_, cs) => exists i | 0 <= i < |cs| :: HasAny(cs[i])
    case _ => false
  }

  /** Plain simultaneous substitution. */
  function Subst(t: Term, s: Ctx): Term {
    match t
    case Param(_) => if t in s then s[t] else t
    case Node(k, cs) => Node(k, seq(|cs|, i requires 0 <= i < |cs| => Subst(cs[i], s)))
    case _ => t
  }

  /** Groundness is the absence of the two non-ground leaves. */
  lemma {:induction false} GroundIff(t: Term)
    ensures Ground(t) <==> Params(t) == {} && !HasAny(t)
  {
    match t
    case Node(_, cs) =>
      forall i | 0 <= i < |cs|
        ensures Ground(cs[i]) <==> Params(cs[i]) == {} && !HasAny(cs[i])
      {
        GroundIff(cs[i]);
      }
      if !Ground(t) {
        var i :| 0 <= i < |cs| && !Ground(cs[i]);
        if Params(cs[i]) != {} {
          var p :| p in Params(cs[i]);
          assert p in Params(t);
        }
      } else {
        assert Params(t) == {};
      }
    case _ =>
  }

  lemma {:induction false} SubstGround(t: Term, s: Ctx)
    requires Ground(t)
    ensures Subst(t, s) == t
  {
    match t
    case Node(k, cs) =>
      forall i | 0 <= i < |cs|
        ensures Subst(cs[i], s) == cs[i]
      {
        SubstGround(cs[i], s);
      }
      assert Subst(t, s).children == cs;
    case _ =>
  }

  // ----- visit stacks -----

  /** Position `i` of the stack holds `t`, and only smaller terms are above it. */
  ghost predicate Tops(visit: seq<Term>, t: Term, i: nat) {
    i < |visit| && visit[i] == t && forall j | i < j < |visit| :: Size(visit[j]) < Size(t)
  }

  lemma {:induction false} TopsUnique(visit: seq<Term>, t: Term, i: nat, j: nat)
    requires Tops(visit, t, i) && Tops(visit, t, j)
    ensures i == j
  {
  }

  // ----- subterms -----

  ghost function Subs(t: Term): set<Term>
    decreases t
  {
    if t.Node? then {t} + set i, s | 0 <= i < |t.children| && s in Subs(t.children[i]) :: s else {t}
  }

  lemma {:induction false} SubsChild(t: Term, s: Term, i: nat)
    requires s in Subs(t) && s.Node? && i < |s.children|
    ensures s.children[i] in Subs(t)
    decreases t
  {
    if s == t {
      SubsSelf(s.children[i]);
    } else {
      var j :| 0 <= j < |t.children| && s in Subs(t.children[j]);
      SubsChild(t.children[j], s, i);
    }
  }

  lemma {:induction false} SubsSelf(t: Term)
    ensures t in Subs(t)
  {
  }

  /** Which terms occur below a node. */
  lemma {:induction false} SubsOfNode(t: Term, s: Term)
    requires t.Node?
    ensures s in Subs(t) <==> s == t || exists i :: 0 <= i < |t.children| && s in Subs(t.children[i])
  {
  }

  /** Parameters, `eo::?` and pending evaluations, wherever they occur. */
  lemma {:induction false} OccursIff(t: Term, p: Term)
    ensures p in Params(t) <==> p.Param? && p in Subs(t)
    ensures HasAny(t) <==> Any in Subs(t)
  {
    if t.Node? {
      forall i | 0 <= i < |t.children|
        ensures p in Params(t.children[i]) <==> p.Param? && p in Subs(t.children[i])
        ensures HasAny(t.children[i]) <==> Any in Subs(t.children[i])
      {
        OccursIff(t.children[i], p);
      }
      SubsOfNode(t, p);
      SubsOfNode(t, Any);
    }
  }

  /** What must be evaluated: a program constant, `eo::?`, or a literal operator applied to something. */
  predicate Pending(s: Term) {
    s.ProgramConst? || s.Any? || (s.Node? && s.kind.Op? && s.children != [])
  }

  lemma {:induction false} EvaluatableIff(t: Term)
    ensures Evaluatable(t) <==> exists s :: s in Subs(t) && Pending(s)
  {
    hide Subs;
    SubsSelf(t);
    if t.Node? {
      forall i | 0 <= i < |t.children| ensures Evaluatable(t.children[i]) <==> exists s :: s in Subs(t.children[i]) && Pending(s) {
        EvaluatableIff(t.children[i]);
      }
      forall s ensures s in Subs(t) <==> s == t || exists i :: 0 <= i < |t.children| && s in Subs(t.children[i]) {
        SubsOfNode(t, s);
      }
    } else {
      SubsLeaf(t);
    }
  }

  lemma {:induction false} SubsLeaf(t: Term)
    requires !t.Node?
    ensures Subs(t) == {t}
  {
  }

  ghost predicate Distinct<T>(xs: seq<T>) {
    forall i, j | 0 <= i < j < |xs| :: xs[i] != xs[j]
  }
}
