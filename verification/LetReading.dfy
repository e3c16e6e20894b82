/** Reading printed terms: the text of a term determines it. */
module LetReading {
  import opened Terms
  import opened LetPrinting

  /** The kind that the text shows: an opaque application of a leaf is printed as an application, or
      with `as` if the leaf is ambiguous. */
  function ShownKind(t: Term, pr: Printer): Kind
    requires Inner(t)
  {
    if t.kind == ApplyOpaque && t.children[0] in pr.amb then AsReturn
    else if t.kind == ApplyOpaque && !Inner(t.children[0]) then Apply
    else t.kind
  }

  /** The term with the kinds that its text shows. */
  function ShownTerm(t: Term, pr: Printer): Term {
    if Inner(t) then Node(ShownKind(t, pr), seq(|t.children|, i requires 0 <= i < |t.children| => ShownTerm(t.children[i], pr)))
    else t
  }

  ghost predicate NoOpaque(t: Term) {
    forall s | s in Subs(t) && Inner(s) :: s.kind != ApplyOpaque
  }

  lemma {:induction false} ShownSame(t: Term, pr: Printer)
    requires NoOpaque(t)
    ensures ShownTerm(t, pr) == t
  {
    SubsSelf(t);
    if Inner(t) {
      forall i | 0 <= i < |t.children| ensures ShownTerm(t.children[i], pr) == t.children[i] {
        assert Subs(t.children[i]) <= Subs(t);
        ShownSame(t.children[i], pr);
      }
      assert ShownTerm(t, pr).children == t.children;
    }
  }

  // ----- the plain text -----

  /** Different leaves are spelled differently, and only leaves are ambiguous functions. */
  ghost predicate Spelled(pr: Printer, ts: set<Term>) {
    && (forall a, b | a in ts && b in ts && !Inner(a) && !Inner(b) && Spelling(pr, a) == Spelling(pr, b) :: a == b)
    && (forall a | a in pr.amb :: !Inner(a))
  }

  ghost predicate SubsIn(t: Term, ts: set<Term>) {
    Subs(t) <= ts
  }

  lemma {:induction false} SubsInChildren(t: Term, ts: set<Term>)
    requires SubsIn(t, ts)
    ensures t in ts && (t.Node? ==> forall i | 0 <= i < |t.children| :: SubsIn(t.children[i], ts))
  {
    SubsSelf(t);
  }

  lemma {:induction false} PlainInner(t: Term, pr: Printer, x: Text)
    requires Inner(t)
    ensures Plain(t, pr) + x == [Open] + (Head(t, pr) + (Plain(t.children[0], pr) + (PrintRest(t, 1, pr, map[]) + x)))
  {
    hide PrintRest, Head;
    var p, r := Plain(t.children[0], pr), PrintRest(t, 1, pr, map[]);
    assert Plain(t, pr) == [Open] + Head(t, pr) + p + r;
  }

  lemma {:induction false} PlainStart(t: Term, pr: Printer, x: Text)
    ensures Plain(t, pr) + x != [] && (Plain(t, pr) + x)[0] == if Inner(t) then Open else Word(Spelling(pr, t))
    ensures !Inner(t) ==> (Plain(t, pr) + x)[1..] == x
  {
    if Inner(t) {
      PlainInner(t, pr, x);
    }
  }

  /** A text starts with the text of at most one term, up to the kinds it shows. */
  lemma {:induction false} PlainReads(t: Term, u: Term, pr: Printer, ts: set<Term>, x: Text, y: Text)
    requires Spelled(pr, ts) && SubsIn(t, ts) && SubsIn(u, ts) && Plain(t, pr) + x == Plain(u, pr) + y
    ensures ShownTerm(t, pr) == ShownTerm(u, pr) && x == y
    decreases t, 1
  {
    hide Plain, SubsIn;
    SubsInChildren(t, ts);
    SubsInChildren(u, ts);
    PlainStart(t, pr, x);
    PlainStart(u, pr, y);
    if Inner(t) {
      var c, d := t.children[0], u.children[0];
      var r, s := PrintRest(t, 1, pr, map[]) + x, PrintRest(u, 1, pr, map[]) + y;
      PlainInner(t, pr, x);
      PlainInner(u, pr, y);
      PlainStart(c, pr, r);
      PlainStart(d, pr, s);
      HeadReads(t, u, pr, Plain(c, pr) + r, Plain(d, pr) + s);
      PlainReads(c, d, pr, ts, r, s);
      RestReads(t, u, 1, pr, ts, x, y);
      KindReads(t, u, pr);
      assert ShownTerm(t, pr).children == ShownTerm(u, pr).children;
    }
  }

  lemma {:induction false} HeadReads(t: Term, u: Term, pr: Printer, x: Text, y: Text)
    requires Inner(t) && Inner(u) && [Open] + (Head(t, pr) + x) == [Open] + (Head(u, pr) + y)
    requires x != [] && y != [] && !x[0].KindTok? && !y[0].KindTok?
    ensures Head(t, pr) == Head(u, pr) && x == y
  {
    var a, b := Head(t, pr) + x, Head(u, pr) + y;
    assert ([Open] + a)[1..] == a && ([Open] + b)[1..] == b;
    assert a[0] == b[0] && a[|Head(t, pr)|..] == x && b[|Head(u, pr)|..] == y;
  }

  /** The head and the first child determine the kind that is shown. */
  lemma {:induction false} KindReads(t: Term, u: Term, pr: Printer)
    requires Inner(t) && Inner(u) && Head(t, pr) == Head(u, pr)
    requires forall a | a in pr.amb :: !Inner(a)
    requires ShownTerm(t.children[0], pr) == ShownTerm(u.children[0], pr)
    ensures ShownKind(t, pr) == ShownKind(u, pr)
  {
    assert Inner(t.children[0]) <==> Inner(ShownTerm(t.children[0], pr));
    assert Inner(u.children[0]) <==> Inner(ShownTerm(u.children[0], pr));
  }

  lemma {:induction false} RestReads(t: Term, u: Term, i: nat, pr: Printer, ts: set<Term>, x: Text, y: Text)
    requires Spelled(pr, ts) && SubsIn(t, ts) && SubsIn(u, ts) && Inner(t) && Inner(u)
    requires i <= |t.children| && i <= |u.children|
    requires PrintRest(t, i, pr, map[]) + x == PrintRest(u, i, pr, map[]) + y
    ensures |t.children| == |u.children| && x == y
    ensures forall j | i <= j < |t.children| :: ShownTerm(t.children[j], pr) == ShownTerm(u.children[j], pr)
    decreases t, 0, |t.children| - i
  {
    hide SubsIn, Spelled, Print, PrintRest, ShownTerm, Plain;
    SubsInChildren(t, ts);
    SubsInChildren(u, ts);
    RestStart(t, i, pr, x);
    RestStart(u, i, pr, y);
    if i < |t.children| {
      var r, s := PrintRest(t, i + 1, pr, map[]) + x, PrintRest(u, i + 1, pr, map[]) + y;
      PlainReads(t.children[i], u.children[i], pr, ts, r, s);
      RestReads(t, u, i + 1, pr, ts, x, y);
    }
  }

  lemma {:induction false} RestStart(t: Term, i: nat, pr: Printer, x: Text)
    requires Inner(t)
    ensures var r := PrintRest(t, i, pr, map[]) + x;
            if i >= |t.children| then r[0] == Close && r[1..] == x
            else r[0] == Space && r[1..] == Plain(t.children[i], pr) + (PrintRest(t, i + 1, pr, map[]) + x)
  {
    if i < |t.children| {
      var p, q := Plain(t.children[i], pr), PrintRest(t, i + 1, pr, map[]);
      assert PrintRest(t, i, pr, map[]) == [Space] + p + q;
      assert [Space] + p + q + x == [Space] + (p + (q + x));
    }
  }

  /** Terms that show the same have one text. */
  lemma {:induction false} ShownPlain(t: Term, u: Term, pr: Printer)
    requires ShownTerm(t, pr) == ShownTerm(u, pr) && forall a | a in pr.amb :: !Inner(a)
    ensures Plain(t, pr) == Plain(u, pr)
    decreases t, 1
  {
    assert Inner(t) <==> Inner(ShownTerm(t, pr));
    assert Inner(u) <==> Inner(ShownTerm(u, pr));
    if Inner(t) {
      ShownChildren(t, u, pr);
      var c, d := t.children[0], u.children[0];
      ShownPlain(c, d, pr);
      assert Inner(c) <==> Inner(ShownTerm(c, pr));
      assert Inner(d) <==> Inner(ShownTerm(d, pr));
      ShownRest(t, u, 1, pr);
    }
  }

  lemma {:induction false} ShownChildren(t: Term, u: Term, pr: Printer)
    requires ShownTerm(t, pr) == ShownTerm(u, pr) && Inner(t) && Inner(u)
    ensures |t.children| == |u.children| && ShownKind(t, pr) == ShownKind(u, pr)
    ensures forall i | 0 <= i < |t.children| :: ShownTerm(t.children[i], pr) == ShownTerm(u.children[i], pr)
  {
    var a, b := ShownTerm(t, pr), ShownTerm(u, pr);
    forall i | 0 <= i < |t.children| ensures ShownTerm(t.children[i], pr) == ShownTerm(u.children[i], pr) {
      assert a.children[i] == b.children[i];
    }
  }

  lemma {:induction false} ShownRest(t: Term, u: Term, i: nat, pr: Printer)
    requires ShownTerm(t, pr) == ShownTerm(u, pr) && Inner(t) && Inner(u) && forall a | a in pr.amb :: !Inner(a)
    ensures PrintRest(t, i, pr, map[]) == PrintRest(u, i, pr, map[])
    decreases t, 0, |t.children| - i
  {
    ShownChildren(t, u, pr);
    if i < |t.children| {
      ShownPlain(t.children[i], u.children[i], pr);
      ShownRest(t, u, i + 1, pr);
    }
  }

  /** Two terms have one plain text exactly if they show the same. */
  lemma {:induction false} PlainSameIff(t: Term, u: Term, pr: Printer)
    requires Spelled(pr, Subs(t) + Subs(u))
    ensures Plain(t, pr) == Plain(u, pr) <==> ShownTerm(t, pr) == ShownTerm(u, pr)
  {
    if Plain(t, pr) == Plain(u, pr) {
      PlainReads(t, u, pr, Subs(t) + Subs(u), [], []);
    }
    if ShownTerm(t, pr) == ShownTerm(u, pr) {
      ShownPlain(t, u, pr);
    }
  }

  // ----- words -----

  /** The text with the kinds written as words. */
  function Written(text: Text, pr: Printer): Text {
    seq(|text|, i requires 0 <= i < |text| => WrittenTok(text[i], pr))
  }

  function WrittenTok(tok: Tok, pr: Printer): Tok {
    if tok.KindTok? then Word(pr.kind(tok.kind)) else tok
  }

  ghost predicate KindShown(k: Kind, pr: Printer, ts: set<Term>) {
    exists b :: b in ts && Inner(b) && Head(b, pr) == [KindTok(k)]
  }

  /** Among the given terms, no leaf is spelled like another leaf or like a kind, and the words for
      the kinds differ from each other and from the generated names. */
  ghost predicate WordsApart(pr: Printer, ts: set<Term>) {
    && Spelled(pr, ts)
    && (forall a, k | a in ts && !Inner(a) && KindShown(k, pr, ts) :: Spelling(pr, a) != pr.kind(k))
    && (forall k, m | KindShown(k, pr, ts) && KindShown(m, pr, ts) && pr.kind(k) == pr.kind(m) :: k == m)
    && (forall k, i: nat | KindShown(k, pr, ts) :: pr.kind(k) != RefName(i))
  }

  ghost predicate TokIn(tok: Tok, pr: Printer, ts: set<Term>) {
    match tok
    case Word(n) => (exists i: nat :: n == RefName(i)) || exists a :: a in ts && !Inner(a) && n == Spelling(pr, a)
    case KindTok(k) => KindShown(k, pr, ts)
    case _ => true
  }

  ghost predicate TextIn(text: Text, pr: Printer, ts: set<Term>) {
    forall i | 0 <= i < |text| :: TokIn(text[i], pr, ts)
  }

  ghost predicate NoDefines(text: Text) {
    forall i | 0 <= i < |text| :: !text[i].Define? && !text[i].EndDefine?
  }

  lemma {:induction false} TokReads(a: Tok, b: Tok, pr: Printer, ts: set<Term>)
    requires WordsApart(pr, ts) && TokIn(a, pr, ts) && TokIn(b, pr, ts) && WrittenTok(a, pr) == WrittenTok(b, pr)
    ensures a == b
  {
    hide KindShown, Spelling, RefName;
  }

  lemma {:induction false} WrittenReads(a: Text, b: Text, pr: Printer, ts: set<Term>)
    requires WordsApart(pr, ts) && TextIn(a, pr, ts) && TextIn(b, pr, ts) && Written(a, pr) == Written(b, pr)
    ensures a == b
  {
    hide WordsApart, TokIn;
    assert |a| == |Written(a, pr)| && |b| == |Written(b, pr)|;
    forall i | 0 <= i < |a| ensures a[i] == b[i] {
      assert Written(a, pr)[i] == Written(b, pr)[i];
      TokReads(a[i], b[i], pr, ts);
    }
  }

  /** In words, two terms have one plain text exactly if they show the same. */
  lemma {:induction false} WordsSameIff(t: Term, u: Term, pr: Printer)
    requires WordsApart(pr, Subs(t) + Subs(u))
    ensures Written(Plain(t, pr), pr) == Written(Plain(u, pr), pr) <==> ShownTerm(t, pr) == ShownTerm(u, pr)
  {
    hide Print, TextIn, Written, Spelled, NoDefines;
    var ts := Subs(t) + Subs(u);
    PlainSameIff(t, u, pr);
    PrintTokens(t, pr, map[], ts);
    PrintTokens(u, pr, map[], ts);
    if Written(Plain(t, pr), pr) == Written(Plain(u, pr), pr) {
      WrittenReads(Plain(t, pr), Plain(u, pr), pr, ts);
    }
  }

  lemma {:induction false} PrintTokens(t: Term, pr: Printer, lbind: map<Term, nat>, ts: set<Term>)
    requires SubsIn(t, ts)
    ensures var r := Print(t, pr, lbind); r != [] && TextIn(r, pr, ts) && NoDefines(r)
    decreases t, 1
  {
    SubsInChildren(t, ts);
    if t in lbind || !Inner(t) {
      assert |Print(t, pr, lbind)| == 1;
    } else {
      var h, p, r := [Open] + Head(t, pr), Print(t.children[0], pr, lbind), PrintRest(t, 1, pr, lbind);
      PrintTokens(t.children[0], pr, lbind, ts);
      RestTokens(t, 1, pr, lbind, ts);
      HeadTokens(t, pr, ts);
      TokensConcat(h, p, pr, ts);
      TokensConcat(h + p, r, pr, ts);
    }
  }

  lemma {:induction false} HeadTokens(t: Term, pr: Printer, ts: set<Term>)
    requires Inner(t) && t in ts
    ensures var h := [Open] + Head(t, pr); TextIn(h, pr, ts) && NoDefines(h)
  {
    if Head(t, pr) != [] {
      assert Head(t, pr) == [KindTok(Head(t, pr)[0].kind)];
    }
  }

  lemma {:induction false} TokensConcat(a: Text, b: Text, pr: Printer, ts: set<Term>)
    requires TextIn(a, pr, ts) && TextIn(b, pr, ts)
    ensures TextIn(a + b, pr, ts) && (NoDefines(a) && NoDefines(b) ==> NoDefines(a + b))
  {
    hide TokIn;
  }

  lemma {:induction false} RestTokens(t: Term, i: nat, pr: Printer, lbind: map<Term, nat>, ts: set<Term>)
    requires SubsIn(t, ts) && Inner(t)
    ensures var r := PrintRest(t, i, pr, lbind); TextIn(r, pr, ts) && NoDefines(r)
    decreases t, 0, |t.children| - i
  {
    if i < |t.children| {
      SubsInChildren(t, ts);
      var p, r := Print(t.children[i], pr, lbind), PrintRest(t, i + 1, pr, lbind);
      PrintTokens(t.children[i], pr, lbind, ts);
      RestTokens(t, i + 1, pr, lbind, ts);
      TokensConcat([Space], p, pr, ts);
      TokensConcat([Space] + p, r, pr, ts);
    }
  }

  // ----- the text with definitions -----

  ghost predicate TextsIn(defs: seq<Text>, pr: Printer, ts: set<Term>) {
    forall i | 0 <= i < |defs| :: TextIn(defs[i], pr, ts) && NoDefines(defs[i])
  }

  lemma {:induction false} DagTokens(defs: seq<Text>, i: nat, body: Text, pr: Printer, ts: set<Term>)
    requires TextsIn(defs, pr, ts) && TextIn(body, pr, ts)
    ensures TextIn(Dag(defs, i, body), pr, ts)
    decreases |defs| - i
  {
    hide TextIn, RefName;
    if i < |defs| {
      var d, r := [Define(RefName(i))], Dag(defs, i + 1, body);
      DagTokens(defs, i + 1, body, pr, ts);
      OneToken(Define(RefName(i)), pr, ts);
      OneToken(EndDefine, pr, ts);
      OneToken(Close, pr, ts);
      TokensConcat(d, defs[i], pr, ts);
      TokensConcat(d + defs[i], [EndDefine], pr, ts);
      TokensConcat(d + defs[i] + [EndDefine], r, pr, ts);
      TokensConcat(d + defs[i] + [EndDefine] + r, [Close], pr, ts);
    }
  }

  lemma {:induction false} OneToken(tok: Tok, pr: Printer, ts: set<Term>)
    requires !tok.Word? && !tok.KindTok?
    ensures TextIn([tok], pr, ts)
  {
  }

  /** The first end of a definition is where it ends. */
  lemma {:induction false} SplitAtEnd(a: Text, b: Text, x: Text, y: Text)
    requires NoDefines(a) && NoDefines(b) && a + [EndDefine] + x == b + [EndDefine] + y
    ensures a == b && x == y
  {
    var l, r := a + [EndDefine] + x, b + [EndDefine] + y;
    assert l[|a|] == EndDefine && r[|b|] == EndDefine;
    assert forall i | 0 <= i < |a| :: l[i] == a[i];
    assert forall i | 0 <= i < |b| :: r[i] == b[i];
    assert l[..|a|] == a && r[..|b|] == b;
    assert l[|a| + 1..] == x && r[|b| + 1..] == y;
  }

  /** The definitions and the body can be read off the whole text. */
  lemma {:induction false} DagReads(defs: seq<Text>, body: Text, defs': seq<Text>, body': Text, i: nat)
    requires i <= |defs| && i <= |defs'| && body != [] && body' != [] && NoDefines(body) && NoDefines(body')
    requires (forall j | 0 <= j < |defs| :: NoDefines(defs[j])) && forall j | 0 <= j < |defs'| :: NoDefines(defs'[j])
    requires Dag(defs, i, body) == Dag(defs', i, body')
    ensures |defs| == |defs'| && body == body' && forall j | i <= j < |defs| :: defs[j] == defs'[j]
    decreases |defs| - i
  {
    hide NoDefines, RefName;
    DagStart(defs, i, body);
    DagStart(defs', i, body');
    if i < |defs| && i < |defs'| {
      var d, r, r' := Define(RefName(i)), Dag(defs, i + 1, body), Dag(defs', i + 1, body');
      assert ([d] + (defs[i] + [EndDefine] + (r + [Close])))[1..] == defs[i] + [EndDefine] + (r + [Close]);
      assert ([d] + (defs'[i] + [EndDefine] + (r' + [Close])))[1..] == defs'[i] + [EndDefine] + (r' + [Close]);
      SplitAtEnd(defs[i], defs'[i], r + [Close], r' + [Close]);
      assert (r + [Close])[..|r|] == r && (r' + [Close])[..|r'|] == r';
      DagReads(defs, body, defs', body', i + 1);
    }
  }

  lemma {:induction false} DagStart(defs: seq<Text>, i: nat, body: Text)
    requires i <= |defs| && body != [] && NoDefines(body)
    ensures var r := Dag(defs, i, body);
            if i == |defs| then r == body && !r[0].Define?
            else r == [Define(RefName(i))] + (defs[i] + [EndDefine] + (Dag(defs, i + 1, body) + [Close])) && r[0].Define?
  {
    hide RefName;
    if i < |defs| {
      var d, r := [Define(RefName(i))], Dag(defs, i + 1, body);
      assert d + defs[i] + [EndDefine] + r + [Close] == d + (defs[i] + [EndDefine] + (r + [Close]));
    }
  }

  lemma {:induction false} PrintedTokens(e: Term, ll: seq<Term>, pr: Printer, lbind: map<Term, nat>, ts: set<Term>)
    requires LetList(e, ll) && SubsIn(e, ts)
    ensures TextsIn(Definitions(ll, pr, lbind), pr, ts)
    ensures var body := Print(e, pr, lbind); body != [] && TextIn(body, pr, ts) && NoDefines(body)
  {
    hide Print, TextIn, NoDefines;
    PrintTokens(e, pr, lbind, ts);
    var defs := Definitions(ll, pr, lbind);
    forall i | 0 <= i < |defs| ensures TextIn(defs[i], pr, ts) && NoDefines(defs[i]) {
      ListedIn(e, ll, ts, i);
      PrintTokens(ll[i], pr, lbind - {ll[i]}, ts);
    }
  }

  lemma {:induction false} ListedIn(e: Term, ll: seq<Term>, ts: set<Term>, i: nat)
    requires LetList(e, ll) && SubsIn(e, ts) && i < |ll|
    ensures SubsIn(ll[i], ts)
  {
    assert ll[i] in ll;
    forall s | s in Subs(ll[i]) ensures s in ts {
      SubsTrans(e, ll[i], s);
    }
  }

  /** What `PrintDebug` prints by default, in words. */
  ghost function LetText(e: Term, ll: seq<Term>, pr: Printer, lbind: map<Term, nat>): Text {
    Written(Dag(Definitions(ll, pr, lbind), 0, Print(e, pr, lbind)), pr)
  }

  /** The text that is printed, with definitions and words, determines the term, up to the kinds it
      shows, if no leaf is taken for a name. */
  lemma {:induction false} PrintedReads(pr: Printer, e: Term, ll: seq<Term>, lbind: map<Term, nat>,
                                        e': Term, ll': seq<Term>, lbind': map<Term, nat>)
    requires LetList(e, ll) && Numbers(lbind, ll) && NamesApart(e, ll, pr, lbind)
    requires LetList(e', ll') && Numbers(lbind', ll') && NamesApart(e', ll', pr, lbind')
    requires WordsApart(pr, Subs(e) + Subs(e')) && LetText(e, ll, pr, lbind) == LetText(e', ll', pr, lbind')
    ensures ShownTerm(e, pr) == ShownTerm(e', pr)
  {
    hide LetList, Numbers, NamesApart, Print, Dag, Written, TextIn, Spelled, Definitions, Plain;
    var ts := Subs(e) + Subs(e');
    var defs, defs' := Definitions(ll, pr, lbind), Definitions(ll', pr, lbind');
    var body, body' := Print(e, pr, lbind), Print(e', pr, lbind');
    PrintedTokens(e, ll, pr, lbind, ts);
    PrintedTokens(e', ll', pr, lbind', ts);
    DagTokens(defs, 0, body, pr, ts);
    DagTokens(defs', 0, body', pr, ts);
    WrittenReads(Dag(defs, 0, body), Dag(defs', 0, body'), pr, ts);
    DagReads(defs, body, defs', body', 0);
    assert defs == defs';
    LetPrintFaithfulIff(e, ll, pr, lbind);
    LetPrintFaithfulIff(e', ll', pr, lbind');
    PlainSameIff(e, e', pr);
  }

  /** Without opaque applications it determines the term itself. */
  lemma {:induction false} PrintedOnce(pr: Printer, e: Term, ll: seq<Term>, lbind: map<Term, nat>,
                                       e': Term, ll': seq<Term>, lbind': map<Term, nat>)
    requires LetList(e, ll) && Numbers(lbind, ll) && NamesApart(e, ll, pr, lbind) && NoOpaque(e)
    requires LetList(e', ll') && Numbers(lbind', ll') && NamesApart(e', ll', pr, lbind') && NoOpaque(e')
    requires WordsApart(pr, Subs(e) + Subs(e')) && LetText(e, ll, pr, lbind) == LetText(e', ll', pr, lbind')
    ensures e == e'
  {
    hide *;
    PrintedReads(pr, e, ll, lbind, e', ll', lbind');
    ShownSame(e, pr);
    ShownSame(e', pr);
  }
}
