/** What the printed text looks like, piece by piece. */
module LetText {
  import opened Terms
  import opened LetPrinting

  /** Texts one after the other, with a space between two of them. */
  ghost function Spaced(texts: seq<Text>): Text {
    if texts == [] then []
    else if |texts| == 1 then texts[0]
    else Spaced(texts[..|texts| - 1]) + [Space] + texts[|texts| - 1]
  }

  ghost function Texts(ts: seq<Term>, pr: Printer, lbind: map<Term, nat>): seq<Text> {
    seq(|ts|, i requires 0 <= i < |ts| => Print(ts[i], pr, lbind))
  }

  lemma {:induction false} Regrouped(a: Text, b: Text, c: Text, d: Text)
    ensures a + (b + c + d) == (a + b + c) + d
  {
  }

  lemma {:induction false} RestIsSpaced(t: Term, i: nat, pr: Printer, lbind: map<Term, nat>)
    requires Inner(t) && 1 <= i <= |t.children|
    ensures Spaced(Texts(t.children[..i], pr, lbind)) + PrintRest(t, i, pr, lbind) ==
            Spaced(Texts(t.children, pr, lbind)) + [Close]
    decreases |t.children| - i
  {
    hide Print;
    if i < |t.children| {
      var p, r := Print(t.children[i], pr, lbind), PrintRest(t, i + 1, pr, lbind);
      assert PrintRest(t, i, pr, lbind) == [Space] + p + r;
      var front, longer := Texts(t.children[..i], pr, lbind), Texts(t.children[..i + 1], pr, lbind);
      assert longer[..i] == front && longer[i] == p;
      assert Spaced(longer) == Spaced(front) + [Space] + p;
      RestIsSpaced(t, i + 1, pr, lbind);
      hide Spaced, PrintRest;
      Regrouped(Spaced(front), [Space], p, r);
    } else {
      assert t.children[..i] == t.children;
    }
  }

  /** A named term is its name, a leaf is its spelling, and anything else is in parentheses: the word for
      its kind, unless it applies a leaf, and its children from left to right.  An opaque application
      has `as` for a word if its head is ambiguous, and none otherwise. */
  lemma {:induction false} PrintedAs(t: Term, pr: Printer, lbind: map<Term, nat>)
    ensures t in lbind ==> Print(t, pr, lbind) == [Word("_v" + Decimal(lbind[t]))]
    ensures t !in lbind && !(t.Node? && t.children != []) ==>
              Print(t, pr, lbind) == [Word(if t.Param? || t.ProgramConst? || t.Symbol? then QuoteSymbol(pr.name(t)) else pr.other(t))]
    ensures t !in lbind && t.Node? && t.children != [] ==>
              var head := t.children[0];
              var words := if t.kind == ApplyOpaque then (if head in pr.amb then [KindTok(AsReturn)] else [])
                           else if t.kind == Apply && !(head.Node? && head.children != []) then [] else [KindTok(t.kind)];
              Print(t, pr, lbind) == [Open] + words + Spaced(Texts(t.children, pr, lbind)) + [Close]
  {
    hide PrintRest, QuoteSymbol;
    if t !in lbind && t.Node? && t.children != [] {
      var p := Print(t.children[0], pr, lbind);
      RestIsSpaced(t, 1, pr, lbind);
      assert Texts(t.children[..1], pr, lbind) == [p];
      assert [Open] + Head(t, pr) + p + PrintRest(t, 1, pr, lbind) == [Open] + Head(t, pr) + (p + PrintRest(t, 1, pr, lbind));
      assert [Open] + Head(t, pr) + (Spaced(Texts(t.children, pr, lbind)) + [Close]) ==
             [Open] + Head(t, pr) + Spaced(Texts(t.children, pr, lbind)) + [Close];
    }
  }

  /** The definitions in the order of their numbers, each closed only at the end. */
  ghost function Opened(defs: seq<Text>): Text {
    if defs == [] then []
    else
      var n := |defs| - 1;
      Opened(defs[..n]) + ([Define("_v" + Decimal(n))] + defs[n] + [EndDefine])
  }

  lemma {:induction false} DagFrom(defs: seq<Text>, i: nat, body: Text)
    requires i <= |defs|
    ensures Opened(defs[..i]) + Dag(defs, i, body) + seq(i, _ => Close) == Opened(defs) + body + seq(|defs|, _ => Close)
    decreases |defs| - i
  {
    hide RefName;
    if i < |defs| {
      var front, d, r := Opened(defs[..i]), [Define(RefName(i))] + defs[i] + [EndDefine], Dag(defs, i + 1, body);
      DagFrom(defs, i + 1, body);
      assert defs[..i + 1][..i] == defs[..i];
      OpenedStep(defs, i);
      var closing: Text := seq(i, _ => Close);
      assert [Close] + closing == seq(i + 1, _ => Close);
      assert front + (d + r + [Close]) + closing == front + d + r + ([Close] + closing);
    } else {
      assert defs[..i] == defs;
    }
  }

  lemma {:induction false} OpenedStep(defs: seq<Text>, i: nat)
    requires i < |defs|
    ensures Opened(defs[..i + 1]) == Opened(defs[..i]) + ([Define(RefName(i))] + defs[i] + [EndDefine])
  {
    assert defs[..i + 1][..i] == defs[..i];
  }

  /** All definitions, then the body, then one closing parenthesis for each definition. */
  lemma {:induction false} DagIs(defs: seq<Text>, body: Text)
    ensures Dag(defs, 0, body) == Opened(defs) + body + seq(|defs|, _ => Close)
  {
    hide Dag, Opened;
    DagFrom(defs, 0, body);
    OpenedNone(defs);
    assert [] + Dag(defs, 0, body) + seq(0, _ => Close) == Dag(defs, 0, body);
  }

  lemma {:induction false} OpenedNone(defs: seq<Text>)
    ensures Opened(defs[..0]) == []
  {
  }

  // ----- names -----

  /** The number that a string of digits writes. */
  function NumberOf(s: string): int {
    if s == [] then 0 else 10 * NumberOf(s[..|s| - 1]) + (s[|s| - 1] as int - '0' as int)
  }

  /** Names are numbered in decimal, without leading zeros. */
  lemma {:induction false} DecimalIs(n: nat)
    ensures var s := Decimal(n);
            NumberOf(s) == n && s != [] && (forall i | 0 <= i < |s| :: '0' <= s[i] <= '9') && (s[0] == '0' ==> n == 0)
  {
    var s := Decimal(n);
    if n >= 10 {
      DecimalIs(n / 10);
      assert s[..|s| - 1] == Decimal(n / 10);
    } else {
      assert s[..0] == [] && NumberOf(s[..0]) == 0;
    }
  }

  predicate IsLetter(c: char) {
    'A' <= c <= 'Z' || 'a' <= c <= 'z'
  }

  /** A symbol that needs no bars. */
  predicate IsPlain(s: string) {
    "eo::" <= s || (s != "" && !('0' <= s[0] <= '9') &&
                    forall i | 0 <= i < |s| :: IsLetter(s[i]) || '0' <= s[i] <= '9' || s[i] in "~!@$%^&*_-+=<>.?/")
  }

  lemma {:induction false} PlainIff(s: string)
    ensures IsPlain(s) <==> "eo::" <= s || (s != "" && (forall i | 0 <= i < |s| :: IsSimple(s[i])) && !('0' <= s[0] <= '9'))
  {
    hide IsSimple, IsLetter;
    forall i | 0 <= i < |s| ensures IsSimple(s[i]) <==> IsLetter(s[i]) || '0' <= s[i] <= '9' || s[i] in "~!@$%^&*_-+=<>.?/" {
      SimpleIs(s[i]);
    }
  }

  lemma {:induction false} QuoteBarred(s: string)
    requires !IsPlain(s)
    ensures var d := if |s| > 1 && s[0] == '|' && s[|s| - 1] == '|' then 1 else 0;
            QuoteSymbol(s) == "|" + Unbarred(s[d..|s| - d]) + "|"
  {
    hide IsSimple, IsPlain;
    PlainIff(s);
    assert s[0..|s| - 0] == s;
    assert "" == [] && Unbarred("") == "" && "|" + "" + "|" == "||";
  }

  /** A symbol stands as it is if it needs no bars; any other one is between bars, with underscores for
      the bars and backslashes in it.  Bars around the name are not doubled. */
  lemma {:induction false} QuotedAs(s: string)
    ensures var q := QuoteSymbol(s);
            if IsPlain(s) then q == s
            else
              var d := if |s| > 1 && s[0] == '|' && s[|s| - 1] == '|' then 1 else 0;
              |q| == |s| - 2 * d + 2 && q[0] == '|' && q[|q| - 1] == '|' &&
              forall i | 1 <= i < |q| - 1 :: q[i] == if s[i - 1 + d] == '|' || s[i - 1 + d] == '\\' then '_' else s[i - 1 + d]
  {
    hide IsPlain, IsSimple, Unbarred;
    PlainIff(s);
    if !IsPlain(s) {
      QuoteBarred(s);
      var d := if |s| > 1 && s[0] == '|' && s[|s| - 1] == '|' then 1 else 0;
      Barred(s, d);
      hide QuoteSymbol;
    }
  }

  lemma {:induction false} SimpleIs(c: char)
    ensures IsSimple(c) <==> IsLetter(c) || '0' <= c <= '9' || c in "~!@$%^&*_-+=<>.?/"
  {
  }

  lemma {:induction false} Barred(s: string, d: nat)
    requires 2 * d <= |s|
    ensures var q := "|" + Unbarred(s[d..|s| - d]) + "|";
            |q| == |s| - 2 * d + 2 && q[0] == '|' && q[|q| - 1] == '|' &&
            forall i | 1 <= i < |q| - 1 :: q[i] == if s[i - 1 + d] == '|' || s[i - 1 + d] == '\\' then '_' else s[i - 1 + d]
  {
  }
}
