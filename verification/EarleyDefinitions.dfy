/** Grammars as they are given, and in numbers. */
module EarleyDefinitions {
  // The grammar in numbers has each rule of each definition, and no other.

  import opened EarleyGrammar
  import opened EarleyTables
  import opened EarleyUses

  /** A token of the lexer: its word and the symbols it may be read as. */
  datatype Token = Token(word: string, symbols: seq<string>)

  ghost predicate Reads(nts: seq<string>, input: seq<Token>, toks: seq<seq<nat>>) {
    |toks| == |input| && forall i :: 0 <= i < |toks| ==> ReadsToken(nts, input[i].symbols, toks[i])
  }

  /** x is among the token's symbols; unknown symbols are left out. */
  ghost predicate ReadsToken(nts: seq<string>, symbols: seq<string>, tok: seq<nat>) {
    forall x: nat :: x in tok <==> x < |nts| && nts[x] in symbols
  }

  // ----- the rules ---------------------------------------------------------------------------------------------

  lemma {:induction false} NumberedMentions(head: string, rules: seq<seq<string>>, number: nat, k: nat)
    requires k < |NumberedFrom(head, rules, number)|
    ensures NumberedFrom(head, rules, number)[k].head == head && |NumberedFrom(head, rules, number)| == |rules|
    ensures NumberedFrom(head, rules, number)[k].rhs == rules[k]
      && NumberedFrom(head, rules, number)[k].number == number + k
  {
    if k > 0 {
      NumberedMentions(head, rules[1..], number + 1, k - 1);
    } else if |NumberedFrom(head, rules[1..], number + 1)| > 0 {
      NumberedMentions(head, rules[1..], number + 1, 0);
    }
  }

  /** Every symbol of a rule is mentioned. */
  lemma {:induction false} RuleMentions(defs: seq<Def>, k: nat)
    requires k < |RulesOf(defs)|
    ensures Mentions(defs, RulesOf(defs)[k].head)
    ensures forall s :: s in RulesOf(defs)[k].rhs ==> Mentions(defs, s)
    decreases defs
  {
    var first := NumberedFrom(defs[0].head, defs[0].rules, 1);
    if k < |first| {
      NumberedMentions(defs[0].head, defs[0].rules, 1, k);
      assert DefMentions(defs[0], defs[0].head);
      forall s | s in first[k].rhs ensures Mentions(defs, s) {
        assert s in defs[0].rules[k];
        assert DefMentions(defs[0], s);
      }
    } else {
      RuleMentions(defs[1..], k - |first|);
      forall s | Mentions(defs[1..], s) ensures Mentions(defs, s) {
        var a :| 0 <= a < |defs[1..]| && DefMentions(defs[1..][a], s);
        assert DefMentions(defs[a + 1], s);
      }
    }
  }

  /** The number of rules in the definitions before number a. */
  function Place(defs: seq<Def>, a: nat): (n: nat)
    requires a <= |defs|
  {
    if a == 0 then 0 else Place(defs, a - 1) + |defs[a - 1].rules|
  }

  lemma {:induction false} PlaceBehind(defs: seq<Def>, a: nat)
    requires a < |defs|
    ensures Place(defs, a + 1) == |defs[0].rules| + Place(defs[1..], a)
  {
    if a > 0 {
      PlaceBehind(defs, a - 1);
    }
  }

  lemma {:induction false} NumberedLength(head: string, rules: seq<seq<string>>, number: nat)
    ensures |NumberedFrom(head, rules, number)| == |rules|
    decreases rules
  {
    if rules != [] {
      NumberedLength(head, rules[1..], number + 1);
    }
  }

  /** Rule b of definition a has its place, and its number counts from 1. */
  lemma {:induction false} RuleListed(defs: seq<Def>, a: nat, b: nat)
    requires a < |defs| && b < |defs[a].rules|
    ensures Place(defs, a) + b < |RulesOf(defs)|
    ensures RulesOf(defs)[Place(defs, a) + b] == Numbered(defs[a].head, defs[a].rules[b], b + 1)
    decreases defs
  {
    NumberedLength(defs[0].head, defs[0].rules, 1);
    if a == 0 {
      NumberedMentions(defs[0].head, defs[0].rules, 1, b);
    } else {
      PlaceBehind(defs, a - 1);
      RuleListed(defs[1..], a - 1, b);
    }
  }

  /** There are no other rules. */
  lemma {:induction false} RuleOfDef(defs: seq<Def>, k: nat) returns (a: nat, b: nat)
    requires k < |RulesOf(defs)|
    ensures a < |defs| && b < |defs[a].rules| && k == Place(defs, a) + b
    ensures RulesOf(defs)[k] == Numbered(defs[a].head, defs[a].rules[b], b + 1)
    decreases defs
  {
    NumberedLength(defs[0].head, defs[0].rules, 1);
    if k < |defs[0].rules| {
      a, b := 0, k;
    } else {
      a, b := RuleOfDef(defs[1..], k - |defs[0].rules|);
      PlaceBehind(defs, a);
      a := a + 1;
    }
    RuleListed(defs, a, b);
  }

  lemma {:induction false} RuleCount(defs: seq<Def>)
    ensures |RulesOf(defs)| == Place(defs, |defs|)
    decreases defs
  {
    if defs != [] {
      NumberedLength(defs[0].head, defs[0].rules, 1);
      RuleCount(defs[1..]);
      PlaceBehind(defs, |defs| - 1);
    }
  }

  /** The rule in numbers is this one in symbols. */
  ghost predicate Spells(nts: seq<string>, rule: Rule, head: string, rhs: seq<string>) {
    && rule.head < |nts| && nts[rule.head] == head && |rule.rhs| == |rhs|
    && forall m :: 0 <= m < |rhs| ==> rule.rhs[m] < |nts| && nts[rule.rhs[m]] == rhs[m]
  }

  ghost predicate RuleSpelled(g: Grammar, nts: seq<string>, defs: seq<Def>, a: nat, b: nat)
    requires a < |defs| && b < |defs[a].rules|
  {
    var k := Place(defs, a) + b;
    k < |g.rules| && Spells(nts, g.rules[k], defs[a].head, defs[a].rules[b])
  }

  /** The rules of g are those of the definitions, one after the other, in the numbers of nts. */
  ghost predicate SpelledOut(g: Grammar, nts: seq<string>, defs: seq<Def>) {
    && |g.rules| == Place(defs, |defs|)
    && forall a: nat, b: nat :: a < |defs| && b < |defs[a].rules| ==> RuleSpelled(g, nts, defs, a, b)
  }

  lemma GrammarSpelledOut(defs: seq<Def>, nts: seq<string>, toks: seq<seq<nat>>)
    requires forall s :: s in nts <==> Mentions(defs, s)
    ensures SpelledOut(GrammarOf(defs, nts, toks), nts, defs)
  {
    hide Mentions, RulesOf;
    RuleCount(defs);
    forall a: nat, b: nat | a < |defs| && b < |defs[a].rules|
      ensures RuleSpelled(GrammarOf(defs, nts, toks), nts, defs, a, b)
    {
      RuleListed(defs, a, b);
      RuleMentions(defs, Place(defs, a) + b);
    }
  }

  // ----- derivations -------------------------------------------------------------------------------------------------

  /** Rule b of definition a is one for s. */
  ghost predicate IsRule(defs: seq<Def>, s: string, a: nat, b: nat) {
    a < |defs| && defs[a].head == s && b < |defs[a].rules|
  }

  /** The symbol derives tokens i..j by the definitions, with rules nested at most d deep. */
  ghost predicate DefDerives(defs: seq<Def>, input: seq<Token>, s: string, i: nat, j: nat, d: nat)
    decreases d, 0
  {
    || (j == i + 1 && i < |input| && s in input[i].symbols)
    || (d > 0 && exists a: nat, b: nat ::
          IsRule(defs, s, a, b) && DefDerivesAll(defs, input, defs[a].rules[b], i, j, d - 1))
  }

  ghost predicate DefDerivesAll(defs: seq<Def>, input: seq<Token>, ss: seq<string>, i: nat, j: nat, d: nat)
    decreases d, 1 + |ss|
  {
    if ss == [] then i == j
    else exists h: nat {:trigger DefDerivesAll(defs, input, ss[..|ss| - 1], i, h, d)}
                       {:trigger DefDerives(defs, input, ss[|ss| - 1], h, j, d)} ::
      i <= h <= j
        && DefDerivesAll(defs, input, ss[..|ss| - 1], i, h, d) && DefDerives(defs, input, ss[|ss| - 1], h, j, d)
  }

  /** The symbol derives tokens i..j. */
  ghost predicate Generates(defs: seq<Def>, input: seq<Token>, s: string, i: nat, j: nat) {
    exists d: nat :: DefDerives(defs, input, s, i, j, d)
  }

  /** nts numbers the symbols that the definitions mention, and toks are the input in these numbers. */
  ghost predicate Numbers(defs: seq<Def>, nts: seq<string>, input: seq<Token>, g: Grammar) {
    && NoTwice(nts) && SpelledOut(g, nts, defs) && Reads(nts, input, g.toks)
    && (if defs == [] then nts == [] else nts != [] && nts[0] == defs[0].head)
  }

  lemma {:induction false} SymSame(defs: seq<Def>, nts: seq<string>, input: seq<Token>, g: Grammar, x: nat,
    i: nat, j: nat, d: nat)
    requires Numbers(defs, nts, input, g) && x < |nts|
    ensures DerivesSym(g, x, i, j, d) <==> DefDerives(defs, input, nts[x], i, j, d)
    decreases d, 0
  {
    hide Numbers, DerivesSeq, DefDerivesAll;
    TokenSame(defs, nts, input, g, x, i);
    if d > 0 {
      forall k: nat | k < |g.rules| && g.rules[k].head == x && DerivesSeq(g, g.rules[k].rhs, i, j, d - 1)
        ensures DefDerives(defs, input, nts[x], i, j, d)
      {
        var a, b := RuleSpelling(defs, nts, input, g, k);
        SeqSame(defs, nts, input, g, g.rules[k].rhs, defs[a].rules[b], i, j, d - 1);
        assert IsRule(defs, nts[x], a, b);
      }
      forall a: nat, b: nat | IsRule(defs, nts[x], a, b) && DefDerivesAll(defs, input, defs[a].rules[b], i, j, d - 1)
        ensures DerivesSym(g, x, i, j, d)
      {
        var k := SpelledRule(defs, nts, input, g, a, b);
        SameSymbol(defs, nts, input, g, x, g.rules[k].head);
        SeqSame(defs, nts, input, g, g.rules[k].rhs, defs[a].rules[b], i, j, d - 1);
      }
    }
  }

  lemma SameSymbol(defs: seq<Def>, nts: seq<string>, input: seq<Token>, g: Grammar, x: nat, y: nat)
    requires Numbers(defs, nts, input, g) && x < |nts| && y < |nts| && nts[x] == nts[y]
    ensures x == y
  {
  }

  lemma TokenSame(defs: seq<Def>, nts: seq<string>, input: seq<Token>, g: Grammar, x: nat, i: nat)
    requires Numbers(defs, nts, input, g) && x < |nts|
    ensures |g.toks| == |input| && (i < |input| ==> (x in g.toks[i] <==> nts[x] in input[i].symbols))
  {
    if i < |input| {
      assert ReadsToken(nts, input[i].symbols, g.toks[i]);
    }
  }

  lemma SpelledRule(defs: seq<Def>, nts: seq<string>, input: seq<Token>, g: Grammar, a: nat, b: nat) returns (k: nat)
    requires Numbers(defs, nts, input, g) && a < |defs| && b < |defs[a].rules|
    ensures k < |g.rules| && Spells(nts, g.rules[k], defs[a].head, defs[a].rules[b])
  {
    k := Place(defs, a) + b;
    assert RuleSpelled(g, nts, defs, a, b);
  }

  lemma RuleSpelling(defs: seq<Def>, nts: seq<string>, input: seq<Token>, g: Grammar, k: nat) returns (a: nat, b: nat)
    requires Numbers(defs, nts, input, g) && k < |g.rules|
    ensures a < |defs| && b < |defs[a].rules| && Spells(nts, g.rules[k], defs[a].head, defs[a].rules[b])
  {
    a, b := RuleAt(defs, |defs|, k);
    assert RuleSpelled(g, nts, defs, a, b);
  }

  lemma {:induction false} RuleAt(defs: seq<Def>, n: nat, k: nat) returns (a: nat, b: nat)
    requires n <= |defs| && k < Place(defs, n)
    ensures a < n && b < |defs[a].rules| && k == Place(defs, a) + b
  {
    if k >= Place(defs, n - 1) {
      a, b := n - 1, k - Place(defs, n - 1);
    } else {
      a, b := RuleAt(defs, n - 1, k);
    }
  }

  /** The numbers of these symbols. */
  ghost predicate SpellsAll(nts: seq<string>, xs: seq<nat>, ss: seq<string>) {
    |xs| == |ss| && forall m :: 0 <= m < |ss| ==> xs[m] < |nts| && nts[xs[m]] == ss[m]
  }

  lemma {:induction false} SeqSame(defs: seq<Def>, nts: seq<string>, input: seq<Token>, g: Grammar, xs: seq<nat>,
    ss: seq<string>, i: nat, j: nat, d: nat)
    requires Numbers(defs, nts, input, g) && SpellsAll(nts, xs, ss)
    ensures DerivesSeq(g, xs, i, j, d) <==> DefDerivesAll(defs, input, ss, i, j, d)
    decreases d, 1 + |ss|
  {
    hide Numbers, DerivesSym, DefDerives;
    if ss != [] {
      var n := |ss| - 1;
      forall h: nat | i <= h <= j
        ensures DerivesSeq(g, xs[..n], i, h, d) <==> DefDerivesAll(defs, input, ss[..n], i, h, d)
        ensures DerivesSym(g, xs[n], h, j, d) <==> DefDerives(defs, input, ss[n], h, j, d)
      {
        SeqSame(defs, nts, input, g, xs[..n], ss[..n], i, h, d);
        SymSame(defs, nts, input, g, xs[n], h, j, d);
      }
    }
  }

  /** In numbers the same spans are derived. */
  lemma DerivesExactly(defs: seq<Def>, nts: seq<string>, input: seq<Token>, g: Grammar, x: nat, i: nat, j: nat)
    requires Numbers(defs, nts, input, g) && x < |nts|
    ensures Derives(g, x, i, j) <==> Generates(defs, input, nts[x], i, j)
  {
    hide Numbers, DerivesSym, DefDerives;
    forall d: nat ensures DerivesSym(g, x, i, j, d) <==> DefDerives(defs, input, nts[x], i, j, d) {
      SymSame(defs, nts, input, g, x, i, j, d);
    }
  }

  // ----- uses ----------------------------------------------------------------------------------------------------

  ghost predicate GeneratesAll(defs: seq<Def>, input: seq<Token>, ss: seq<string>, i: nat, j: nat) {
    exists d: nat :: DefDerivesAll(defs, input, ss, i, j, d)
  }

  /** Rule b of definition a, from token o to token e, has s over tokens i..j behind m other symbols. */
  ghost predicate HasInside(defs: seq<Def>, input: seq<Token>, s: string, i: nat, j: nat, a: nat, b: nat, m: nat,
    o: nat, e: nat)
  {
    && a < |defs| && b < |defs[a].rules| && m < |defs[a].rules[b]| && defs[a].rules[b][m] == s
    && GeneratesAll(defs, input, defs[a].rules[b][..m], o, i)
    && GeneratesAll(defs, input, defs[a].rules[b][m + 1..], j, e)
  }

  /** A parse of the whole input, from the first definition's symbol down, has s over tokens i..j
      below r rules. */
  ghost predicate DefUsed(defs: seq<Def>, input: seq<Token>, s: string, i: nat, j: nat, r: nat)
    decreases r
  {
    Generates(defs, input, s, i, j) &&
    (|| (defs != [] && s == defs[0].head && i == 0 && j == |input|)
     || (r > 0 && exists a: nat, b: nat, m: nat, o: nat, e: nat ::
           HasInside(defs, input, s, i, j, a, b, m, o, e) && DefUsed(defs, input, defs[a].head, o, e, r - 1)))
  }

  /** A parse of the whole input uses the symbol over tokens i..j. */
  ghost predicate UsedOver(defs: seq<Def>, input: seq<Token>, s: string, i: nat, j: nat) {
    exists r: nat :: DefUsed(defs, input, s, i, j, r)
  }

  lemma AllSame(defs: seq<Def>, nts: seq<string>, input: seq<Token>, g: Grammar, xs: seq<nat>, ss: seq<string>,
    i: nat, j: nat)
    requires Numbers(defs, nts, input, g) && SpellsAll(nts, xs, ss)
    ensures DerivesAll(g, xs, i, j) <==> GeneratesAll(defs, input, ss, i, j)
  {
    hide Numbers, SpellsAll, DerivesSeq, DefDerivesAll;
    forall d: nat ensures DerivesSeq(g, xs, i, j, d) <==> DefDerivesAll(defs, input, ss, i, j, d) {
      SeqSame(defs, nts, input, g, xs, ss, i, j, d);
    }
  }

  /** Both parts of a rule around one of its symbols. */
  lemma InsideSame(defs: seq<Def>, nts: seq<string>, input: seq<Token>, g: Grammar, k: nat, a: nat, b: nat, m: nat,
    x: nat, i: nat, j: nat, o: nat, e: nat)
    requires Numbers(defs, nts, input, g) && k < |g.rules| && a < |defs| && b < |defs[a].rules| && x < |nts|
    requires Spells(nts, g.rules[k], defs[a].head, defs[a].rules[b])
    ensures UsedIn(g, x, i, j, k, m, o, e) <==> HasInside(defs, input, nts[x], i, j, a, b, m, o, e)
  {
    hide Numbers, DerivesAll, GeneratesAll;
    var rhs, ss := g.rules[k].rhs, defs[a].rules[b];
    if m < |rhs| {
      AllSame(defs, nts, input, g, rhs[..m], ss[..m], o, i);
      AllSame(defs, nts, input, g, rhs[m + 1..], ss[m + 1..], j, e);
      assert rhs[m] < |nts| && nts[rhs[m]] == ss[m];
      if nts[rhs[m]] == nts[x] {
        SameSymbol(defs, nts, input, g, x, rhs[m]);
      }
    }
  }

  lemma GoalSame(defs: seq<Def>, nts: seq<string>, input: seq<Token>, g: Grammar, x: nat)
    requires Numbers(defs, nts, input, g) && x < |nts|
    ensures |g.toks| == |input| && defs != [] && (x == 0 <==> nts[x] == defs[0].head)
  {
  }

  lemma {:induction false} UsedSame(defs: seq<Def>, nts: seq<string>, input: seq<Token>, g: Grammar, x: nat, i: nat,
    j: nat, r: nat)
    requires Numbers(defs, nts, input, g) && x < |nts|
    ensures Used(g, x, i, j, r) <==> DefUsed(defs, input, nts[x], i, j, r)
    decreases r
  {
    hide Numbers, Derives, Generates, DerivesAll, GeneratesAll;
    DerivesExactly(defs, nts, input, g, x, i, j);
    GoalSame(defs, nts, input, g, x);
    if r > 0 && Derives(g, x, i, j) {
      forall k: nat, m: nat, o: nat, e: nat | k < |g.rules| && UsedIn(g, x, i, j, k, m, o, e)
          && Used(g, g.rules[k].head, o, e, r - 1)
        ensures DefUsed(defs, input, nts[x], i, j, r)
      {
        var a, b := RuleSpelling(defs, nts, input, g, k);
        InsideSame(defs, nts, input, g, k, a, b, m, x, i, j, o, e);
        UsedSame(defs, nts, input, g, g.rules[k].head, o, e, r - 1);
      }
      forall a: nat, b: nat, m: nat, o: nat, e: nat | a < |defs| && b < |defs[a].rules|
          && HasInside(defs, input, nts[x], i, j, a, b, m, o, e) && DefUsed(defs, input, defs[a].head, o, e, r - 1)
        ensures Used(g, x, i, j, r)
      {
        var k := SpelledRule(defs, nts, input, g, a, b);
        InsideSame(defs, nts, input, g, k, a, b, m, x, i, j, o, e);
        UsedSame(defs, nts, input, g, g.rules[k].head, o, e, r - 1);
      }
    }
  }

  lemma UsesExactly(defs: seq<Def>, nts: seq<string>, input: seq<Token>, g: Grammar, x: nat, i: nat, j: nat)
    requires Numbers(defs, nts, input, g) && x < |nts|
    ensures IsUsed(g, x, i, j) <==> UsedOver(defs, input, nts[x], i, j)
  {
    hide Numbers, Used, DefUsed;
    forall r: nat ensures Used(g, x, i, j, r) <==> DefUsed(defs, input, nts[x], i, j, r) {
      UsedSame(defs, nts, input, g, x, i, j, r);
    }
  }

  /** Only symbols of the grammar are used, and the first definition's symbol is used over the whole
      input if it derives it. */
  lemma UsedSymbols(defs: seq<Def>, input: seq<Token>, s: string, i: nat, j: nat)
    ensures UsedOver(defs, input, s, i, j) ==> Mentions(defs, s) && Generates(defs, input, s, i, j)
    ensures defs != [] && Generates(defs, input, defs[0].head, 0, |input|) ==>
              UsedOver(defs, input, defs[0].head, 0, |input|)
  {
    hide Generates, GeneratesAll;
    if r: nat :| DefUsed(defs, input, s, i, j, r) {
      if defs != [] && s == defs[0].head {
        assert DefMentions(defs[0], s);
      } else {
        var a: nat, b: nat, m: nat, o: nat, e: nat :|
          HasInside(defs, input, s, i, j, a, b, m, o, e) && DefUsed(defs, input, defs[a].head, o, e, r - 1);
        assert s in defs[a].rules[b] && DefMentions(defs[a], s);
      }
    }
    if defs != [] && Generates(defs, input, defs[0].head, 0, |input|) {
      assert DefUsed(defs, input, defs[0].head, 0, |input|, 0);
    }
  }
}
