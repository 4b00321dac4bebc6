/** is_parsed asked about a span that ends before it begins. */
module EarleySpan {
  import opened EarleyGrammar
  import opened EarleyPrune
  import opened EarleyUses
  import opened EarleyTables
  import opened EarleyDefinitions
  import opened EarleyParser

  /** Derivations run forward. */
  lemma DerivesForward(g: Grammar, x: nat, i: nat, j: nat)
    requires Derives(g, x, i, j)
    ensures i <= j
  {
    var d: nat :| DerivesSym(g, x, i, j, d);
    var k := SymCase(g, x, i, j, d);
    if k < |g.rules| {
      SeqForward(g, g.rules[k].rhs, i, j, d - 1);
    }
  }

  /** The one rule 0 -> x y and the tokens x, y. */
  ghost predicate TwoTokens(g: Grammar, x: nat, y: nat) {
    g.rules == [Rule(0, [x, y])] && |g.toks| == 2 && x in g.toks[0] && y in g.toks[1] && 0 < x < g.n && 0 < y < g.n
  }

  /** All that such a parse needs is true. */
  lemma AllMeant(g: Grammar, x: nat, y: nat)
    requires TwoTokens(g, x, y)
    ensures Means(g, x, 0, 1) && Means(g, y, 1, 2)
    ensures Means(g, g.n, 0, 0) && Means(g, g.n + 1, 0, 1) && Means(g, g.n + 2, 0, 2)
  {
    assert Base(g, 0) == g.n;
    assert Reach(g, 0, 0, 0);
    assert [x, y][..0] == [] && [x, y][..1] == [x] && [x, y][..2] == [x, y];
    assert [x][..0] == [] && [x, y][..|[x, y]| - 1] == [x];
    assert DerivesSeq(g, [], 0, 0, 0);
    assert DerivesSym(g, x, 0, 1, 0) && DerivesSym(g, y, 1, 2, 0);
    assert [x][..|[x]| - 1] == [] && [x][|[x]| - 1] == x;
    assert DerivesSeq(g, [x][..|[x]| - 1], 0, 0, 0) && DerivesSym(g, [x][|[x]| - 1], 0, 1, 0);
    assert DerivesSeq(g, [x], 0, 1, 0);
    assert [x, y][|[x, y]| - 1] == y;
    assert DerivesSeq(g, [x, y], 0, 2, 0);
    assert Before(g, g.n, 0, 0, 0, 0, 0, 0);
    assert Before(g, g.n + 1, 0, 1, 0, 1, 0, 0);
    assert Before(g, g.n + 2, 0, 2, 0, 2, 0, 0);
  }

  lemma AllSteps(g: Grammar, t: Tables, x: nat, y: nat)
    requires TwoTokens(g, x, y) && TablesOf(g, t)
    ensures |t.steps| == g.n + 3 && t.steps[x] == x - g.n && t.steps[y] == y - g.n && |t.enders| == g.n
    ensures t.steps[g.n] == x && t.steps[g.n + 1] == y && t.steps[g.n + 2] == 0 - g.n
    ensures g.n + 2 in t.enders[0] && x in t.enders[x]
  {
    hide StartersOf, GoodGrammar;
    assert Base(g, 0) == g.n && Base(g, 1) == g.n + 3;
    assert g.rules[0].rhs[0] == x && g.rules[0].rhs[1] == y;
  }

  /** The parse keeps the finished item of x in state 1. */
  lemma FirstKept(g: Grammar, t: Tables, items: ItemSets, kept: ItemSets, x: nat, y: nat)
    requires TwoTokens(g, x, y) && Parsed(g, t, items, kept)
    ensures SymbolKept(g, t, items, x, 2, 1)
  {
    hide Closed, Sound, IsPruned, IsKept, Means;
    AllMeant(g, x, y);
    AllSteps(g, t, x, y);
    hide TablesOf;
    assert |items| == 3 by { ChartLength(g, t, items); }
    ChartExactly(g, t, items, x, 0, 1);
    ChartExactly(g, t, items, y, 1, 2);
    ChartExactly(g, t, items, g.n, 0, 0);
    ChartExactly(g, t, items, g.n + 1, 0, 1);
    ChartExactly(g, t, items, g.n + 2, 0, 2);
    KeptGoal(g, t, items, g.n + 2);
    KeptUse(g, t, items, g.n + 2, 0, 2, y, 1);
    KeptUse(g, t, items, g.n + 1, 0, 1, x, 0);
    assert x in t.enders[x] && IsKept(g, t, items, x, 0, 1);
  }

  lemma ResultTwo(r: Result)
    requires r.Valid() && r.parser.defs == [Def("s", [["a", "b"]])]
    requires r.input == [Token("a", ["a"]), Token("b", ["b"])]
    ensures "a" in r.parser.nts && "b" in r.parser.nts && |r.toks| == 2
    ensures TwoTokens(r.G(), Index(r.parser.nts, "a"), Index(r.parser.nts, "b"))
    ensures Parsed(r.G(), r.parser.t, r.items, r.Kept())
  {
    hide Parsed, GoodGrammar, TablesOf;
    var nts, defs := r.parser.nts, r.parser.defs;
    assert DefMentions(defs[0], "s") && "a" in defs[0].rules[0] && "b" in defs[0].rules[0];
    assert DefMentions(defs[0], "a") && DefMentions(defs[0], "b");
    var x, y := Index(nts, "a"), Index(nts, "b");
    assert Index(nts, "s") == 0 by { IsIndex(nts, "s", 0); }
    assert ReadsToken(nts, r.input[0].symbols, r.toks[0]) && ReadsToken(nts, r.input[1].symbols, r.toks[1]);
    assert RulesOf(defs) == [Numbered("s", ["a", "b"], 1)] by {
      assert defs[1..] == [] && [["a", "b"]][1..] == [];
      assert NumberedFrom("s", [], 2) == [];
    }
    assert RuleOf(nts, RulesOf(defs)[0]).rhs == [x, y];
    assert r.G().rules == [Rule(0, [x, y])];
  }

  /** After parsing a b with the grammar s -> a b, the answer for a over tokens 2..1 is yes, and
      nothing derives that. */
  lemma BackwardFound(r: Result)
    requires r.Valid() && r.parser.defs == [Def("s", [["a", "b"]])]
    requires r.input == [Token("a", ["a"]), Token("b", ["b"])]
    ensures "a" in r.parser.nts && SymbolKept(r.G(), r.parser.t, r.items, Index(r.parser.nts, "a"), 2, 1)
    ensures forall x: nat :: !Derives(r.G(), x, 2, 1)
  {
    hide *;
    ResultTwo(r);
    FirstKept(r.G(), r.parser.t, r.items, r.Kept(), Index(r.parser.nts, "a"), Index(r.parser.nts, "b"));
    forall x: nat | Derives(r.G(), x, 2, 1) ensures false {
      DerivesForward(r.G(), x, 2, 1);
    }
  }

  method BackwardSpan() returns (result: Result, yes: bool)
    ensures yes && forall x: nat :: !Derives(result.G(), x, 2, 1)
  {
    hide *;
    var parser := new Parser([Def("s", [["a", "b"]])]);
    result := parser.Parse([Token("a", ["a"]), Token("b", ["b"])]);
    BackwardFound(result);
    ResultTwo(result);
    yes := result.IsParsed("a", 2, 1);
  }
}
