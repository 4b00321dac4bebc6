/** What deriv_trees* and nb_deriv_trees* answer after a parse. */
module EarleyAnswers {
  import opened EarleyGrammar
  import opened EarleySets
  import opened EarleyChart
  import opened EarleyForward
  import opened EarleyPrune
  import opened EarleyTrees
  import opened EarleyForest
  import opened EarleyCycles
  import opened EarleyEndless
  import opened EarleyOnce
  import opened EarleyTables
  import opened EarleyDefinitions
  import opened EarleyParser
  import opened EarleyUses

  /** deriv_trees* lists the parse trees of symbol x over tokens i..j if a whole parse uses x there,
      and else nothing. */
  lemma TreesOfSymbol(p: Parse, g: Grammar, t: Tables, chart: ItemSets, kept: ItemSets, d: nat, x: nat, i: nat, j: nat,
    tree: Tree)
    requires ParseOf(p, g, t, chart, kept) && p.Valid() && |p.names| == Base(g, |g.rules|) && x < g.n
    requires i <= j < |chart|
    ensures x < |p.enders| && p.Confs(p.enders[x]) && |t.enders| == g.n
    ensures var r := p.ListTrees(d, p.enders[x], i, j, []);
      r.Some? ==> (tree in r.value <==> SymTree(g, p, tree, x, i, j) && SymbolKept(g, t, chart, x, i, j))
  {
    hide ParseOf, Parse.Valid, PartTree, SymTree, Base, Parse.ListTrees, Parse.Has, IsKept;
    ParseSizes(p, g, t, chart, kept);
    EndersAreConfs(p, x);
    ListExactly(p, g, t, chart, kept, d, p.enders[x], i, j, []);
    TablesHold(p, g, t, chart, kept);
    EnderSteps(g, t, x, 0);
    hide TablesOf, NamesOf;
    if SomeItem(g, p, tree, p.enders[x], i, j) {
      var e :| e in p.enders[x] && p.Has(e, i, j) && PartTree(g, p, tree, e, i, j);
      EnderSteps(g, t, x, e);
      FinishedTree(g, t, p, tree, e, x, i, j);
      HasKept(p, g, t, chart, kept, e, i, j);
      assert e in t.enders[x] && IsKept(g, t, chart, e, i, j);
    }
    if SymTree(g, p, tree, x, i, j) && SymbolKept(g, t, chart, x, i, j) {
      var e, k: int :| (k == i || i > j) && e in t.enders[x] && IsKept(g, t, chart, e, k, j);
      var e' := TreeFinished(g, t, p, tree, x, i, j);
      EnderSteps(g, t, x, e');
      ParseClosed(p, g, t, chart, kept);
      FinishedTogether(g, t, chart, x, e, i, j, e');
      HasKept(p, g, t, chart, kept, e', i, j);
      assert SomeItem(g, p, tree, p.enders[x], i, j);
    }
  }

  lemma ParseClosed(p: Parse, g: Grammar, t: Tables, chart: ItemSets, kept: ItemSets)
    requires ParseOf(p, g, t, chart, kept)
    ensures TablesOf(g, t) && Closed(g, t, chart) && forall k :: 0 <= k < |chart| ==> Sound(g, chart[k], k)
  {
    hide TablesOf, NamesOf, Closed, Parse.Has, Sound;
  }

  lemma HasKept(p: Parse, g: Grammar, t: Tables, chart: ItemSets, kept: ItemSets, c: int, i: int, j: nat)
    requires ParseOf(p, g, t, chart, kept) && j < |chart|
    ensures p.Has(c, i, j) <==> IsKept(g, t, chart, c, i, j)
  {
    hide TablesOf, NamesOf, Closed, Parse.Has, Sound, IsKept, AllKept, GoalsKept, AllFollowed;
    KeptSize(p, g, t, chart, kept);
    PrunedExactly(g, t, chart, kept, c, i, j);
  }

  lemma KeptSize(p: Parse, g: Grammar, t: Tables, chart: ItemSets, kept: ItemSets)
    requires ParseOf(p, g, t, chart, kept)
    ensures |kept| == |chart|
  {
    TablesHold(p, g, t, chart, kept);
  }

  /** A cycle means parse trees of any size. */
  lemma EndlessTrees(p: Parse, g: Grammar, t: Tables, chart: ItemSets, kept: ItemSets, x: nat, i: nat, j: nat,
    size: nat)
    returns (tree: Tree)
    requires ParseOf(p, g, t, chart, kept) && p.Valid() && |p.names| == Base(g, |g.rules|) && x < |p.enders| == g.n
    requires !CycleFree(p, p.enders[x], i, j)
    ensures SymTree(g, p, tree, x, i, j) && TreeSize(tree) > size
  {
    hide ParseOf, Parse.Valid, PartTree, SymTree, Base, Cyclic, Parse.Has;
    var e :| e in p.enders[x] && p.Has(e, i, j) && Cyclic(p, Item(e, i, j));
    tree := CyclicGrows(p, g, t, chart, kept, Item(e, i, j), size);
    ParseSizes(p, g, t, chart, kept);
    EnderSteps(g, t, x, e);
    FinishedTree(g, t, p, tree, e, x, i, j);
  }

  /** There are parse trees of symbol x over tokens i..j of any size. */
  ghost predicate Endless(g: Grammar, p: Parse, x: nat, i: nat, j: nat)
    requires |p.names| == Base(g, |g.rules|)
  {
    forall size: nat :: HasLarger(g, p, x, i, j, size)
  }

  ghost predicate HasLarger(g: Grammar, p: Parse, x: nat, i: nat, j: nat, size: nat)
    requires |p.names| == Base(g, |g.rules|)
  {
    exists tree :: SymTree(g, p, tree, x, i, j) && TreeSize(tree) > size
  }

  lemma {:induction false} LargestSize(trees: seq<Tree>) returns (size: nat)
    ensures forall tree :: tree in trees ==> TreeSize(tree) <= size
  {
    if trees == [] {
      size := 0;
    } else {
      var rest := LargestSize(trees[1..]);
      size := if rest < TreeSize(trees[0]) then TreeSize(trees[0]) else rest;
      assert trees == [trees[0]] + trees[1..];
    }
  }

  // ----- definitions with different heads ------------------------------------------------------------------------

  /** No symbol is defined twice. */
  ghost predicate HeadsDiffer(defs: seq<Def>) {
    forall a, b :: 0 <= a < b < |defs| ==> defs[a].head != defs[b].head
  }

  lemma RuleNumbersDiffer(defs: seq<Def>, k: nat, k': nat)
    requires HeadsDiffer(defs) && k < |RulesOf(defs)| && k' < |RulesOf(defs)|
    requires RulesOf(defs)[k].head == RulesOf(defs)[k'].head && RulesOf(defs)[k].number == RulesOf(defs)[k'].number
    ensures k == k'
  {
    var a, b := RuleOfDef(defs, k);
    var a', b' := RuleOfDef(defs, k');
    assert a == a';
  }

  lemma ParserNames(p: Parser, toks: seq<seq<nat>>)
    requires p.Valid() && HeadsDiffer(p.defs)
    ensures NamesDiffer(GrammarOf(p.defs, p.nts, toks), p.names)
  {
    hide GoodGrammar, TablesOf, NamesOf, HeadsDiffer, EndersOnce, RulesOf, Base, RuleOf, Mentions;
    var g, h, rules := GrammarOf(p.defs, p.nts, []), GrammarOf(p.defs, p.nts, toks), RulesOf(p.defs);
    SameBase(g, h, |g.rules|);
    forall k: nat, k': nat | SameName(h, p.names, k, k') ensures k == k' {
      SameBase(g, h, k);
      SameBase(g, h, k');
      assert Labelled(g, rules, p.names, k) && Labelled(g, rules, p.names, k');
      HeadIndex(p, k);
      HeadIndex(p, k');
      RuleNumbersDiffer(p.defs, k, k');
    }
  }

  lemma HeadIndex(p: Parser, k: nat)
    requires p.Valid() && k < |RulesOf(p.defs)|
    ensures GrammarOf(p.defs, p.nts, []).rules[k].head < |p.nts|
    ensures p.nts[GrammarOf(p.defs, p.nts, []).rules[k].head] == RulesOf(p.defs)[k].head
  {
    hide GoodGrammar, TablesOf, NamesOf, EndersOnce, RulesOf, NamesBuilt, Mentions;
    RuleMentions(p.defs, k);
  }

  // ----- the answers -----------------------------------------------------------------------------------------------

  lemma ViewListedOnce(r: Result)
    requires r.Valid()
    ensures ListedOnce(r.View())
  {
    hide Parsed, NamesOf, Reads, NoWork, AllSetsUsed, NoTwice, Mentions, GoodGrammar, TablesOf, NamesBuilt;
    forall j, c | 0 <= j < |r.View().sets| && c in r.View().sets[j] ensures NoRepeats(r.View().sets[j][c]) {
      SetOnce(r.chart, j, c);
    }
  }

  lemma SetOnce(ch: Chart, j: nat, c: int)
    requires ch.Valid() && j < |ch.shapes| && c in ch.shapes[j].lists
    ensures NoRepeats(ch.shapes[j].lists[c].merged)
  {
    var l := ch.shapes[j].lists[c];
    assert Depicts(ch.states[j], ch.shapes[j]) && Represents(ch.states[j].sets[c], l);
    forall a, b | 0 <= a < b < |l.merged| ensures l.merged[a] != l.merged[b] {
      assert l.All()[a] == l.merged[a] && l.All()[b] == l.merged[b];
    }
  }

  lemma ViewNamed(r: Result)
    requires r.Valid() && HeadsDiffer(r.parser.defs)
    ensures Named(r.View(), r.G(), r.parser.t, r.items, r.Kept())
  {
    hide ParseOf, Parse.Valid, NamesDiffer, ListedOnce, HeadsDiffer, Parsed, NamesOf, Reads, NoWork, AllSetsUsed,
      Parser.Valid, Chart.Valid;
    ViewIsParse(r);
    ViewListedOnce(r);
    ParserNames(r.parser, r.toks);
  }

  /** Everything about the trees listed for symbol x over tokens i..j. */
  lemma ParseTrees(p: Parse, g: Grammar, t: Tables, chart: ItemSets, kept: ItemSets, x: nat, i: nat, j: nat)
    returns (trees: seq<Tree>)
    requires ParseOf(p, g, t, chart, kept) && p.Valid() && |p.names| == Base(g, |g.rules|) && x < g.n
    requires i <= j < |chart|
    ensures x < |p.enders| && p.Confs(p.enders[x])
    ensures CycleFree(p, p.enders[x], i, j) <==> !(SymbolKept(g, t, chart, x, i, j) && Endless(g, p, x, i, j))
    ensures forall d: nat :: CycleFree(p, p.enders[x], i, j) && d > |Items(p)| ==>
              AlwaysLists(p, d, p.enders[x], i, j, trees)
    ensures forall d: nat :: !CycleFree(p, p.enders[x], i, j) ==> NeverLists(p, d, p.enders[x], i, j)
    ensures CycleFree(p, p.enders[x], i, j) ==> ListsTrees(p, g, t, chart, x, i, j, trees)
    ensures CycleFree(p, p.enders[x], i, j) && Named(p, g, t, chart, kept) ==> NoRepeats(trees)
  {
    hide *;
    ParseSizes(p, g, t, chart, kept);
    EndersAreConfs(p, x);
    trees := ListExactlyOnce(p, p.enders[x], i, j);
    var d := |Items(p)| + 1;
    if CycleFree(p, p.enders[x], i, j) {
      ListedTrees(p, g, t, chart, kept, d, x, i, j, trees);
      NotEndless(p, g, t, chart, x, i, j, trees);
      if Named(p, g, t, chart, kept) {
        ListedDiffer(p, g, t, chart, kept, d, x, i, j, trees);
      }
    } else {
      IsEndless(p, g, t, chart, kept, x, i, j);
    }
  }

  /** The list holds the parse trees if a whole parse uses the symbol there, and else nothing. */
  ghost predicate ListsTrees(p: Parse, g: Grammar, t: Tables, chart: ItemSets, x: nat, i: nat, j: nat, trees: seq<Tree>)
    requires |p.names| == Base(g, |g.rules|)
  {
    forall tree :: tree in trees <==> SymTree(g, p, tree, x, i, j) && SymbolKept(g, t, chart, x, i, j)
  }

  lemma ListedTrees(p: Parse, g: Grammar, t: Tables, chart: ItemSets, kept: ItemSets, d: nat, x: nat, i: nat, j: nat,
    trees: seq<Tree>)
    requires ParseOf(p, g, t, chart, kept) && p.Valid() && |p.names| == Base(g, |g.rules|) && x < g.n
    requires i <= j < |chart| && x < |p.enders| && p.Confs(p.enders[x]) && AlwaysLists(p, d, p.enders[x], i, j, trees)
    ensures ListsTrees(p, g, t, chart, x, i, j, trees)
  {
    hide ParseOf, Parse.Valid, SymTree, Base, SymbolKept, Parse.Confs, Parse.ListTrees, Parse.ListCount;
    forall tree ensures tree in trees <==> SymTree(g, p, tree, x, i, j) && SymbolKept(g, t, chart, x, i, j) {
      TreesOfSymbol(p, g, t, chart, kept, d, x, i, j, tree);
    }
  }

  lemma ListedDiffer(p: Parse, g: Grammar, t: Tables, chart: ItemSets, kept: ItemSets, d: nat, x: nat, i: nat, j: nat,
    trees: seq<Tree>)
    requires Named(p, g, t, chart, kept) && p.Valid() && |p.names| == Base(g, |g.rules|) && i <= j
    requires x < |p.enders| && p.Confs(p.enders[x]) && AlwaysLists(p, d, p.enders[x], i, j, trees)
    ensures NoRepeats(trees)
  {
    hide ParseOf, Parse.Valid, NamesDiffer, PartTree, Base, NoRepeats, Parse.Confs, Parse.ListTrees, Parse.ListCount;
    NothingOnce<Tree>();
    ListOnce(p, g, t, chart, kept, d, p.enders[x], i, j, []);
  }

  lemma NotEndless(p: Parse, g: Grammar, t: Tables, chart: ItemSets, x: nat, i: nat, j: nat, trees: seq<Tree>)
    requires |p.names| == Base(g, |g.rules|) && ListsTrees(p, g, t, chart, x, i, j, trees)
    ensures !(SymbolKept(g, t, chart, x, i, j) && Endless(g, p, x, i, j))
  {
    hide SymTree, Base, SymbolKept;
    if SymbolKept(g, t, chart, x, i, j) {
      var size := LargestSize(trees);
      assert !HasLarger(g, p, x, i, j, size);
    }
  }

  lemma IsEndless(p: Parse, g: Grammar, t: Tables, chart: ItemSets, kept: ItemSets, x: nat, i: nat, j: nat)
    requires ParseOf(p, g, t, chart, kept) && p.Valid() && |p.names| == Base(g, |g.rules|) && x < |p.enders| == g.n
    requires i <= j < |chart| && !CycleFree(p, p.enders[x], i, j)
    ensures SymbolKept(g, t, chart, x, i, j) && Endless(g, p, x, i, j)
  {
    hide ParseOf, Parse.Valid, SymTree, Base, Cyclic, Parse.Has, IsKept;
    forall size: nat ensures HasLarger(g, p, x, i, j, size) {
      var tree := EndlessTrees(p, g, t, chart, kept, x, i, j, size);
    }
    var e :| e in p.enders[x] && p.Has(e, i, j) && Cyclic(p, Item(e, i, j));
    ParseSizes(p, g, t, chart, kept);
    HasKept(p, g, t, chart, kept, e, i, j);
  }

  /** Asked for symbol x over tokens i..j, deriv_trees* comes to an end exactly unless a whole parse
      uses x there and x has parse trees of any size there. Then its list holds these parse trees
      if a whole parse uses x there, and is else empty; no tree is listed twice if no symbol is
      defined twice; and nb_deriv_trees* gives the length of the list. */
  lemma ResultTrees(r: Result, x: nat, i: nat, j: nat) returns (trees: seq<Tree>)
    requires r.Valid() && x < |r.parser.nts| && i <= j <= |r.toks|
    ensures r.View().Valid() && |r.View().names| == Base(r.G(), |r.G().rules|) && x < |r.View().enders|
    ensures r.View().Confs(r.View().enders[x])
    ensures
      var p, l, ends := r.View(), r.View().enders[x], CycleFree(r.View(), r.View().enders[x], i, j);
      && (ends <==> !(SymbolKept(r.G(), r.parser.t, r.items, x, i, j) && Endless(r.G(), p, x, i, j)))
      && (forall d: nat :: ends && d > |Items(p)| ==> AlwaysLists(p, d, l, i, j, trees))
      && (forall d: nat :: !ends ==> NeverLists(p, d, l, i, j))
      && (ends ==> ListsTrees(p, r.G(), r.parser.t, r.items, x, i, j, trees))
      && (ends && HeadsDiffer(r.parser.defs) ==> NoRepeats(trees))
  {
    hide *;
    ResultFacts(r);
    ViewIsParse(r);
    trees := ParseTrees(r.View(), r.G(), r.parser.t, r.items, r.Kept(), x, i, j);
    if HeadsDiffer(r.parser.defs) {
      ViewNamed(r);
    }
  }

  /** For the goal and the whole input: the trees come to an end exactly if there are not trees of
      any size, and then all of them are listed. */
  lemma GoalTrees(r: Result) returns (trees: seq<Tree>)
    requires r.Valid() && |r.parser.nts| > 0
    ensures r.View().Valid() && |r.View().names| == Base(r.G(), |r.G().rules|) && |r.View().enders| > 0
    ensures r.View().Confs(r.View().enders[0])
    ensures
      var p, l, ends, n := r.View(), r.View().enders[0], !Endless(r.G(), r.View(), 0, 0, |r.toks|), |r.toks|;
      && (forall d: nat :: ends && d > |Items(p)| ==> AlwaysLists(p, d, l, 0, n, trees))
      && (forall d: nat :: !ends ==> NeverLists(p, d, l, 0, n))
      && (ends ==> forall tree :: tree in trees <==> SymTree(r.G(), p, tree, 0, 0, n))
      && (ends && HeadsDiffer(r.parser.defs) ==> NoRepeats(trees))
  {
    hide *;
    ResultFacts(r);
    trees := ResultTrees(r, 0, 0, |r.toks|);
    GoalUsed(r, trees);
  }

  lemma GoalUsed(r: Result, trees: seq<Tree>)
    requires r.Valid() && |r.parser.nts| > 0 && |r.View().names| == Base(r.G(), |r.G().rules|)
    ensures Endless(r.G(), r.View(), 0, 0, |r.toks|) ==> SymbolKept(r.G(), r.parser.t, r.items, 0, 0, |r.toks|)
    ensures ListsTrees(r.View(), r.G(), r.parser.t, r.items, 0, 0, |r.toks|, trees) ==>
              forall tree :: tree in trees <==> SymTree(r.G(), r.View(), tree, 0, 0, |r.toks|)
  {
    hide Result.Valid, SymTree, Base, SymbolKept, Derives, Result.G, Result.View;
    FoundExactly(r, 0, 0, |r.toks|);
    forall tree | SymTree(r.G(), r.View(), tree, 0, 0, |r.toks|)
      ensures SymbolKept(r.G(), r.parser.t, r.items, 0, 0, |r.toks|)
    {
      var d := TreeDerives(r.G(), r.View(), tree, 0, 0, |r.toks|);
      IsDerived(r.G(), 0, 0, |r.toks|, d);
    }
    if Endless(r.G(), r.View(), 0, 0, |r.toks|) {
      assert HasLarger(r.G(), r.View(), 0, 0, |r.toks|, 0);
    }
  }

  lemma IsDerived(g: Grammar, x: nat, i: nat, j: nat, d: nat)
    requires DerivesSym(g, x, i, j, d)
    ensures Derives(g, x, i, j)
  {
  }
}
