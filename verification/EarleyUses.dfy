/** Where a parse of the whole input uses a symbol. */
module EarleyUses {
  // These are the spans over which the pruned chart keeps a finished item of the symbol.

  import opened EarleyGrammar
  import opened EarleyPrune
  import opened EarleyForest

  /** A whole parse uses a finished item of symbol x in state j, with origin i if that is at most j. */
  ghost predicate SymbolKept(g: Grammar, t: Tables, items: ItemSets, x: nat, i: int, j: int) {
    x < |t.enders| && exists e, k: int :: (k == i || i > j) && e in t.enders[x] && IsKept(g, t, items, e, k, j)
  }

  // ----- a symbol is kept with all its rules -------------------------------------------------------------------

  /** A kept finished item of symbol x was foreseen, and every other true one is kept as well. */
  lemma FinishedTogether(g: Grammar, t: Tables, chart: ItemSets, x: nat, e: int, i: nat, j: nat, e': int)
    requires TablesOf(g, t) && Closed(g, t, chart) && (forall k :: 0 <= k < |chart| ==> Sound(g, chart[k], k))
    requires x < g.n && e in t.enders[x] && e' in t.enders[x] && IsKept(g, t, chart, e, i, j) && j < |chart|
    ensures Foreseen(g, x, i)
    ensures Means(g, e', i, j) ==> IsKept(g, t, chart, e', i, j)
  {
    hide TablesOf, Closed, Sound, Means, Foreseen, IsKept;
    EnderSteps(g, t, x, e);
    EnderSteps(g, t, x, e');
    var d := KeptDepth(g, t, chart, e, i, j);
    if j == |chart| - 1 && i == 0 && e in t.enders[0] && (e, i) in chart[j] {
      EnderSteps(g, t, 0, e);
      GoalForeseen(g);
      if Means(g, e', i, j) {
        ChartExactly(g, t, chart, e', i, j);
        KeptGoal(g, t, chart, e');
      }
    } else {
      var c', i', j', e2, k := KeptUser(g, t, chart, e, i, j, d);
      UserWaits(g, t, chart, c', i', j', e2, k, x, e, i, j);
      if Means(g, e', i, j) {
        ChartExactly(g, t, chart, e', i, j);
        assert Splits(g, t, chart, c', i', j, e', i);
        KeptUse(g, t, chart, c', i', j, e', i);
      }
    }
  }

  lemma GoalForeseen(g: Grammar)
    ensures Foreseen(g, 0, 0)
  {
  }

  lemma EnderSteps(g: Grammar, t: Tables, x: nat, e: int)
    requires TablesOf(g, t) && x < g.n
    ensures |t.enders| == g.n && (e in t.enders[x] <==> 0 <= e < |t.steps| && t.steps[e] == x - g.n)
  {
    hide StepsOf, StartersOf, GoodGrammar;
  }

  lemma KeptDepth(g: Grammar, t: Tables, chart: ItemSets, c: int, i: int, j: int) returns (d: nat)
    requires IsKept(g, t, chart, c, i, j)
    ensures Kept(g, t, chart, c, i, j, d)
  {
    d :| Kept(g, t, chart, c, i, j, d);
  }

  lemma KeptUser(g: Grammar, t: Tables, chart: ItemSets, c: int, i: int, j: int, d: nat)
    returns (c': int, i': int, j': int, e: int, k: int)
    requires Kept(g, t, chart, c, i, j, d)
    requires !(j == |chart| - 1 && i == 0 && |t.enders| > 0 && j >= 0 && c in t.enders[0] && (c, i) in chart[j])
    ensures Uses(g, t, chart, c', i', j', e, k, c, i, j) && IsKept(g, t, chart, c', i', j')
  {
    c', i', j', e, k :| Uses(g, t, chart, c', i', j', e, k, c, i, j) && Kept(g, t, chart, c', i', j', d - 1);
  }

  /** What uses a finished item waits for its symbol. */
  lemma UserWaits(g: Grammar, t: Tables, chart: ItemSets, c': int, i': int, j': int, e2: int, k: int, x: nat, e: int,
    i: nat, j: nat)
    requires TablesOf(g, t) && (forall h :: 0 <= h < |chart| ==> Sound(g, chart[h], h))
    requires Uses(g, t, chart, c', i', j', e2, k, e, i, j)
    requires x < g.n && 0 <= e < |t.steps| && t.steps[e] == x - g.n
    ensures e2 == e && k == i && j' == j && Completes(g, t, c' - 1, e) && t.steps[c' - 1] == x && Foreseen(g, x, i)
  {
    hide StepsOf, StartersOf, Means, Foreseen;
    assert Sound(g, chart[k], k) && i' >= 0 && Means(g, c' - 1, i', k);
    MeansForesees(g, t.steps, c' - 1, i', k);
  }

  // ----- uses in the grammar ------------------------------------------------------------------------------------

  ghost predicate DerivesAll(g: Grammar, xs: seq<nat>, i: nat, j: nat) {
    exists d: nat :: DerivesSeq(g, xs, i, j, d)
  }

  /** Rule k, from token o to token e, has x over tokens i..j behind m other symbols. */
  ghost predicate UsedIn(g: Grammar, x: nat, i: nat, j: nat, k: nat, m: nat, o: nat, e: nat) {
    && k < |g.rules| && m < |g.rules[k].rhs| && g.rules[k].rhs[m] == x
    && DerivesAll(g, g.rules[k].rhs[..m], o, i) && DerivesAll(g, g.rules[k].rhs[m + 1..], j, e)
  }

  /** A parse of the whole input, from the goal down, has x over tokens i..j below r rules. */
  ghost predicate Used(g: Grammar, x: nat, i: nat, j: nat, r: nat)
    decreases r
  {
    Derives(g, x, i, j) &&
    (|| (x == 0 && i == 0 && j == |g.toks|)
     || (r > 0 && exists k: nat, m: nat, o: nat, e: nat ::
           UsedIn(g, x, i, j, k, m, o, e) && Used(g, g.rules[k].head, o, e, r - 1)))
  }

  ghost predicate IsUsed(g: Grammar, x: nat, i: nat, j: nat) {
    exists r: nat :: Used(g, x, i, j, r)
  }

  // ----- sequences taken apart in front -----------------------------------------------------------------------------

  lemma {:induction false} SeqFront(g: Grammar, xs: seq<nat>, i: nat, h: nat, j: nat, d1: nat, d2: nat) returns (d: nat)
    requires xs != [] && i <= h && DerivesSym(g, xs[0], i, h, d1) && DerivesSeq(g, xs[1..], h, j, d2)
    ensures DerivesSeq(g, xs, i, j, d)
    decreases |xs|
  {
    hide DerivesSym, DerivesSeq;
    var n := |xs| - 1;
    if n == 0 {
      EmptyDerives(g, xs[1..], h, j, d2);
      EmptySeq(g, xs[..0], i);
      assert xs[..1] == xs;
      d := SeqExtends(g, xs, 0, i, i, h, 0, d1);
    } else {
      var l := SeqCase(g, xs[1..], h, j, d2);
      assert xs[1..][..|xs[1..]| - 1] == xs[..n][1..] && xs[1..][|xs[1..]| - 1] == xs[n];
      var d0 := SeqFront(g, xs[..n], i, h, l, d1, d2);
      assert xs[..n + 1] == xs;
      d := SeqExtends(g, xs, n, i, l, j, d0, d2);
    }
  }

  lemma EmptySeq(g: Grammar, xs: seq<nat>, i: nat)
    requires xs == []
    ensures DerivesSeq(g, xs, i, i, 0)
  {
  }

  lemma {:induction false} SeqFirst(g: Grammar, xs: seq<nat>, i: nat, j: nat, d: nat) returns (h: nat)
    requires xs != [] && DerivesSeq(g, xs, i, j, d)
    ensures i <= h <= j && DerivesSym(g, xs[0], i, h, d) && DerivesSeq(g, xs[1..], h, j, d)
    decreases |xs|
  {
    hide DerivesSym, DerivesSeq;
    var n := |xs| - 1;
    var l := SeqCase(g, xs, i, j, d);
    if n == 0 {
      EmptyDerives(g, xs[..n], i, l, d);
      EmptySeq(g, xs[1..], j);
      DeeperSeq(g, xs[1..], j, j, 0, d);
      h := j;
    } else {
      h := SeqFirst(g, xs[..n], i, l, d);
      assert xs[..n][1..] == xs[1..][..n - 1] && xs[1..][n - 1] == xs[n] && |xs[1..]| == n;
      SeqOfParts(g, xs[1..], h, l, j, d);
    }
  }

  lemma SeqOfParts(g: Grammar, xs: seq<nat>, i: nat, h: nat, j: nat, d: nat)
    requires xs != [] && i <= h <= j && DerivesSeq(g, xs[..|xs| - 1], i, h, d) && DerivesSym(g, xs[|xs| - 1], h, j, d)
    ensures DerivesSeq(g, xs, i, j, d)
  {
    hide DerivesSym;
  }

  // ----- what is kept is used ----------------------------------------------------------------------------------------

  /** The chart is exact and has all it should have. */
  ghost predicate ExactChart(g: Grammar, t: Tables, chart: ItemSets) {
    TablesOf(g, t) && Closed(g, t, chart) && forall k :: 0 <= k < |chart| ==> Sound(g, chart[k], k)
  }

  /** An item's rule goes on behind its dot to a token e, and is used from the item's origin to e. */
  ghost predicate GoesOn(g: Grammar, c: int, i: nat, j: nat, k: nat, m: nat, e: nat) {
    IsItem(g, c, k, m) && DerivesAll(g, g.rules[k].rhs[m..], j, e) && IsUsed(g, g.rules[k].head, i, e)
  }

  ghost predicate Explained(g: Grammar, c: int, i: nat, j: nat) {
    if c < g.n then c >= 0 && IsUsed(g, c, i, j) else exists k: nat, m: nat, e: nat :: GoesOn(g, c, i, j, k, m, e)
  }

  lemma ExactMeans(g: Grammar, t: Tables, chart: ItemSets, c: int, i: int, j: int)
    requires ExactChart(g, t, chart) && 0 <= j < |chart| && (c, i) in chart[j]
    ensures 0 <= i <= j && Means(g, c, i, j) && g.n > 0
  {
    hide TablesOf, Closed, Means;
    assert Sound(g, chart[j], j);
    MeansForward(g, c, i, j);
    MeansSomething(g, t, c, i, j);
  }

  lemma MeansSomething(g: Grammar, t: Tables, c: int, i: nat, j: nat)
    requires TablesOf(g, t) && Means(g, c, i, j)
    ensures g.n > 0
  {
    hide StepsOf, StartersOf, Base, DerivesSeq, Reach;
    if c >= g.n {
      var k: nat, m: nat, d: nat, r: nat :| Before(g, c, k, m, i, j, d, r);
      assert g.rules[k].head < g.n;
    }
  }

  /** A finished item: the symbol that it is for derives the span. */
  lemma FinishedSymbol(g: Grammar, t: Tables, c: int, i: nat, j: nat, x: nat)
    requires TablesOf(g, t) && Means(g, c, i, j) && 0 <= c < |t.steps| && t.steps[c] == x - g.n && x < g.n
    ensures Derives(g, x, i, j)
    ensures IsUsed(g, x, i, j) ==> Explained(g, c, i, j)
  {
    hide StepsOf, StartersOf, GoodGrammar, Derives, IsUsed, DerivesSeq, Base, Reach;
    FinishedMeans(g, t.steps, c, i, j);
    if c < g.n {
      TokenStep(g, t.steps, c);
    } else {
      var k: nat, m: nat, d: nat, r: nat :| Before(g, c, k, m, i, j, d, r);
      StepAt(g, t.steps, c, k, m);
      RestEmpty(g, g.rules[k].rhs, j);
      assert IsUsed(g, x, i, j) ==> GoesOn(g, c, i, j, k, m, j);
    }
  }

  lemma RestEmpty(g: Grammar, xs: seq<nat>, j: nat)
    ensures DerivesAll(g, xs[|xs|..], j, j)
  {
    EmptySeq(g, xs[|xs|..], j);
  }

  /** And the other way round. */
  lemma FinishedUse(g: Grammar, t: Tables, c: int, i: nat, j: nat, x: nat)
    requires TablesOf(g, t) && Explained(g, c, i, j) && 0 <= c < |t.steps| && t.steps[c] == x - g.n && x < g.n
    ensures IsUsed(g, x, i, j)
  {
    hide StepsOf, StartersOf, GoodGrammar, IsUsed, DerivesSeq, Base;
    if c < g.n {
      TokenStep(g, t.steps, c);
    } else {
      var k: nat, m: nat, e: nat :| GoesOn(g, c, i, j, k, m, e);
      StepAt(g, t.steps, c, k, m);
      var d: nat :| DerivesSeq(g, g.rules[k].rhs[m..], j, e, d);
      EmptyDerives(g, g.rules[k].rhs[m..], j, e, d);
    }
  }

  lemma GoalIsUsed(g: Grammar, x: nat, i: nat, j: nat)
    requires x == 0 && i == 0 && j == |g.toks| && Derives(g, x, i, j)
    ensures IsUsed(g, x, i, j)
  {
    hide Derives;
    assert Used(g, x, i, j, 0);
  }

  lemma PartIsUsed(g: Grammar, x: nat, i: nat, j: nat, k: nat, m: nat, o: nat, e: nat)
    requires k < |g.rules| && Derives(g, x, i, j) && UsedIn(g, x, i, j, k, m, o, e) && IsUsed(g, g.rules[k].head, o, e)
    ensures IsUsed(g, x, i, j)
  {
    hide Derives, UsedIn;
    var r: nat :| Used(g, g.rules[k].head, o, e, r);
    assert Used(g, x, i, j, r + 1);
  }

  lemma {:induction false} KeptExplained(g: Grammar, t: Tables, chart: ItemSets, c: int, i: int, j: int, d: nat)
    requires ExactChart(g, t, chart) && Kept(g, t, chart, c, i, j, d)
    ensures 0 <= i <= j < |chart| && Explained(g, c, i, j)
    decreases d
  {
    hide TablesOf, Closed, Sound, Means, Explained, IsUsed, Splits;
    if j == |chart| - 1 && i == 0 && |t.enders| > 0 && j >= 0 && c in t.enders[0] && (c, i) in chart[j] {
      ExactMeans(g, t, chart, c, i, j);
      ChartLength(g, t, chart);
      EnderSteps(g, t, 0, c);
      FinishedSymbol(g, t, c, i, j, 0);
      GoalIsUsed(g, 0, i, j);
    } else {
      var c', i', j', e, k2 := KeptBy(g, t, chart, c, i, j, d);
      KeptExplained(g, t, chart, c', i', j', d - 1);
      SplitExplained(g, t, chart, c', i', j', e, k2);
    }
  }

  lemma KeptBy(g: Grammar, t: Tables, chart: ItemSets, c: int, i: int, j: int, d: nat)
    returns (c': int, i': int, j': int, e: int, k: int)
    requires Kept(g, t, chart, c, i, j, d)
    requires !(j == |chart| - 1 && i == 0 && |t.enders| > 0 && j >= 0 && c in t.enders[0] && (c, i) in chart[j])
    ensures d > 0 && Uses(g, t, chart, c', i', j', e, k, c, i, j) && Kept(g, t, chart, c', i', j', d - 1)
  {
    c', i', j', e, k :| Uses(g, t, chart, c', i', j', e, k, c, i, j) && Kept(g, t, chart, c', i', j', d - 1);
  }

  /** What an item is used for, the two items that it comes from are used for. */
  lemma SplitExplained(g: Grammar, t: Tables, chart: ItemSets, c: int, i: int, j: int, e: int, k: int)
    requires ExactChart(g, t, chart) && Splits(g, t, chart, c, i, j, e, k) && 0 <= i <= j && Explained(g, c, i, j)
    ensures 0 <= i <= k <= j && Explained(g, c - 1, i, k) && Explained(g, e, k, j)
  {
    hide TablesOf, Closed, Sound, Means, IsUsed, DerivesAll, Base;
    ExactMeans(g, t, chart, c - 1, i, k);
    ExactMeans(g, t, chart, e, k, j);
    var rule: nat, m: nat, last: nat :| GoesOn(g, c, i, j, rule, m, last);
    SplitRule(g, t, c, i, k, e, j, rule, m);
    var x := g.rules[rule].rhs[m - 1];
    FinishedSymbol(g, t, e, k, j, x);
    OneMore(g, g.rules[rule].rhs, m - 1, k, j, last);
    assert GoesOn(g, c - 1, i, k, rule, m - 1, last);
    assert UsedIn(g, x, k, j, rule, m - 1, i, last);
    PartIsUsed(g, x, k, j, rule, m - 1, i, last);
  }

  lemma SplitRule(g: Grammar, t: Tables, c: int, i: nat, k: nat, e: int, j: nat, rule: nat, m: nat)
    requires TablesOf(g, t) && c >= 1 && Completes(g, t, c - 1, e) && Means(g, c - 1, i, k) && IsItem(g, c, rule, m)
    ensures m > 0 && IsItem(g, c - 1, rule, m - 1) && t.steps[e] == g.rules[rule].rhs[m - 1] - g.n
    ensures g.rules[rule].rhs[m - 1] < g.n && DerivesAll(g, g.rules[rule].rhs[..m - 1], i, k)
  {
    hide StepsOf, StartersOf, GoodGrammar, DerivesSeq, Base, Reach;
    BelowNegative(g, t.steps, c - 1);
    var rule': nat, m': nat, d: nat, r: nat :| Before(g, c - 1, rule', m', i, k, d, r);
    StepAt(g, t.steps, c - 1, rule', m');
    assert IsItem(g, c, rule', m' + 1);
    ItemUnique(g, c, rule, m, rule', m' + 1);
  }

  lemma OneMore(g: Grammar, xs: seq<nat>, m: nat, i: nat, h: nat, j: nat)
    requires m < |xs| && i <= h && Derives(g, xs[m], i, h) && DerivesAll(g, xs[m + 1..], h, j)
    ensures DerivesAll(g, xs[m..], i, j)
  {
    hide DerivesSym, DerivesSeq;
    var d1: nat :| DerivesSym(g, xs[m], i, h, d1);
    var d2: nat :| DerivesSeq(g, xs[m + 1..], h, j, d2);
    assert xs[m..][1..] == xs[m + 1..];
    var d := SeqFront(g, xs[m..], i, h, j, d1, d2);
  }

  // ----- what is used is kept ----------------------------------------------------------------------------------------

  /** A symbol that may begin at a token and derives a span has a finished item there. */
  lemma SymbolThere(g: Grammar, t: Tables, chart: ItemSets, x: nat, i: nat, j: nat) returns (f: int)
    requires ExactChart(g, t, chart) && x < g.n && i <= j < |chart| && Foreseen(g, x, i) && Derives(g, x, i, j)
    ensures |t.enders| == g.n && f in t.enders[x] && (f, i) in chart[j] && 0 <= f < |t.steps| && t.steps[f] == x - g.n
  {
    hide TablesOf, Closed, Sound, DerivesSym, DerivesSeq, Foreseen;
    var d: nat :| DerivesSym(g, x, i, j, d);
    var k := SymCase(g, x, i, j, d);
    if k == |g.rules| {
      f := x;
      ReadOver(g, t, chart, x, i);
    } else {
      var r := ReachOf(g, k, i);
      FinishedStep(g, t, k);
      f := Base(g, k) + |g.rules[k].rhs|;
      RuleMeans(g, k, i, j, d - 1, r);
      ChartExactly(g, t, chart, f, i, j);
    }
    EnderSteps(g, t, x, f);
  }

  lemma RuleMeans(g: Grammar, k: nat, i: nat, j: nat, d: nat, r: nat)
    requires k < |g.rules| && DerivesSeq(g, g.rules[k].rhs, i, j, d) && Reach(g, k, i, r)
    ensures Means(g, Base(g, k) + |g.rules[k].rhs|, i, j)
  {
    hide DerivesSeq, Reach, Base;
    var rhs := g.rules[k].rhs;
    assert rhs[..|rhs|] == rhs;
    assert Before(g, Base(g, k) + |rhs|, k, |rhs|, i, j, d, r);
  }

  /** One step back: if the item behind symbol m is kept, so are the symbol and the item before it. */
  lemma KeptBack(g: Grammar, t: Tables, chart: ItemSets, k: nat, m: nat, o: nat, i: nat, j: nat, r: nat)
    requires ExactChart(g, t, chart) && k < |g.rules| && m < |g.rules[k].rhs| && Reach(g, k, o, r)
    requires DerivesAll(g, g.rules[k].rhs[..m], o, i) && Derives(g, g.rules[k].rhs[m], i, j) && i <= j < |chart|
    requires IsKept(g, t, chart, Base(g, k) + m + 1, o, j)
    ensures IsKept(g, t, chart, Base(g, k) + m, o, i) && SymbolKept(g, t, chart, g.rules[k].rhs[m], i, j)
  {
    hide Closed, Sound, Derives, DerivesSeq, Reach, Base, IsKept, GoodGrammar, StepsOf, StartersOf, Means;
    var x, c := g.rules[k].rhs[m], Base(g, k) + m;
    var d: nat :| DerivesSeq(g, g.rules[k].rhs[..m], o, i, d);
    SeqForward(g, g.rules[k].rhs[..m], o, i, d);
    StepAt(g, t.steps, c, k, m);
    assert Awaits(g, x, i, k, m, o, d) && Reach(g, k, o, r);
    assert Means(g, c, o, i) by { ItemMeans(g, c, k, m, o, i, d, r); }
    hide TablesOf;
    ChartExactly(g, t, chart, c, o, i);
    var f := SymbolThere(g, t, chart, x, i, j);
    assert Splits(g, t, chart, c + 1, o, j, f, i) by { TokensFirst(g, k); }
    KeptUse(g, t, chart, c + 1, o, j, f, i);
  }

  lemma ItemMeans(g: Grammar, c: int, k: nat, m: nat, o: nat, i: nat, d: nat, r: nat)
    requires IsItem(g, c, k, m) && DerivesSeq(g, g.rules[k].rhs[..m], o, i, d) && Reach(g, k, o, r)
    ensures Means(g, c, o, i)
  {
    assert Before(g, c, k, m, o, i, d, r);
    TokensFirst(g, k);
  }

  lemma TokensFirst(g: Grammar, k: nat)
    requires k < |g.rules|
    ensures Base(g, k) >= g.n
  {
  }

  /** If the finished item of a rule is kept, so is the item with its dot before the last symbols. */
  lemma {:induction false} KeptWhole(g: Grammar, t: Tables, chart: ItemSets, k: nat, m: nat, o: nat, i: nat, e: nat,
    r: nat)
    requires ExactChart(g, t, chart) && k < |g.rules| && m <= |g.rules[k].rhs| && Reach(g, k, o, r) && e < |chart|
    requires DerivesAll(g, g.rules[k].rhs[..m], o, i) && DerivesAll(g, g.rules[k].rhs[m..], i, e)
    requires IsKept(g, t, chart, Base(g, k) + |g.rules[k].rhs|, o, e)
    ensures i <= e && IsKept(g, t, chart, Base(g, k) + m, o, i)
    decreases |g.rules[k].rhs| - m
  {
    hide ExactChart, DerivesSym, DerivesSeq, Reach, Base, IsKept;
    var rhs := g.rules[k].rhs;
    var d2: nat :| DerivesSeq(g, rhs[m..], i, e, d2);
    if m == |rhs| {
      EmptyDerives(g, rhs[m..], i, e, d2);
    } else {
      var h := SeqFirst(g, rhs[m..], i, e, d2);
      assert rhs[m..][1..] == rhs[m + 1..];
      var d1: nat :| DerivesSeq(g, rhs[..m], o, i, d1);
      var d := SeqExtends(g, rhs, m, o, i, h, d1, d2);
      KeptWhole(g, t, chart, k, m + 1, o, h, e, r);
      KeptBack(g, t, chart, k, m, o, i, h, r);
    }
  }

  lemma {:induction false} UsedKept(g: Grammar, t: Tables, chart: ItemSets, x: nat, i: nat, j: nat, r: nat)
    requires ExactChart(g, t, chart) && Used(g, x, i, j, r) && x < g.n
    ensures i <= j < |chart| && SymbolKept(g, t, chart, x, i, j)
    decreases r
  {
    hide TablesOf, Closed, Sound, Derives, DerivesAll, SymbolKept;
    ChartLength(g, t, chart);
    if x == 0 && i == 0 && j == |g.toks| {
      GoalSymbolKept(g, t, chart);
    } else {
      var k: nat, m: nat, o: nat, e: nat :| UsedIn(g, x, i, j, k, m, o, e) && Used(g, g.rules[k].head, o, e, r - 1);
      HeadInGrammar(g, t, k);
      UsedKept(g, t, chart, g.rules[k].head, o, e, r - 1);
      InsideKept(g, t, chart, x, i, j, k, m, o, e);
    }
  }

  lemma HeadInGrammar(g: Grammar, t: Tables, k: nat)
    requires TablesOf(g, t) && k < |g.rules|
    ensures g.rules[k].head < g.n
  {
    hide StepsOf, StartersOf;
  }

  lemma GoalSymbolKept(g: Grammar, t: Tables, chart: ItemSets)
    requires ExactChart(g, t, chart) && g.n > 0 && Derives(g, 0, 0, |g.toks|) && |chart| == |g.toks| + 1
    ensures SymbolKept(g, t, chart, 0, 0, |g.toks|)
  {
    hide TablesOf, Closed, Sound, Derives, IsKept;
    ClosedComplete(g, t, chart);
    EnderSteps(g, t, 0, 0);
    var e :| e in t.enders[0] && (e, 0) in chart[|g.toks|];
    EnderSteps(g, t, 0, e);
    KeptGoal(g, t, chart, e);
  }

  lemma InsideKept(g: Grammar, t: Tables, chart: ItemSets, x: nat, i: nat, j: nat, k: nat, m: nat, o: nat, e: nat)
    requires ExactChart(g, t, chart) && UsedIn(g, x, i, j, k, m, o, e) && Derives(g, x, i, j) && e < |chart|
    requires g.rules[k].head < g.n && o <= e && SymbolKept(g, t, chart, g.rules[k].head, o, e)
    ensures i <= j < |chart| && SymbolKept(g, t, chart, x, i, j)
  {
    hide ExactChart, DerivesSym, DerivesSeq, Base, IsKept, Foreseen, Reach;
    var rhs := g.rules[k].rhs;
    var d0: nat :| DerivesSeq(g, rhs[..m], o, i, d0);
    var d1: nat :| DerivesSym(g, x, i, j, d1);
    var d2: nat :| DerivesSeq(g, rhs[m + 1..], j, e, d2);
    SymForward(g, x, i, j, d1);
    var d := SeqExtends(g, rhs, m, o, i, j, d0, d1);
    var r := WholeKept(g, t, chart, k, m + 1, o, j, e);
    KeptWhole(g, t, chart, k, m + 1, o, j, e, r);
    KeptBack(g, t, chart, k, m, o, i, j, r);
  }

  lemma SymForward(g: Grammar, x: nat, i: nat, j: nat, d: nat)
    requires DerivesSym(g, x, i, j, d)
    ensures i <= j
  {
    var k := SymCase(g, x, i, j, d);
    if k < |g.rules| {
      SeqForward(g, g.rules[k].rhs, i, j, d - 1);
    }
  }

  /** A whole rule of a kept symbol is kept over the symbol's span. */
  lemma WholeKept(g: Grammar, t: Tables, chart: ItemSets, k: nat, m: nat, o: nat, j: nat, e: nat) returns (r: nat)
    requires ExactChart(g, t, chart) && k < |g.rules| && m <= |g.rules[k].rhs| && o <= e < |chart|
    requires DerivesAll(g, g.rules[k].rhs[..m], o, j) && DerivesAll(g, g.rules[k].rhs[m..], j, e)
    requires g.rules[k].head < g.n && SymbolKept(g, t, chart, g.rules[k].head, o, e)
    ensures Reach(g, k, o, r) && IsKept(g, t, chart, Base(g, k) + |g.rules[k].rhs|, o, e)
  {
    hide TablesOf, Closed, Sound, DerivesSeq, Base, IsKept, Foreseen, Reach, Means;
    var x, c := g.rules[k].head, Base(g, k) + |g.rules[k].rhs|;
    var f, o': int :| (o' == o || o > e) && f in t.enders[x] && IsKept(g, t, chart, f, o', e);
    FinishedStep(g, t, k);
    EnderSteps(g, t, x, c);
    FinishedTogether(g, t, chart, x, f, o, e, c);
    r := ReachOf(g, k, o);
    var d1: nat :| DerivesSeq(g, g.rules[k].rhs[..m], o, j, d1);
    var d2: nat :| DerivesSeq(g, g.rules[k].rhs[m..], j, e, d2);
    var d := SeqJoined(g, g.rules[k].rhs, m, o, j, e, d1, d2);
    RuleMeans(g, k, o, e, d, r);
  }

  lemma {:induction false} SeqJoined(g: Grammar, xs: seq<nat>, m: nat, i: nat, h: nat, j: nat, d1: nat, d2: nat)
    returns (d: nat)
    requires m <= |xs| && DerivesSeq(g, xs[..m], i, h, d1) && DerivesSeq(g, xs[m..], h, j, d2)
    ensures DerivesSeq(g, xs, i, j, d)
    decreases |xs| - m
  {
    hide DerivesSym, DerivesSeq;
    if m == |xs| {
      EmptyDerives(g, xs[m..], h, j, d2);
      assert xs[..m] == xs;
      d := d1;
    } else {
      var l := SeqFirst(g, xs[m..], h, j, d2);
      assert xs[m..][1..] == xs[m + 1..];
      var d' := SeqExtends(g, xs, m, i, h, l, d1, d2);
      d := SeqJoined(g, xs, m + 1, i, l, j, d', d2);
    }
  }

  /** A finished item of a symbol is kept over a span just when a parse of the whole input uses the
      symbol there. */
  lemma UsedExactly(g: Grammar, t: Tables, chart: ItemSets, x: nat, i: nat, j: nat)
    requires ExactChart(g, t, chart) && x < g.n && i <= j
    ensures SymbolKept(g, t, chart, x, i, j) <==> IsUsed(g, x, i, j)
  {
    hide TablesOf, Closed, Sound, Used, Kept, Explained;
    if SymbolKept(g, t, chart, x, i, j) {
      var e, k: int :| (k == i || i > j) && e in t.enders[x] && IsKept(g, t, chart, e, k, j);
      var d: nat :| Kept(g, t, chart, e, i, j, d);
      KeptExplained(g, t, chart, e, i, j, d);
      EnderSteps(g, t, x, e);
      FinishedUse(g, t, e, i, j, x);
    }
    if IsUsed(g, x, i, j) {
      var r: nat :| Used(g, x, i, j, r);
      UsedKept(g, t, chart, x, i, j, r);
    }
  }

  /** Asked about a span that ends before it begins, it is found if the symbol is used over any span
      with the same end. */
  lemma UsedBackward(g: Grammar, t: Tables, chart: ItemSets, x: nat, i: nat, j: nat)
    requires ExactChart(g, t, chart) && x < g.n && i > j
    ensures SymbolKept(g, t, chart, x, i, j) <==> exists k: nat :: k <= j && IsUsed(g, x, k, j)
  {
    hide TablesOf, Closed, Sound, IsUsed, Kept, Explained;
    if SymbolKept(g, t, chart, x, i, j) {
      var e, k: int :| (k == i || i > j) && e in t.enders[x] && IsKept(g, t, chart, e, k, j);
      var d: nat :| Kept(g, t, chart, e, k, j, d);
      KeptExplained(g, t, chart, e, k, j, d);
      assert SymbolKept(g, t, chart, x, k, j);
      UsedExactly(g, t, chart, x, k, j);
    }
    if k: nat :| k <= j && IsUsed(g, x, k, j) {
      UsedExactly(g, t, chart, x, k, j);
    }
  }
}
