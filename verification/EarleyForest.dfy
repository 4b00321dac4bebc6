/** The trees that deriv_trees lists are the parse trees. */
module EarleyForest {
  import opened EarleyGrammar
  import opened EarleyForward
  import opened EarleyPrune
  import opened EarleyTrees

  /** names gives each rule's first item a name and the tokens' items theirs. */
  ghost predicate NamesOf(g: Grammar, names: seq<Option<Name>>) {
    && |names| == Base(g, |g.rules|)
    && (forall c :: 0 <= c < g.n ==> names[c] == Some(Name(c, 0)))
    && (forall c :: g.n <= c < |names| ==> (names[c].Some? <==> exists k: nat :: k < |g.rules| && IsItem(g, c, k, 0)))
  }

  // ----- parse trees ----------------------------------------------------------------------------------------

  /** tree is a parse tree of symbol x over tokens i..j. */
  ghost predicate SymTree(g: Grammar, p: Parse, tree: Tree, x: nat, i: nat, j: nat)
    requires |p.names| == Base(g, |g.rules|)
    decreases tree
  {
    match tree
    case Leaf(name, word) =>
      name == Name(x, 0) && j == i + 1 && i < |g.toks| && i < |p.words| && x in g.toks[i] && word == p.words[i]
    case Node(name, kids) =>
      exists k: nat :: Heads(g, p, k, x, name) && KidTrees(g, p, kids, g.rules[k].rhs, i, j)
  }

  ghost predicate Heads(g: Grammar, p: Parse, k: nat, x: nat, name: Name) {
    k < |g.rules| && g.rules[k].head == x && Base(g, k) < |p.names| && p.names[Base(g, k)] == Some(name)
  }

  /** The kids are parse trees of the symbols xs, one after the other over tokens i..j. */
  ghost predicate KidTrees(g: Grammar, p: Parse, kids: seq<Tree>, xs: seq<nat>, i: nat, j: nat)
    requires |p.names| == Base(g, |g.rules|)
    decreases kids
  {
    && |kids| == |xs|
    && if kids == [] then i == j
       else exists h: nat {:trigger SymTree(g, p, kids[|kids| - 1], xs[|xs| - 1], h, j)}
                          {:trigger KidTrees(g, p, kids[..|kids| - 1], xs[..|xs| - 1], i, h)} ::
         i <= h <= j && KidTrees(g, p, kids[..|kids| - 1], xs[..|xs| - 1], i, h)
           && SymTree(g, p, kids[|kids| - 1], xs[|xs| - 1], h, j)
  }

  /** tree is what an item of state j with origin i stands for: a node with the kids before the dot. */
  ghost predicate PartTree(g: Grammar, p: Parse, tree: Tree, c: int, i: nat, j: nat)
    requires |p.names| == Base(g, |g.rules|)
  {
    if c < g.n then c >= 0 && tree.Leaf? && SymTree(g, p, tree, c, i, j)
    else tree.Node? && exists k: nat, m: nat :: Begun(g, p, tree, c, k, m) && KidTrees(g, p, tree.kids, g.rules[k].rhs[..m], i, j)
  }

  ghost predicate Begun(g: Grammar, p: Parse, tree: Tree, c: int, k: nat, m: nat)
    requires tree.Node?
  {
    IsItem(g, c, k, m) && Heads(g, p, k, g.rules[k].head, tree.name)
  }

  // ----- trees and derivations -----------------------------------------------------------------------------

  lemma KidsSplit(g: Grammar, p: Parse, kids: seq<Tree>, xs: seq<nat>, i: nat, j: nat) returns (h: nat)
    requires |p.names| == Base(g, |g.rules|) && kids != [] && KidTrees(g, p, kids, xs, i, j)
    ensures |kids| == |xs| && i <= h <= j
    ensures KidTrees(g, p, kids[..|kids| - 1], xs[..|xs| - 1], i, h)
      && SymTree(g, p, kids[|kids| - 1], xs[|xs| - 1], h, j)
  {
    h :| i <= h <= j && KidTrees(g, p, kids[..|kids| - 1], xs[..|xs| - 1], i, h)
      && SymTree(g, p, kids[|kids| - 1], xs[|xs| - 1], h, j);
  }

  lemma KidsJoin(g: Grammar, p: Parse, kids: seq<Tree>, kid: Tree, xs: seq<nat>, m: nat, i: nat, h: nat, j: nat)
    requires |p.names| == Base(g, |g.rules|) && m < |xs| && i <= h <= j
    requires KidTrees(g, p, kids, xs[..m], i, h) && SymTree(g, p, kid, xs[m], h, j)
    ensures KidTrees(g, p, kids + [kid], xs[..m + 1], i, j)
  {
    hide *;
    KidsLength(g, p, kids, xs[..m], i, h);
    var ks, ys := kids + [kid], xs[..m + 1];
    assert ks[..|ks| - 1] == kids && ks[|ks| - 1] == kid && ys[..|ys| - 1] == xs[..m] && ys[|ys| - 1] == xs[m];
    KidsOfParts(g, p, ks, ys, i, h, j);
  }

  lemma KidsLength(g: Grammar, p: Parse, kids: seq<Tree>, xs: seq<nat>, i: nat, j: nat)
    requires |p.names| == Base(g, |g.rules|) && KidTrees(g, p, kids, xs, i, j)
    ensures |kids| == |xs|
  {
    hide SymTree, Base;
  }

  lemma KidsOfParts(g: Grammar, p: Parse, kids: seq<Tree>, xs: seq<nat>, i: nat, h: nat, j: nat)
    requires |p.names| == Base(g, |g.rules|) && |kids| == |xs| > 0 && i <= h <= j
    requires KidTrees(g, p, kids[..|kids| - 1], xs[..|xs| - 1], i, h)
      && SymTree(g, p, kids[|kids| - 1], xs[|xs| - 1], h, j)
    ensures KidTrees(g, p, kids, xs, i, j)
  {
    hide SymTree, Base;
  }

  /** A parse tree is a derivation. */
  lemma {:induction false} TreeDerives(g: Grammar, p: Parse, tree: Tree, x: nat, i: nat, j: nat) returns (d: nat)
    requires |p.names| == Base(g, |g.rules|) && SymTree(g, p, tree, x, i, j)
    ensures DerivesSym(g, x, i, j, d)
    decreases tree
  {
    if tree.Leaf? {
      d := 0;
    } else {
      var k: nat :| Heads(g, p, k, x, tree.name) && KidTrees(g, p, tree.kids, g.rules[k].rhs, i, j);
      var d' := KidsDerive(g, p, tree.kids, g.rules[k].rhs, i, j);
      d := d' + 1;
      assert DerivesSeq(g, g.rules[k].rhs, i, j, d - 1);
    }
  }

  lemma {:induction false} KidsDerive(g: Grammar, p: Parse, kids: seq<Tree>, xs: seq<nat>, i: nat, j: nat)
    returns (d: nat)
    requires |p.names| == Base(g, |g.rules|) && KidTrees(g, p, kids, xs, i, j)
    ensures DerivesSeq(g, xs, i, j, d)
    decreases kids
  {
    if kids == [] {
      d := 0;
    } else {
      hide Base, DerivesSym;
      var h := KidsSplit(g, p, kids, xs, i, j);
      var d1 := KidsDerive(g, p, kids[..|kids| - 1], xs[..|xs| - 1], i, h);
      var d2 := TreeDerives(g, p, kids[|kids| - 1], xs[|xs| - 1], h, j);
      d := if d1 < d2 then d2 else d1;
      DeeperSeq(g, xs[..|xs| - 1], i, h, d1, d);
      DeeperSym(g, xs[|xs| - 1], h, j, d2, d);
    }
  }

  // ----- the tree of a finished item -------------------------------------------------------------------------

  /** What a finished item stands for is a parse tree of its symbol. */
  lemma FinishedTree(g: Grammar, t: Tables, p: Parse, tree: Tree, e: int, x: nat, i: nat, j: nat)
    requires TablesOf(g, t) && |p.names| == Base(g, |g.rules|) && PartTree(g, p, tree, e, i, j)
    requires 0 <= e < |t.steps| && t.steps[e] == x - g.n && x < g.n
    ensures SymTree(g, p, tree, x, i, j)
  {
    hide StepsOf, StartersOf, Base;
    if e < g.n {
      TokenIsItem(g, t, e);
    } else {
      var k: nat, m: nat :| Begun(g, p, tree, e, k, m) && KidTrees(g, p, tree.kids, g.rules[k].rhs[..m], i, j);
      StepAt(g, t.steps, e, k, m);
      assert g.rules[k].rhs[..m] == g.rules[k].rhs;
    }
  }

  /** A parse tree of a symbol is what one of its finished items stands for. */
  lemma TreeFinished(g: Grammar, t: Tables, p: Parse, tree: Tree, x: nat, i: nat, j: nat) returns (e: nat)
    requires TablesOf(g, t) && |p.names| == Base(g, |g.rules|) && SymTree(g, p, tree, x, i, j) && x < g.n
    ensures PartTree(g, p, tree, e, i, j) && e < |t.steps| && t.steps[e] == x - g.n
    ensures Foreseen(g, x, i) ==> Means(g, e, i, j)
  {
    hide StepsOf, StartersOf, Base, DerivesSeq, Reach, Foreseen;
    if tree.Leaf? {
      e := x;
      TokenIsItem(g, t, e);
    } else {
      var k: nat :| Heads(g, p, k, x, tree.name) && KidTrees(g, p, tree.kids, g.rules[k].rhs, i, j);
      var rhs := g.rules[k].rhs;
      e := Base(g, k) + |rhs|;
      FinishedStep(g, t, k);
      assert rhs[..|rhs|] == rhs;
      assert Begun(g, p, tree, e, k, |rhs|);
      if Foreseen(g, x, i) {
        var r := ReachOf(g, k, i);
        var d := KidsDerive(g, p, tree.kids, rhs, i, j);
        assert Before(g, e, k, |rhs|, i, j, d, r);
      }
    }
  }

  // ----- items are numbered once ------------------------------------------------------------------------------

  lemma {:induction false} BaseOrder(g: Grammar, k: nat, k': nat)
    requires k < k' <= |g.rules|
    ensures Base(g, k) + |g.rules[k].rhs| + 1 <= Base(g, k')
    decreases k'
  {
    if k + 1 < k' {
      BaseOrder(g, k, k' - 1);
    }
  }

  lemma ItemUnique(g: Grammar, c: int, k: nat, m: nat, k': nat, m': nat)
    requires IsItem(g, c, k, m) && IsItem(g, c, k', m')
    ensures k == k' && m == m'
  {
    hide Base;
    if k < k' {
      BaseOrder(g, k, k');
    } else if k' < k {
      BaseOrder(g, k', k);
    }
  }

  /** The item before an item: the same rule's, or the last of the rule before. */
  lemma PrevStep(g: Grammar, t: Tables, c: int, k: nat, m: nat)
    requires TablesOf(g, t) && IsItem(g, c, k, m)
    ensures c <= |t.steps| && g.n > 0 && c >= 1
    ensures m > 0 ==> IsItem(g, c - 1, k, m - 1) && t.steps[c - 1] == g.rules[k].rhs[m - 1] < g.n
    ensures m == 0 ==> t.steps[c - 1] < 0
  {
    hide StepsOf, StartersOf;
    HeadBelow(g, t, k);
    if m > 0 {
      StepAt(g, t.steps, c - 1, k, m - 1);
    } else if k > 0 {
      assert IsItem(g, c - 1, k - 1, |g.rules[k - 1].rhs|);
      StepAt(g, t.steps, c - 1, k - 1, |g.rules[k - 1].rhs|);
    } else {
      TokenIsItem(g, t, g.n - 1);
    }
  }

  // ----- what deriv_trees is given ------------------------------------------------------------------------------

  /** p is the parse that the two passes leave: chart is sound and closed, kept is what is left of it. */
  ghost predicate ParseOf(p: Parse, g: Grammar, t: Tables, chart: ItemSets, kept: ItemSets) {
    && TablesOf(g, t) && p.n == g.n && p.enders == t.enders && p.steps == t.steps && NamesOf(g, p.names)
      && |p.words| == |g.toks|
    && Closed(g, t, chart) && (forall j :: 0 <= j < |chart| ==> Sound(g, chart[j], j))
    && IsPruned(g, t, chart, kept) && |p.sets| == |kept|
    && (forall c, i, j :: p.Has(c, i, j) <==> 0 <= j < |kept| && (c, i) in kept[j])
  }

  lemma HasMeans(p: Parse, g: Grammar, t: Tables, chart: ItemSets, kept: ItemSets, c: int, i: int, j: int)
    requires ParseOf(p, g, t, chart, kept) && p.Has(c, i, j)
    ensures 0 <= j < |chart| && |chart| == |kept| == |p.sets| && (c, i) in kept[j] && (c, i) in chart[j]
    ensures 0 <= i <= j && Means(g, c, i, j)
  {
    hide TablesOf, NamesOf, Closed, Means, AllFollowed, GoalsKept, IsKept, Parse.Has;
    assert Sound(g, chart[j], j);
    MeansForward(g, c, i, j);
  }

  lemma HasFits(p: Parse, g: Grammar, t: Tables, chart: ItemSets, kept: ItemSets, c: int, i: int, j: int)
    requires ParseOf(p, g, t, chart, kept) && p.Has(c, i, j)
    ensures p.Fits(c, i, j)
  {
    HasMeans(p, g, t, chart, kept, c, i, j);
    hide StepsOf, StartersOf, NamesOf, Closed, IsPruned, Parse.Has, Base, DerivesSeq, Reach, Sound;
    ItemStep(g, t, c, i, j);
    if c < g.n {
      if c > 0 {
        TokenIsItem(g, t, c - 1);
      }
    } else {
      var k: nat, m: nat, d: nat, r: nat :| Before(g, c, k, m, i, j, d, r);
      PrevStep(g, t, c, k, m);
    }
  }

  /** names is set where nb_deriv_trees stops. */
  lemma NameStops(g: Grammar, t: Tables, names: seq<Option<Name>>, c: nat)
    requires TablesOf(g, t) && NamesOf(g, names) && |names| == |t.steps| && c < |names|
    ensures names[c].Some? <==> c < g.n || (c > 0 && t.steps[c - 1] < 0)
  {
    hide StepsOf, StartersOf;
    if c >= g.n {
      var k, m := ItemAt(g, |g.rules|, c);
      PrevStep(g, t, c, k, m);
      if names[c].Some? {
        var k': nat :| k' < |g.rules| && IsItem(g, c, k', 0);
        ItemUnique(g, c, k, m, k', 0);
      }
    }
  }

  /** Every number from n on is an item. */
  lemma {:induction false} ItemAt(g: Grammar, b: nat, c: nat) returns (k: nat, m: nat)
    requires b <= |g.rules| && g.n <= c < Base(g, b)
    ensures IsItem(g, c, k, m)
    decreases b
  {
    if c >= Base(g, b - 1) {
      k, m := b - 1, c - Base(g, b - 1);
    } else {
      k, m := ItemAt(g, b - 1, c);
    }
  }

  lemma ParseIsValid(p: Parse, g: Grammar, t: Tables, chart: ItemSets, kept: ItemSets)
    requires ParseOf(p, g, t, chart, kept)
    ensures p.Valid()
  {
    hide TablesOf, NamesOf, Closed, Parse.Has, Parse.Fits, ParseOf, Parse.NamesFit, Base;
    ParseSizes(p, g, t, chart, kept);
    NamesDoFit(p, g, t);
    forall c, i, j | p.Has(c, i, j) ensures p.Fits(c, i, j) {
      HasFits(p, g, t, chart, kept, c, i, j);
    }
  }

  lemma NamesDoFit(p: Parse, g: Grammar, t: Tables)
    requires TablesOf(g, t) && NamesOf(g, p.names) && p.n == g.n && p.steps == t.steps && |p.names| == |p.steps|
    ensures p.NamesFit()
  {
    hide TablesOf, NamesOf;
    forall c | 0 <= c < |p.steps| ensures p.names[c].Some? <==> c < p.n || (c > 0 && p.steps[c - 1] < 0) {
      NameStops(g, t, p.names, c);
    }
  }

  lemma ParseSizes(p: Parse, g: Grammar, t: Tables, chart: ItemSets, kept: ItemSets)
    requires ParseOf(p, g, t, chart, kept)
    ensures TablesOf(g, t) && NamesOf(g, p.names) && p.n == g.n && p.enders == t.enders && p.steps == t.steps
    ensures |p.names| == |p.steps| == Base(g, |g.rules|) && |p.enders| == g.n
    ensures forall x, e :: 0 <= x < g.n && e in p.enders[x] ==> 0 <= e < |p.steps|
  {
    hide StartersOf, Closed, IsPruned, GoodGrammar, Base, Parse.Has;
  }

  // ----- one more kid -----------------------------------------------------------------------------------------

  /** tree is one that (c - 1, i) of state k stands for, with one that (e, k) of state j stands for
      as one more kid. */
  ghost predicate Joins(g: Grammar, p: Parse, tree: Tree, c: int, i: int, j: int, e: int, k: int)
    requires |p.names| == Base(g, |g.rules|)
  {
    && 0 <= i <= k <= j && p.Has(c - 1, i, k) && p.Has(e, k, j)
    && exists a, b :: Joined(g, p, tree, c, i, j, e, k, a, b)
  }

  ghost predicate Joined(g: Grammar, p: Parse, tree: Tree, c: int, i: nat, j: nat, e: int, k: nat, a: Tree, b: Tree)
    requires |p.names| == Base(g, |g.rules|)
  {
    PartTree(g, p, a, c - 1, i, k) && PartTree(g, p, b, e, k, j) && tree == WithKid(a, b)
  }

  lemma JoinIsPart(g: Grammar, t: Tables, p: Parse, tree: Tree, c: int, i: nat, j: nat, e: int, k: nat)
    requires TablesOf(g, t) && |p.names| == Base(g, |g.rules|) && Joins(g, p, tree, c, i, j, e, k)
    requires 0 < c <= |t.steps| && Completes(g, t, c - 1, e)
    ensures PartTree(g, p, tree, c, i, j)
  {
    hide StepsOf, StartersOf, GoodGrammar, Base, SymTree, KidTrees, Parse.Has;
    var a, b :| Joined(g, p, tree, c, i, j, e, k, a, b);
    BelowNegative(g, t.steps, c - 1);
    var q: nat, m: nat :| Begun(g, p, a, c - 1, q, m) && KidTrees(g, p, a.kids, g.rules[q].rhs[..m], i, k);
    StepAt(g, t.steps, c - 1, q, m);
    FinishedTree(g, t, p, b, e, t.steps[c - 1], k, j);
    KidsJoin(g, p, a.kids, b, g.rules[q].rhs, m, i, k, j);
    assert Begun(g, p, tree, c, q, m + 1);
  }

  /** A node of an unnamed item has a last kid, and both halves are in the parse. */
  lemma PartIsJoin(p: Parse, g: Grammar, t: Tables, chart: ItemSets, kept: ItemSets, tree: Tree, c: int, i: nat, j: nat)
    returns (e: int, k: int)
    requires ParseOf(p, g, t, chart, kept) && |p.names| == Base(g, |g.rules|) && p.Has(c, i, j)
    requires PartTree(g, p, tree, c, i, j) && g.n <= c < |t.steps| && c > 0 && t.steps[c - 1] >= 0
    ensures Joins(g, p, tree, c, i, j, e, k) && Completes(g, t, c - 1, e)
  {
    hide TablesOf, NamesOf, Closed, IsPruned, Base, SymTree, KidTrees, Parse.Has, DerivesSeq, Reach, ParseOf, Splits,
      Sound, Foreseen;
    TablesHold(p, g, t, chart, kept);
    var q: nat, m: nat :| Begun(g, p, tree, c, q, m) && KidTrees(g, p, tree.kids, g.rules[q].rhs[..m], i, j);
    PrevStep(g, t, c, q, m);
    KidsLength(g, p, tree.kids, g.rules[q].rhs[..m], i, j);
    var rhs, kids := g.rules[q].rhs, tree.kids;
    var h := KidsSplit(g, p, kids, rhs[..m], i, j);
    assert rhs[..m][..m - 1] == rhs[..m - 1] && rhs[..m][m - 1] == rhs[m - 1];
    HasMeans(p, g, t, chart, kept, c, i, j);
    PrevMeans(g, t, p, c, q, m, kids[..m - 1], i, h, j);
    MeansForesees(g, t.steps, c - 1, i, h);
    e := TreeFinished(g, t, p, kids[m - 1], rhs[m - 1], h, j);
    k := h;
    BothThere(p, g, t, chart, kept, c, i, j, e, k);
    var a := Node(tree.name, kids[..m - 1]);
    assert Begun(g, p, a, c - 1, q, m - 1);
    assert kids[..m - 1] + [kids[m - 1]] == kids;
    assert Joined(g, p, tree, c, i, j, e, k, a, kids[m - 1]);
  }

  lemma TablesHold(p: Parse, g: Grammar, t: Tables, chart: ItemSets, kept: ItemSets)
    requires ParseOf(p, g, t, chart, kept)
    ensures TablesOf(g, t) && GoodGrammar(g) && StepsOf(g, t.steps) && |chart| == |kept|
  {
    hide NamesOf, Closed, GoodGrammar, StepsOf, Parse.Has;
  }

  lemma PrevMeans(g: Grammar, t: Tables, p: Parse, c: int, q: nat, m: nat, kids: seq<Tree>, i: nat, h: nat, j: nat)
    requires TablesOf(g, t) && |p.names| == Base(g, |g.rules|) && IsItem(g, c, q, m) && m > 0 && c >= g.n
      && Means(g, c, i, j)
    requires KidTrees(g, p, kids, g.rules[q].rhs[..m - 1], i, h)
    ensures Means(g, c - 1, i, h)
  {
    hide TablesOf, KidTrees, DerivesSeq, Reach;
    var k: nat, m': nat, d: nat, r: nat :| Before(g, c, k, m', i, j, d, r);
    ItemUnique(g, c, q, m, k, m');
    var d' := KidsDerive(g, p, kids, g.rules[q].rhs[..m - 1], i, h);
    assert Before(g, c - 1, q, m - 1, i, h, d', r);
  }

  /** The two halves of an item of the pruned chart are in it. */
  lemma BothThere(p: Parse, g: Grammar, t: Tables, chart: ItemSets, kept: ItemSets, c: int, i: nat, j: nat, e: int,
    k: nat)
    requires ParseOf(p, g, t, chart, kept) && p.Has(c, i, j) && i <= k <= j
    requires g.n <= c && c > 0 && Completes(g, t, c - 1, e) && Means(g, c - 1, i, k) && Means(g, e, k, j)
    ensures p.Has(c - 1, i, k) && p.Has(e, k, j)
  {
    hide TablesOf, NamesOf, Closed, Parse.Has, Means, Completes, AllKept, GoalsKept, IsKept;
    HasMeans(p, g, t, chart, kept, c, i, j);
    ChartExactly(g, t, chart, c - 1, i, k);
    ChartExactly(g, t, chart, e, k, j);
    assert Splits(g, t, chart, c, i, j, e, k);
    assert Followed(g, t, chart, kept, c, i, j);
    assert Targets(kept, c, i, j, e, k);
  }

  // ----- the lists of deriv_trees --------------------------------------------------------------------------------

  ghost predicate Pairs(tree: Tree, prev: seq<Tree>, last: seq<Tree>) {
    exists a, b :: a in prev && b in last && tree == WithKid(a, b)
  }

  lemma {:induction false} ExtendedMembers(prev: seq<Tree>, last: Tree, acc: seq<Tree>, tree: Tree)
    ensures tree in Extended(prev, last, acc) <==> tree in acc || exists a :: a in prev && tree == WithKid(a, last)
    decreases |prev|
  {
    if prev != [] {
      ExtendedMembers(prev[1..], last, [WithKid(prev[0], last)] + acc, tree);
      assert prev == [prev[0]] + prev[1..];
    }
  }

  lemma {:induction false} CombinedMembers(last: seq<Tree>, prev: seq<Tree>, acc: seq<Tree>, tree: Tree)
    ensures tree in Combined(last, prev, acc) <==> tree in acc || Pairs(tree, prev, last)
    decreases |last|
  {
    if last != [] {
      ExtendedMembers(prev, last[0], acc, tree);
      CombinedMembers(last[1..], prev, Extended(prev, last[0], acc), tree);
      assert last == [last[0]] + last[1..];
    }
  }

  ghost predicate JoinsSome(g: Grammar, p: Parse, tree: Tree, c: int, i: int, j: int, e: int, ks: seq<int>)
    requires |p.names| == Base(g, |g.rules|)
  {
    exists k :: k in ks && Joins(g, p, tree, c, i, j, e, k)
  }

  /** The list holds exactly the trees an item of the parse stands for. */
  ghost predicate Lists(g: Grammar, p: Parse, trees: Option<seq<Tree>>, c: int, i: nat, j: nat)
    requires |p.names| == Base(g, |g.rules|)
  {
    trees.Some? ==> forall tree :: tree in trees.value <==> PartTree(g, p, tree, c, i, j)
  }

  lemma JoinsByLists(g: Grammar, p: Parse, prev: seq<Tree>, last: seq<Tree>, tree: Tree, c: int, i: nat, j: nat, e: int,
    k: nat)
    requires |p.names| == Base(g, |g.rules|) && i <= k <= j && p.Has(c - 1, i, k) && p.Has(e, k, j)
    requires Lists(g, p, Some(prev), c - 1, i, k) && Lists(g, p, Some(last), e, k, j)
    ensures Pairs(tree, prev, last) <==> Joins(g, p, tree, c, i, j, e, k)
  {
    hide PartTree, Parse.Has, Base;
    if Pairs(tree, prev, last) {
      var a, b :| a in prev && b in last && tree == WithKid(a, b);
      assert Joined(g, p, tree, c, i, j, e, k, a, b);
    }
    if Joins(g, p, tree, c, i, j, e, k) {
      var a, b :| Joined(g, p, tree, c, i, j, e, k, a, b);
      assert a in prev && b in last;
    }
  }

  /** deriv_trees lists exactly the trees of an item of the parse: those that are built of the
      grammar's rules over the item's tokens. */
  lemma {:induction false} TreesExactly(p: Parse, g: Grammar, t: Tables, chart: ItemSets, kept: ItemSets, d: nat,
    c: int, i: nat, j: nat)
    requires ParseOf(p, g, t, chart, kept) && p.Valid() && |p.names| == Base(g, |g.rules|) && p.Has(c, i, j)
    ensures Lists(g, p, p.Trees(d, c, i, j), c, i, j)
    decreases d, 0, 0
  {
    hide ParseOf, PartTree, Base, Joins, Parse.EnderTrees, Parse.NamesFit, Parse.Has;
    HasFits(p, g, t, chart, kept, c, i, j);
    ParseSizes(p, g, t, chart, kept);
    TablesHold(p, g, t, chart, kept);
    hide TablesOf, NamesOf, GoodGrammar, StepsOf;
    HasMeans(p, g, t, chart, kept, c, i, j);
    if d > 0 {
      if p.names[c].Some? {
        NamedTree(g, p, t, c, i, j);
      } else {
        NameStops(g, t, p.names, c);
        var l := p.enders[p.steps[c - 1]];
        EnderExactly(p, g, t, chart, kept, d - 1, c, i, j, l, []);
        var r := p.EnderTrees(d - 1, c, i, j, l, []);
        if r.Some? {
          assert forall tree :: tree in r.value <==> exists e :: e in l && JoinsAny(g, p, tree, c, i, j, e);
          forall tree ensures tree in r.value <==> PartTree(g, p, tree, c, i, j) {
            PartExactly(p, g, t, chart, kept, tree, c, i, j);
          }
        }
      }
    }
  }

  /** The one tree of a token's item or of a rule's first item. */
  lemma NamedTree(g: Grammar, p: Parse, t: Tables, c: nat, i: nat, j: nat)
    requires TablesOf(g, t) && NamesOf(g, p.names) && c < |p.names| && p.names[c].Some? && Means(g, c, i, j)
    requires c < g.n ==> i < |p.words|
    ensures forall tree :: PartTree(g, p, tree, c, i, j)
              <==> tree == if c < g.n then Leaf(p.names[c].value, p.words[i]) else Node(p.names[c].value, [])
  {
    if c >= g.n {
      StartTree(g, p, t, c, i, j);
    } else {
      hide Base, Means, TablesOf;
      MeansToken(g, c, i, j);
    }
  }

  lemma MeansToken(g: Grammar, c: nat, i: nat, j: nat)
    requires c < g.n && Means(g, c, i, j)
    ensures j == i + 1 && i < |g.toks| && c in g.toks[i]
  {
  }

  lemma StartTree(g: Grammar, p: Parse, t: Tables, c: nat, i: nat, j: nat)
    requires TablesOf(g, t) && NamesOf(g, p.names) && g.n <= c < |p.names| && p.names[c].Some? && Means(g, c, i, j)
    ensures forall tree :: PartTree(g, p, tree, c, i, j) <==> tree == Node(p.names[c].value, [])
  {
    hide TablesOf, Base, DerivesSeq, Reach;
    var k: nat :| k < |g.rules| && IsItem(g, c, k, 0);
    var k': nat, m: nat, d: nat, r: nat :| Before(g, c, k', m, i, j, d, r);
    ItemUnique(g, c, k, 0, k', m);
    EmptyDerives(g, g.rules[k].rhs[..0], i, j, d);
    var only := Node(p.names[c].value, []);
    assert Begun(g, p, only, c, k, 0) && KidTrees(g, p, [], g.rules[k].rhs[..0], i, j);
    forall tree | PartTree(g, p, tree, c, i, j) ensures tree == only {
      OnlyStart(g, p, tree, c, k, i, j);
    }
  }

  lemma OnlyStart(g: Grammar, p: Parse, tree: Tree, c: nat, k: nat, i: nat, j: nat)
    requires |p.names| == Base(g, |g.rules|) && c >= g.n && IsItem(g, c, k, 0) && PartTree(g, p, tree, c, i, j)
      && c < |p.names|
    ensures p.names[c].Some? && tree == Node(p.names[c].value, [])
  {
    hide Base;
    var k': nat, m: nat :| Begun(g, p, tree, c, k', m) && KidTrees(g, p, tree.kids, g.rules[k'].rhs[..m], i, j);
    ItemUnique(g, c, k, 0, k', m);
    KidsLength(g, p, tree.kids, g.rules[k'].rhs[..m], i, j);
  }

  /** The trees of an unnamed item are the ones with one more kid. */
  lemma PartExactly(p: Parse, g: Grammar, t: Tables, chart: ItemSets, kept: ItemSets, tree: Tree, c: nat, i: nat,
    j: nat)
    requires ParseOf(p, g, t, chart, kept) && TablesOf(g, t) && p.steps == t.steps && p.enders == t.enders && p.n == g.n
    requires |p.names| == Base(g, |g.rules|) && p.Has(c, i, j)
    requires g.n <= c < |t.steps| && c > 0 && 0 <= t.steps[c - 1] < g.n && |t.enders| == g.n
    ensures PartTree(g, p, tree, c, i, j)
      <==> exists e :: e in p.enders[p.steps[c - 1]] && JoinsAny(g, p, tree, c, i, j, e)
  {
    hide ParseOf, PartTree, Base, Joins, Parse.Has, TablesOf;
    if PartTree(g, p, tree, c, i, j) {
      var e, k := PartIsJoin(p, g, t, chart, kept, tree, c, i, j);
      EnderCompletes(g, t, c - 1, e);
      assert JoinsAny(g, p, tree, c, i, j, e);
    }
    if e :| e in p.enders[p.steps[c - 1]] && JoinsAny(g, p, tree, c, i, j, e) {
      var k :| Joins(g, p, tree, c, i, j, e, k);
      EnderCompletes(g, t, c - 1, e);
      assert k >= 0 by { JoinsFrom(g, p, tree, c, i, j, e, k); }
      JoinIsPart(g, t, p, tree, c, i, j, e, k);
    }
  }

  ghost predicate JoinsAny(g: Grammar, p: Parse, tree: Tree, c: int, i: int, j: int, e: int)
    requires |p.names| == Base(g, |g.rules|)
  {
    exists k :: Joins(g, p, tree, c, i, j, e, k)
  }

  lemma JoinsFrom(g: Grammar, p: Parse, tree: Tree, c: int, i: int, j: int, e: int, k: int)
    requires |p.names| == Base(g, |g.rules|) && Joins(g, p, tree, c, i, j, e, k)
    ensures 0 <= i <= k <= j && p.Has(e, k, j) && p.Has(c - 1, i, k)
  {
  }

  lemma {:induction false} EnderExactly(p: Parse, g: Grammar, t: Tables, chart: ItemSets, kept: ItemSets, d: nat,
    c: int, i: nat, j: nat,
                                        l: seq<int>, acc: seq<Tree>)
    requires ParseOf(p, g, t, chart, kept) && p.Valid() && |p.names| == Base(g, |g.rules|) && c > 0 && j < |p.sets|
    ensures var r := p.EnderTrees(d, c, i, j, l, acc);
      r.Some? ==> forall tree :: tree in r.value <==> tree in acc || exists e :: e in l && JoinsAny(g, p, tree, c, i, j, e)
    decreases d, 2, |l|
  {
    hide ParseOf, Base, Joins, Parse.Valid, Parse.OriginTrees;
    if l != [] {
      assert l == [l[0]] + l[1..];
      if l[0] in p.sets[j] {
        var ks := p.sets[j][l[0]];
        OriginExactly(p, g, t, chart, kept, d, c, i, j, l[0], ks, acc);
        AnyListed(g, p, c, i, j, l[0]);
        var r := p.OriginTrees(d, c, i, j, l[0], ks, acc);
        if r.Some? {
          EnderExactly(p, g, t, chart, kept, d, c, i, j, l[1..], r.value);
        }
      } else {
        NoneListed(g, p, c, i, j, l[0]);
        EnderExactly(p, g, t, chart, kept, d, c, i, j, l[1..], acc);
      }
    }
  }

  lemma AnyListed(g: Grammar, p: Parse, c: int, i: int, j: int, e: int)
    requires |p.names| == Base(g, |g.rules|) && 0 <= j < |p.sets| && e in p.sets[j]
    ensures forall tree :: JoinsAny(g, p, tree, c, i, j, e) <==> JoinsSome(g, p, tree, c, i, j, e, p.sets[j][e])
  {
    hide Base, Joined;
    forall tree, k | Joins(g, p, tree, c, i, j, e, k) ensures k in p.sets[j][e] {
      JoinsFrom(g, p, tree, c, i, j, e, k);
    }
  }

  lemma NoneListed(g: Grammar, p: Parse, c: int, i: int, j: int, e: int)
    requires |p.names| == Base(g, |g.rules|) && 0 <= j < |p.sets| && e !in p.sets[j]
    ensures forall tree :: !JoinsAny(g, p, tree, c, i, j, e)
  {
    hide Base, Joined;
  }

  lemma {:induction false} OriginExactly(p: Parse, g: Grammar, t: Tables, chart: ItemSets, kept: ItemSets, d: nat,
    c: int, i: nat, j: nat,
                                         e: int, ks: seq<int>, acc: seq<Tree>)
    requires ParseOf(p, g, t, chart, kept) && p.Valid() && |p.names| == Base(g, |g.rules|) && c > 0 && j < |p.sets|
    requires forall k :: k in ks ==> p.Has(e, k, j)
    ensures var r := p.OriginTrees(d, c, i, j, e, ks, acc);
      r.Some? ==> forall tree :: tree in r.value <==> tree in acc || JoinsSome(g, p, tree, c, i, j, e, ks)
    decreases d, 1, |ks|
  {
    hide ParseOf, Base, Joins, Parse.Valid, Parse.Trees, PartTree, Lists, Pairs, JoinsSome, Parse.Has;
    if ks == [] {
      NoOrigins(g, p, c, i, j, e);
    } else {
      var k := ks[0];
      assert k in ks;
      OneOrigin(g, p, c, i, j, e, ks);
      HasFits(p, g, t, chart, kept, e, k, j);
      if k >= i && p.Has(c - 1, i, k) {
        TreesExactly(p, g, t, chart, kept, d, c - 1, i, k);
        TreesExactly(p, g, t, chart, kept, d, e, k, j);
        var prev, last := p.Trees(d, c - 1, i, k), p.Trees(d, e, k, j);
        if prev.Some? && last.Some? {
          forall tree ensures tree in Combined(last.value, prev.value, acc) <==> tree in acc || Joins(g, p, tree, c, i, j, e, k) {
            CombinedMembers(last.value, prev.value, acc, tree);
            JoinsByLists(g, p, prev.value, last.value, tree, c, i, j, e, k);
          }
          OriginExactly(p, g, t, chart, kept, d, c, i, j, e, ks[1..], Combined(last.value, prev.value, acc));
        }
      } else {
        NoJoin(g, p, c, i, j, e, k);
        OriginExactly(p, g, t, chart, kept, d, c, i, j, e, ks[1..], acc);
      }
    }
  }

  lemma NoOrigins(g: Grammar, p: Parse, c: int, i: int, j: int, e: int)
    requires |p.names| == Base(g, |g.rules|)
    ensures forall tree :: !JoinsSome(g, p, tree, c, i, j, e, [])
  {
  }

  lemma OneOrigin(g: Grammar, p: Parse, c: int, i: int, j: int, e: int, ks: seq<int>)
    requires |p.names| == Base(g, |g.rules|) && ks != []
    ensures forall tree :: JoinsSome(g, p, tree, c, i, j, e, ks) <==> Joins(g, p, tree, c, i, j, e, ks[0]) || JoinsSome(g, p, tree, c, i, j, e, ks[1..])
  {
    hide Joins, Base;
    assert ks == [ks[0]] + ks[1..];
  }

  lemma NoJoin(g: Grammar, p: Parse, c: int, i: int, j: int, e: int, k: int)
    requires |p.names| == Base(g, |g.rules|) && !(k >= i && p.Has(c - 1, i, k))
    ensures forall tree :: !Joins(g, p, tree, c, i, j, e, k)
  {
    hide Base, Joined;
  }

  // ----- all the trees of a symbol ------------------------------------------------------------------------------

  ghost predicate SomeItem(g: Grammar, p: Parse, tree: Tree, l: seq<int>, i: nat, j: nat)
    requires |p.names| == Base(g, |g.rules|)
  {
    exists e :: e in l && p.Has(e, i, j) && PartTree(g, p, tree, e, i, j)
  }

  lemma {:induction false} ListExactly(p: Parse, g: Grammar, t: Tables, chart: ItemSets, kept: ItemSets, d: nat,
    l: seq<int>, i: nat, j: nat,
                                       acc: seq<Tree>)
    requires ParseOf(p, g, t, chart, kept) && p.Valid() && |p.names| == Base(g, |g.rules|)
    requires i <= j && p.Confs(l)
    ensures var r := p.ListTrees(d, l, i, j, acc);
      r.Some? ==> forall tree :: tree in r.value <==> tree in acc || SomeItem(g, p, tree, l, i, j)
    decreases |l|
  {
    hide ParseOf, Parse.Valid, PartTree, Base, Parse.Has, Parse.Trees;
    if l != [] {
      assert l == [l[0]] + l[1..];
      if p.Has(l[0], i, j) {
        TreesExactly(p, g, t, chart, kept, d, l[0], i, j);
        var r := p.Trees(d, l[0], i, j);
        if r.Some? {
          ListExactly(p, g, t, chart, kept, d, l[1..], i, j, r.value + acc);
        }
      } else {
        ListExactly(p, g, t, chart, kept, d, l[1..], i, j, acc);
      }
    }
  }

  lemma EndersAreConfs(p: Parse, x: nat)
    requires p.Valid() && x < p.n
    ensures x < |p.enders| && p.Confs(p.enders[x])
  {
    hide Parse.Has, Parse.NamesFit;
    forall a | 0 <= a < |p.enders[x]| ensures 0 <= p.enders[x][a] < |p.steps| {
      assert p.enders[x][a] in p.enders[x];
    }
  }
}
