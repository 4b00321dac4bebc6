/** A search that comes back to an item is one for endlessly many trees. */
module EarleyEndless {
  import opened EarleyGrammar
  import opened EarleyForward
  import opened EarleyPrune
  import opened EarleyTrees
  import opened EarleyForest
  import opened EarleyCycles

  function TreeSize(tree: Tree): (size: nat)
    ensures size > 0
    decreases tree
  {
    match tree
    case Leaf(_, _) => 1
    case Node(_, kids) => 1 + KidsSize(kids)
  }

  function KidsSize(kids: seq<Tree>): nat
    decreases kids
  {
    if kids == [] then 0 else KidsSize(kids[..|kids| - 1]) + TreeSize(kids[|kids| - 1])
  }

  lemma WithKidSize(tree: Tree, kid: Tree)
    requires tree.Node?
    ensures TreeSize(WithKid(tree, kid)) == TreeSize(tree) + TreeSize(kid)
  {
    var kids := tree.kids + [kid];
    assert kids[..|kids| - 1] == tree.kids;
  }

  // ----- what is derived has a tree ------------------------------------------------------------------------

  lemma {:induction false} SymHasTree(g: Grammar, p: Parse, x: nat, i: nat, j: nat, d: nat) returns (tree: Tree)
    requires NamesOf(g, p.names) && |p.words| == |g.toks| && DerivesSym(g, x, i, j, d)
    ensures |p.names| == Base(g, |g.rules|) && SymTree(g, p, tree, x, i, j)
    decreases d, 0
  {
    var k := SymCase(g, x, i, j, d);
    if k == |g.rules| {
      tree := Leaf(Name(x, 0), p.words[i]);
    } else {
      var kids := SeqHasKids(g, p, g.rules[k].rhs, i, j, d - 1);
      var name := RuleName(g, p, k);
      tree := Node(name, kids);
    }
  }

  lemma {:induction false} SeqHasKids(g: Grammar, p: Parse, xs: seq<nat>, i: nat, j: nat, d: nat)
    returns (kids: seq<Tree>)
    requires NamesOf(g, p.names) && |p.words| == |g.toks| && DerivesSeq(g, xs, i, j, d)
    ensures |p.names| == Base(g, |g.rules|) && KidTrees(g, p, kids, xs, i, j)
    decreases d, 1 + |xs|
  {
    kids := [];
    if xs == [] {
      EmptyDerives(g, xs, i, j, d);
    } else {
      hide NamesOf, DerivesSeq, DerivesSym, SymTree, KidTrees, Base;
      var h := SeqCase(g, xs, i, j, d);
      var first := SeqHasKids(g, p, xs[..|xs| - 1], i, h, d);
      var last := SymHasTree(g, p, xs[|xs| - 1], h, j, d);
      assert xs[..|xs| - 1 + 1] == xs;
      KidsJoin(g, p, first, last, xs, |xs| - 1, i, h, j);
      kids := first + [last];
    }
  }

  lemma RuleName(g: Grammar, p: Parse, k: nat) returns (name: Name)
    requires NamesOf(g, p.names) && k < |g.rules|
    ensures |p.names| == Base(g, |g.rules|) && Heads(g, p, k, g.rules[k].head, name)
  {
    hide Base;
    BaseBelow(g, k);
    assert IsItem(g, Base(g, k), k, 0);
    name := p.names[Base(g, k)].value;
  }

  /** Every item of the parse stands for a tree. */
  lemma ItemHasTree(p: Parse, g: Grammar, t: Tables, chart: ItemSets, kept: ItemSets, c: int, i: int, j: int)
    returns (tree: Tree)
    requires ParseOf(p, g, t, chart, kept) && p.Has(c, i, j)
    ensures 0 <= i <= j && |p.names| == Base(g, |g.rules|) && PartTree(g, p, tree, c, i, j)
  {
    hide TablesOf, Closed, IsPruned, Parse.Has, Base, DerivesSeq, Reach, SymTree, KidTrees, Sound;
    HasMeans(p, g, t, chart, kept, c, i, j);
    if c < g.n {
      tree := Leaf(Name(c, 0), p.words[i]);
      TokenTree(g, p, c, i);
    } else {
      var k: nat, m: nat, d: nat, r: nat :| Before(g, c, k, m, i, j, d, r);
      var kids := SeqHasKids(g, p, g.rules[k].rhs[..m], i, j, d);
      var name := RuleName(g, p, k);
      tree := Node(name, kids);
      assert Begun(g, p, tree, c, k, m);
    }
  }

  lemma TokenTree(g: Grammar, p: Parse, x: nat, i: nat)
    requires |p.names| == Base(g, |g.rules|) && i < |g.toks| == |p.words| && x in g.toks[i]
    ensures SymTree(g, p, Leaf(Name(x, 0), p.words[i]), x, i, i + 1)
  {
  }

  // ----- each request makes a larger tree --------------------------------------------------------------------

  /** Item a of the parse stands for the tree. */
  ghost predicate Stands(g: Grammar, p: Parse, tree: Tree, a: Item)
    requires |p.names| == Base(g, |g.rules|)
  {
    0 <= a.origin <= a.state && PartTree(g, p, tree, a.conf, a.origin, a.state)
  }

  lemma AskedGrows(p: Parse, g: Grammar, t: Tables, chart: ItemSets, kept: ItemSets, a: Item, b: Item, tree: Tree)
    returns (larger: Tree)
    requires ParseOf(p, g, t, chart, kept) && p.Valid() && |p.names| == Base(g, |g.rules|)
    requires Asks(p, a, b) && Stands(g, p, tree, b)
    ensures Stands(g, p, larger, a) && TreeSize(larger) > TreeSize(tree)
  {
    hide ParseOf, PartTree, Base, Parse.Has, Parse.NamesFit;
    var e, k :| ComesUpon(p, a, e, k) && (b == Item(a.conf - 1, a.origin, k) || b == Item(e, k, a.state));
    HasMeans(p, g, t, chart, kept, a.conf, a.origin, a.state);
    HasMeans(p, g, t, chart, kept, e, k, a.state);
    var prev := ItemHasTree(p, g, t, chart, kept, a.conf - 1, a.origin, k);
    var last := ItemHasTree(p, g, t, chart, kept, e, k, a.state);
    if b == Item(a.conf - 1, a.origin, k) {
      prev := tree;
    } else {
      last := tree;
    }
    larger := WithKid(prev, last);
    assert Joined(g, p, larger, a.conf, a.origin, a.state, e, k, prev, last);
    UnnamedJoin(p, g, t, chart, kept, a, e, k, larger);
    UnnamedNode(p, g, t, chart, kept, a, prev, k);
    WithKidSize(prev, last);
  }

  lemma UnnamedJoin(p: Parse, g: Grammar, t: Tables, chart: ItemSets, kept: ItemSets, a: Item, e: int, k: nat,
    tree: Tree)
    requires ParseOf(p, g, t, chart, kept) && p.Valid() && |p.names| == Base(g, |g.rules|) && ComesUpon(p, a, e, k)
    requires 0 <= a.origin <= a.state && Joins(g, p, tree, a.conf, a.origin, a.state, e, k)
    ensures PartTree(g, p, tree, a.conf, a.origin, a.state)
  {
    hide PartTree, Base, Parse.Has, Joins, TablesOf, NamesOf, Closed, IsPruned, Sound;
    NameStopsHere(p, a.conf);
    EnderCompletes(g, t, a.conf - 1, e);
    JoinIsPart(g, t, p, tree, a.conf, a.origin, a.state, e, k);
  }

  lemma NameStopsHere(p: Parse, c: int)
    requires p.Valid() && 0 <= c < |p.names| && p.names[c] == None && p.Fits(c, 0, 0)
    ensures c >= p.n && c > 0 && 0 <= p.steps[c - 1] < p.n && c < |p.steps|
  {
    hide Parse.Has;
  }

  lemma UnnamedNode(p: Parse, g: Grammar, t: Tables, chart: ItemSets, kept: ItemSets, a: Item, prev: Tree, k: nat)
    requires ParseOf(p, g, t, chart, kept) && p.Valid() && |p.names| == Base(g, |g.rules|) && In(p, a)
    requires p.Fits(a.conf, a.origin, a.state) && p.names[a.conf] == None && a.origin >= 0
    requires PartTree(g, p, prev, a.conf - 1, a.origin, k)
    ensures prev.Node?
  {
    hide Base, Parse.Has, NamesOf, Closed, IsPruned, Sound, SymTree, KidTrees;
    NameStopsHere(p, a.conf);
    BelowNegative(g, t.steps, a.conf - 1);
  }

  lemma {:induction false} LeadsGrow(p: Parse, g: Grammar, t: Tables, chart: ItemSets, kept: ItemSets, a: Item, b: Item,
    n: nat, tree: Tree)
    returns (larger: Tree)
    requires ParseOf(p, g, t, chart, kept) && p.Valid() && |p.names| == Base(g, |g.rules|)
    requires Leads(p, a, b, n) && Stands(g, p, tree, b)
    ensures Stands(g, p, larger, a) && TreeSize(larger) >= TreeSize(tree) + n
    decreases n
  {
    hide ParseOf, Parse.Valid, Asks, Base, Stands;
    if n == 0 {
      larger := tree;
    } else {
      var m :| Asks(p, a, m) && Leads(p, m, b, n - 1);
      var middle := LeadsGrow(p, g, t, chart, kept, m, b, n - 1, tree);
      larger := AskedGrows(p, g, t, chart, kept, a, m, middle);
    }
  }

  /** An item whose search reaches a cycle stands for trees of any size. */
  lemma CyclicGrows(p: Parse, g: Grammar, t: Tables, chart: ItemSets, kept: ItemSets, a: Item, size: nat)
    returns (tree: Tree)
    requires ParseOf(p, g, t, chart, kept) && p.Valid() && |p.names| == Base(g, |g.rules|)
    requires In(p, a) && Cyclic(p, a)
    ensures Stands(g, p, tree, a) && TreeSize(tree) > size
  {
    hide ParseOf, Parse.Valid, Asks, Base, Leads, PartTree;
    var b :| (b == a || Reaches(p, a, b)) && Reaches(p, b, b);
    var n: nat :| n > 0 && Leads(p, b, b, n);
    LeadsIn(p, b, b, n);
    var small := ItemHasTree(p, g, t, chart, kept, b.conf, b.origin, b.state);
    var m := LeadsRound(p, b, n, size);
    tree := LeadsGrow(p, g, t, chart, kept, b, b, m, small);
    if b != a {
      var n': nat :| n' > 0 && Leads(p, a, b, n');
      tree := LeadsGrow(p, g, t, chart, kept, a, b, n', tree);
    }
  }

  lemma LeadsIn(p: Parse, a: Item, b: Item, n: nat)
    requires p.Valid() && n > 0 && Leads(p, a, b, n)
    ensures In(p, a)
  {
    hide Parse.Valid;
    var m :| Asks(p, a, m) && Leads(p, m, b, n - 1);
    AsksIn(p, a, m);
  }
}
