/** If no two rules have one name, deriv_trees lists every tree once. */
module EarleyOnce {
  import opened EarleyGrammar
  import opened EarleyForward
  import opened EarleyPrune
  import opened EarleyTrees
  import opened EarleyForest

  /** No two rules have the same name. */
  ghost predicate NamesDiffer(g: Grammar, names: seq<Option<Name>>) {
    && |names| == Base(g, |g.rules|)
    && forall k: nat, k': nat :: SameName(g, names, k, k') ==> k == k'
  }

  ghost predicate SameName(g: Grammar, names: seq<Option<Name>>, k: nat, k': nat) {
    && k < |g.rules| && k' < |g.rules| && Base(g, k) < |names| && Base(g, k') < |names|
    && names[Base(g, k)] == names[Base(g, k')]
  }

  /** No list of finished confs and no conf set has an element twice. */
  ghost predicate ListedOnce(p: Parse) {
    && (forall x :: 0 <= x < |p.enders| ==> NoRepeats(p.enders[x]))
    && (forall j, c :: 0 <= j < |p.sets| && c in p.sets[j] ==> NoRepeats(p.sets[j][c]))
  }

  /** A parse of a grammar whose rules have different names. */
  ghost predicate Named(p: Parse, g: Grammar, t: Tables, chart: ItemSets, kept: ItemSets) {
    ParseOf(p, g, t, chart, kept) && p.Valid() && NamesDiffer(g, p.names) && ListedOnce(p)
  }

  // ----- a tree says how many tokens it covers ---------------------------------------------------------------

  function Leaves(tree: Tree): nat
    decreases tree
  {
    match tree
    case Leaf(_, _) => 1
    case Node(_, kids) => KidsLeaves(kids)
  }

  function KidsLeaves(kids: seq<Tree>): nat
    decreases kids
  {
    if kids == [] then 0 else KidsLeaves(kids[..|kids| - 1]) + Leaves(kids[|kids| - 1])
  }

  lemma {:induction false} SymSpan(g: Grammar, p: Parse, tree: Tree, x: nat, i: nat, j: nat)
    requires |p.names| == Base(g, |g.rules|) && SymTree(g, p, tree, x, i, j)
    ensures j == i + Leaves(tree)
    decreases tree
  {
    if tree.Node? {
      var k: nat :| Heads(g, p, k, x, tree.name) && KidTrees(g, p, tree.kids, g.rules[k].rhs, i, j);
      KidsSpan(g, p, tree.kids, g.rules[k].rhs, i, j);
    }
  }

  lemma {:induction false} KidsSpan(g: Grammar, p: Parse, kids: seq<Tree>, xs: seq<nat>, i: nat, j: nat)
    requires |p.names| == Base(g, |g.rules|) && KidTrees(g, p, kids, xs, i, j)
    ensures j == i + KidsLeaves(kids)
    decreases kids
  {
    if kids != [] {
      hide Base, SymTree;
      var h := KidsSplit(g, p, kids, xs, i, j);
      KidsSpan(g, p, kids[..|kids| - 1], xs[..|xs| - 1], i, h);
      SymSpan(g, p, kids[|kids| - 1], xs[|xs| - 1], h, j);
    }
  }

  lemma PartSpan(g: Grammar, p: Parse, tree: Tree, c: int, i: nat, j: nat)
    requires |p.names| == Base(g, |g.rules|) && PartTree(g, p, tree, c, i, j)
    ensures j == i + Leaves(tree)
  {
    hide Base, SymTree, KidTrees;
    if c < g.n {
      SymSpan(g, p, tree, c, i, j);
    } else {
      var k: nat, m: nat :| Begun(g, p, tree, c, k, m) && KidTrees(g, p, tree.kids, g.rules[k].rhs[..m], i, j);
      KidsSpan(g, p, tree.kids, g.rules[k].rhs[..m], i, j);
    }
  }

  /** A tree says which conf it belongs to. */
  lemma PartConf(g: Grammar, p: Parse, tree: Tree, c: int, i: nat, j: nat, c': int, i': nat, j': nat)
    requires NamesDiffer(g, p.names) && PartTree(g, p, tree, c, i, j) && PartTree(g, p, tree, c', i', j')
    ensures c == c'
  {
    hide Base, KidTrees;
    if tree.Node? {
      var k: nat, m: nat :| Begun(g, p, tree, c, k, m) && KidTrees(g, p, tree.kids, g.rules[k].rhs[..m], i, j);
      var k': nat, m': nat :| Begun(g, p, tree, c', k', m') && KidTrees(g, p, tree.kids, g.rules[k'].rhs[..m'], i', j');
      assert SameName(g, p.names, k, k');
      KidsLength(g, p, tree.kids, g.rules[k].rhs[..m], i, j);
      KidsLength(g, p, tree.kids, g.rules[k'].rhs[..m'], i', j');
    }
  }

  /** A tree is joined of its parts in one way. */
  lemma JoinOnce(p: Parse, g: Grammar, t: Tables, chart: ItemSets, kept: ItemSets, tree: Tree, c: int, i: int, j: int,
    e: int, k: int, e': int, k': int)
    requires Named(p, g, t, chart, kept) && c > g.n
    requires |p.names| == Base(g, |g.rules|) && Joins(g, p, tree, c, i, j, e, k) && Joins(g, p, tree, c, i, j, e', k')
    ensures e == e' && k == k'
  {
    hide ParseOf, Parse.Valid, PartTree, Base, NamesDiffer, ListedOnce, Parse.Has;
    var a, b :| Joined(g, p, tree, c, i, j, e, k, a, b);
    var a', b' :| Joined(g, p, tree, c, i, j, e', k', a', b');
    NodeOf(g, p, a, c - 1, i, k);
    NodeOf(g, p, a', c - 1, i, k');
    KidOnce(a, b, a', b');
    PartConf(g, p, b, e, k, j, e', k', j);
    PartSpan(g, p, a, c - 1, i, k);
    PartSpan(g, p, a, c - 1, i, k');
  }

  lemma NodeOf(g: Grammar, p: Parse, tree: Tree, c: int, i: nat, j: nat)
    requires |p.names| == Base(g, |g.rules|) && PartTree(g, p, tree, c, i, j)
    ensures c >= g.n ==> tree.Node?
  {
  }

  lemma KidOnce(a: Tree, b: Tree, a': Tree, b': Tree)
    requires a.Node? && a'.Node? && WithKid(a, b) == WithKid(a', b')
    ensures a == a' && b == b'
  {
    var s, s' := a.kids + [b], a'.kids + [b'];
    assert s == s' && s[..|s| - 1] == a.kids && s'[..|s'| - 1] == a'.kids;
    assert s[|s| - 1] == b && s'[|s'| - 1] == b';
  }

  // ----- lists without repeats ----------------------------------------------------------------------------------

  lemma RestOnce<T>(s: seq<T>)
    requires NoRepeats(s) && s != []
    ensures NoRepeats(s[1..]) && s[0] !in s[1..]
  {
  }

  lemma {:induction false} ExtendedOnce(prev: seq<Tree>, last: Tree, acc: seq<Tree>)
    requires NoRepeats(prev) && NoRepeats(acc) && forall a :: a in prev ==> a.Node? && WithKid(a, last) !in acc
    ensures NoRepeats(Extended(prev, last, acc))
    decreases |prev|
  {
    if prev != [] {
      RestOnce(prev);
      assert prev[0] in prev && forall a :: a in prev[1..] ==> a in prev;
      FrontOnce(WithKid(prev[0], last), acc);
      forall a | a in prev[1..] ensures WithKid(a, last) !in [WithKid(prev[0], last)] + acc {
        if WithKid(a, last) == WithKid(prev[0], last) {
          KidOnce(a, last, prev[0], last);
        }
      }
      ExtendedOnce(prev[1..], last, [WithKid(prev[0], last)] + acc);
    }
  }

  lemma {:induction false} CombinedOnce(last: seq<Tree>, prev: seq<Tree>, acc: seq<Tree>)
    requires NoRepeats(prev) && NoRepeats(last) && NoRepeats(acc) && forall a :: a in prev ==> a.Node?
    requires forall a, b :: a in prev && b in last ==> WithKid(a, b) !in acc
    ensures NoRepeats(Combined(last, prev, acc))
    decreases |last|
  {
    if last != [] {
      RestOnce(last);
      assert last[0] in last && forall b :: b in last[1..] ==> b in last;
      ExtendedOnce(prev, last[0], acc);
      forall a, b | a in prev && b in last[1..] ensures WithKid(a, b) !in Extended(prev, last[0], acc) {
        ExtendedMembers(prev, last[0], acc, WithKid(a, b));
        if a' :| a' in prev && WithKid(a, b) == WithKid(a', last[0]) {
          KidOnce(a, b, a', last[0]);
        }
      }
      CombinedOnce(last[1..], prev, Extended(prev, last[0], acc));
    }
  }

  // ----- the lists of deriv_trees ----------------------------------------------------------------------------------

  ghost predicate OnceIfAny(trees: Option<seq<Tree>>) {
    trees.Some? ==> NoRepeats(trees.value)
  }

  lemma {:induction false} TreesOnce(p: Parse, g: Grammar, t: Tables, chart: ItemSets, kept: ItemSets, d: nat, c: int,
    i: nat, j: nat)
    requires Named(p, g, t, chart, kept) && p.Valid() && p.Has(c, i, j)
    ensures OnceIfAny(p.Trees(d, c, i, j))
    decreases d, 0, 0
  {
    hide Named, ParseOf, Parse.EnderTrees, Parse.Valid, Parse.Has, NoRepeats, Base;
    NamedParse(p, g, t, chart, kept);
    HasFits(p, g, t, chart, kept, c, i, j);
    if d > 0 {
      if p.names[c].Some? {
        NamedOnce(p, d, c, i, j);
      } else {
        UnnamedAfter(p, g, t, chart, kept, c, i, j);
        EnderOnce(p, g, t, chart, kept, d - 1, c, i, j, p.enders[p.steps[c - 1]], []);
      }
    }
  }

  lemma NamedParse(p: Parse, g: Grammar, t: Tables, chart: ItemSets, kept: ItemSets)
    requires Named(p, g, t, chart, kept)
    ensures ParseOf(p, g, t, chart, kept) && p.Valid() && |p.names| == |p.steps| == Base(g, |g.rules|)
  {
    hide ParseOf, NamesDiffer, ListedOnce, Parse.Valid;
    ParseSizes(p, g, t, chart, kept);
  }

  lemma NamedOnce(p: Parse, d: nat, c: int, i: int, j: int)
    requires p.Valid() && p.Has(c, i, j) && 0 <= c < |p.names| && p.names[c].Some? && d > 0
    ensures OnceIfAny(p.Trees(d, c, i, j))
  {
  }

  lemma UnnamedAfter(p: Parse, g: Grammar, t: Tables, chart: ItemSets, kept: ItemSets, c: int, i: nat, j: nat)
    requires Named(p, g, t, chart, kept) && p.Has(c, i, j)
    requires 0 <= c < |p.names| == Base(g, |g.rules|) && p.names[c] == None
    ensures c > g.n && c <= |p.steps| && 0 <= p.steps[c - 1] < |p.enders| && j < |p.sets|
    ensures NoRepeats(p.enders[p.steps[c - 1]]) && NoRepeats<Tree>([])
    ensures NotJoined(g, p, c, i, j, p.enders[p.steps[c - 1]], [])
  {
    hide TablesOf, Closed, IsPruned, Sound, NamesOf, Parse.Has, Base, NamesDiffer, NoRepeats, ParseOf;
    HasMeans(p, g, t, chart, kept, c, i, j);
    TablesHold(p, g, t, chart, kept);
    ParseSizes(p, g, t, chart, kept);
    assert p.Fits(c, i, j);
    NothingOnce<Tree>();
  }

  lemma NothingOnce<T>()
    ensures NoRepeats<T>([])
  {
  }

  /** No tree of acc is joined with a finished item of the list. */
  ghost predicate NotJoined(g: Grammar, p: Parse, c: int, i: int, j: int, l: seq<int>, acc: seq<Tree>)
    requires |p.names| == Base(g, |g.rules|)
  {
    forall tree, e :: tree in acc && e in l ==> !JoinsAny(g, p, tree, c, i, j, e)
  }

  /** No tree of acc is joined with conf e at an origin of the list. */
  ghost predicate NotJoinedAt(g: Grammar, p: Parse, c: int, i: int, j: int, e: int, ks: seq<int>, acc: seq<Tree>)
    requires |p.names| == Base(g, |g.rules|)
  {
    forall tree, k :: tree in acc && k in ks ==> !Joins(g, p, tree, c, i, j, e, k)
  }

  lemma {:induction false} EnderOnce(p: Parse, g: Grammar, t: Tables, chart: ItemSets, kept: ItemSets, d: nat, c: int,
    i: nat, j: nat, l: seq<int>, acc: seq<Tree>)
    requires Named(p, g, t, chart, kept) && |p.names| == Base(g, |g.rules|) && c > g.n && j < |p.sets|
    requires NoRepeats(l) && NoRepeats(acc) && NotJoined(g, p, c, i, j, l, acc)
    ensures OnceIfAny(p.EnderTrees(d, c, i, j, l, acc))
    decreases d, 2, |l|
  {
    hide ParseOf, Base, JoinsAny, Parse.Valid, Parse.OriginTrees, NamesDiffer, NoRepeats;
    if l != [] {
      RestOnce(l);
      assert l[0] in l && forall e :: e in l[1..] ==> e in l;
      if l[0] in p.sets[j] {
        var ks := p.sets[j][l[0]];
        NotJoinedHere(g, p, c, i, j, l, acc);
        OriginOnce(p, g, t, chart, kept, d, c, i, j, l[0], ks, acc);
        var r := p.OriginTrees(d, c, i, j, l[0], ks, acc);
        if r.Some? {
          OriginExactly(p, g, t, chart, kept, d, c, i, j, l[0], ks, acc);
          StillNotJoined(p, g, t, chart, kept, c, i, j, l, acc, r.value);
          EnderOnce(p, g, t, chart, kept, d, c, i, j, l[1..], r.value);
        }
      } else {
        EnderOnce(p, g, t, chart, kept, d, c, i, j, l[1..], acc);
      }
    }
  }

  lemma NotJoinedHere(g: Grammar, p: Parse, c: int, i: int, j: nat, l: seq<int>, acc: seq<Tree>)
    requires |p.names| == Base(g, |g.rules|) && NotJoined(g, p, c, i, j, l, acc) && l != [] && j < |p.sets|
    ensures forall tree, k :: tree in acc ==> !Joins(g, p, tree, c, i, j, l[0], k)
  {
    hide Joins;
    forall tree, k | tree in acc ensures !Joins(g, p, tree, c, i, j, l[0], k) {
      assert l[0] in l && !JoinsAny(g, p, tree, c, i, j, l[0]);
    }
  }

  lemma StillNotJoined(p: Parse, g: Grammar, t: Tables, chart: ItemSets, kept: ItemSets, c: int, i: nat, j: nat,
    l: seq<int>, acc: seq<Tree>, r: seq<Tree>)
    requires Named(p, g, t, chart, kept) && |p.names| == Base(g, |g.rules|) && c > g.n && j < |p.sets|
    requires NotJoined(g, p, c, i, j, l, acc) && l != [] && NoRepeats(l) && l[0] in p.sets[j]
    requires forall tree :: tree in r <==> tree in acc || JoinsSome(g, p, tree, c, i, j, l[0], p.sets[j][l[0]])
    ensures NotJoined(g, p, c, i, j, l[1..], r)
  {
    hide Named, Joins;
    forall tree, e | tree in r && e in l[1..] ensures !JoinsAny(g, p, tree, c, i, j, e) {
      assert e in l;
      if JoinsAny(g, p, tree, c, i, j, e) {
        var k' :| Joins(g, p, tree, c, i, j, e, k');
        var k :| k in p.sets[j][l[0]] && Joins(g, p, tree, c, i, j, l[0], k);
        JoinOnce(p, g, t, chart, kept, tree, c, i, j, l[0], k, e, k');
      }
    }
  }

  lemma {:induction false} OriginOnce(p: Parse, g: Grammar, t: Tables, chart: ItemSets, kept: ItemSets, d: nat, c: int,
    i: nat, j: nat, e: int, ks: seq<int>, acc: seq<Tree>)
    requires Named(p, g, t, chart, kept) && |p.names| == Base(g, |g.rules|) && c > g.n && j < |p.sets|
    requires (forall k :: k in ks ==> p.Has(e, k, j)) && NoRepeats(ks) && NoRepeats(acc)
    requires NotJoinedAt(g, p, c, i, j, e, ks, acc)
    ensures OnceIfAny(p.OriginTrees(d, c, i, j, e, ks, acc))
    decreases d, 1, |ks|
  {
    hide ParseOf, Base, Joins, Parse.Valid, Parse.Trees, NamesDiffer, NoRepeats, Parse.Has, PartTree, ListedOnce;
    if ks != [] {
      var k := ks[0];
      RestOnce(ks);
      assert k in ks && forall x :: x in ks[1..] ==> x in ks;
      HasFits(p, g, t, chart, kept, e, k, j);
      if k >= i && p.Has(c - 1, i, k) {
        TreesOnce(p, g, t, chart, kept, d, c - 1, i, k);
        TreesOnce(p, g, t, chart, kept, d, e, k, j);
        var prev, last := p.Trees(d, c - 1, i, k), p.Trees(d, e, k, j);
        if prev.Some? && last.Some? {
          TreesExactly(p, g, t, chart, kept, d, c - 1, i, k);
          TreesExactly(p, g, t, chart, kept, d, e, k, j);
          OriginStep(p, g, t, chart, kept, prev.value, last.value, c, i, j, e, ks, acc);
          OriginOnce(p, g, t, chart, kept, d, c, i, j, e, ks[1..], Combined(last.value, prev.value, acc));
        }
      } else {
        OriginOnce(p, g, t, chart, kept, d, c, i, j, e, ks[1..], acc);
      }
    }
  }

  /** What is joined at the first origin is new. */
  lemma OriginStep(p: Parse, g: Grammar, t: Tables, chart: ItemSets, kept: ItemSets, prev: seq<Tree>, last: seq<Tree>,
    c: int, i: nat, j: nat, e: int, ks: seq<int>, acc: seq<Tree>)
    requires Named(p, g, t, chart, kept) && |p.names| == Base(g, |g.rules|) && c > g.n && ks != []
    requires i <= ks[0] <= j && p.Has(e, ks[0], j) && p.Has(c - 1, i, ks[0]) && ks[0] !in ks[1..]
    requires Lists(g, p, Some(prev), c - 1, i, ks[0]) && Lists(g, p, Some(last), e, ks[0], j)
    requires NoRepeats(prev) && NoRepeats(last) && NoRepeats(acc) && NotJoinedAt(g, p, c, i, j, e, ks, acc)
    ensures NoRepeats(Combined(last, prev, acc))
    ensures NotJoinedAt(g, p, c, i, j, e, ks[1..], Combined(last, prev, acc))
  {
    hide Named, Base, Joins, NoRepeats, Parse.Has, Pairs, Lists;
    var k := ks[0];
    assert k in ks && forall x :: x in ks[1..] ==> x in ks;
    forall tree ensures Pairs(tree, prev, last) <==> Joins(g, p, tree, c, i, j, e, k) {
      JoinsByLists(g, p, prev, last, tree, c, i, j, e, k);
    }
    AllNodes(g, p, prev, c - 1, i, k);
    PairsOnce(prev, last, acc);
    forall tree, x | tree in Combined(last, prev, acc) && x in ks[1..] ensures !Joins(g, p, tree, c, i, j, e, x) {
      CombinedMembers(last, prev, acc, tree);
      if tree !in acc && Joins(g, p, tree, c, i, j, e, x) {
        JoinOnce(p, g, t, chart, kept, tree, c, i, j, e, k, e, x);
      }
    }
  }

  lemma AllNodes(g: Grammar, p: Parse, trees: seq<Tree>, c: int, i: nat, j: nat)
    requires |p.names| == Base(g, |g.rules|) && Lists(g, p, Some(trees), c, i, j) && c >= g.n
    ensures forall a :: a in trees ==> a.Node?
  {
    hide PartTree, Base;
    forall a | a in trees ensures a.Node? {
      NodeOf(g, p, a, c, i, j);
    }
  }

  lemma PairsOnce(prev: seq<Tree>, last: seq<Tree>, acc: seq<Tree>)
    requires NoRepeats(prev) && NoRepeats(last) && NoRepeats(acc) && forall a :: a in prev ==> a.Node?
    requires forall tree :: tree in acc ==> !Pairs(tree, prev, last)
    ensures NoRepeats(Combined(last, prev, acc))
  {
    hide NoRepeats, Pairs;
    forall a, b | a in prev && b in last ensures WithKid(a, b) !in acc {
      IsPair(a, b, prev, last);
    }
    CombinedOnce(last, prev, acc);
  }

  lemma IsPair(a: Tree, b: Tree, prev: seq<Tree>, last: seq<Tree>)
    requires a in prev && b in last
    ensures Pairs(WithKid(a, b), prev, last)
  {
  }

  /** deriv_trees* lists no tree twice. */
  lemma {:induction false} ListOnce(p: Parse, g: Grammar, t: Tables, chart: ItemSets, kept: ItemSets, d: nat,
    l: seq<int>, i: nat, j: nat, acc: seq<Tree>)
    requires Named(p, g, t, chart, kept) && |p.names| == Base(g, |g.rules|) && p.Confs(l) && i <= j
    requires NoRepeats(l) && NoRepeats(acc)
    requires forall tree, e :: tree in acc && e in l ==> !PartTree(g, p, tree, e, i, j)
    ensures OnceIfAny(p.ListTrees(d, l, i, j, acc))
    decreases |l|
  {
    hide ParseOf, Base, PartTree, Parse.Valid, Parse.Trees, NamesDiffer, NoRepeats, Parse.Has, ListedOnce;
    if l != [] {
      RestOnce(l);
      assert l[0] in l && forall e :: e in l[1..] ==> e in l;
      if p.Has(l[0], i, j) {
        TreesOnce(p, g, t, chart, kept, d, l[0], i, j);
        TreesExactly(p, g, t, chart, kept, d, l[0], i, j);
        var r := p.Trees(d, l[0], i, j);
        if r.Some? {
          forall tree | tree in r.value ensures tree !in acc {
          }
          BothOnce(r.value, acc);
          forall tree, e | tree in r.value + acc && e in l[1..] ensures !PartTree(g, p, tree, e, i, j) {
            if tree in r.value && PartTree(g, p, tree, e, i, j) {
              PartConf(g, p, tree, l[0], i, j, e, i, j);
            }
          }
          ListOnce(p, g, t, chart, kept, d, l[1..], i, j, r.value + acc);
        }
      } else {
        ListOnce(p, g, t, chart, kept, d, l[1..], i, j, acc);
      }
    }
  }

  lemma BothOnce<T>(s: seq<T>, t: seq<T>)
    requires NoRepeats(s) && NoRepeats(t) && forall x :: x in s ==> x !in t
    ensures NoRepeats(s + t)
  {
    var u := s + t;
    forall a, b | 0 <= a < b < |u| ensures u[a] != u[b] {
      if a < |s| <= b {
        assert u[a] in s && t[b - |s|] in t;
      }
    }
  }
}
