/** Reading parse trees off a pruned chart. */
module EarleyTrees {
  import opened EarleyGrammar

  datatype Option<T> = None | Some(value: T)

  /** A symbol and the number of one of its rules; tokens have number 0. */
  datatype Name = Name(symbol: nat, number: nat)

  datatype Tree = Leaf(name: Name, word: string) | Node(name: Name, kids: seq<Tree>)

  ghost predicate NoRepeats<T>(s: seq<T>) {
    forall a, b :: 0 <= a < b < |s| ==> s[a] != s[b]
  }

  lemma FrontOnce<T>(x: T, s: seq<T>)
    requires NoRepeats(s) && x !in s
    ensures NoRepeats([x] + s)
  {
  }

  /** What deriv_trees reads: the tables, the words of the input and the origins of each conf set
      of each state in the order of its list. */
  datatype Parse = Parse(n: nat, enders: seq<seq<int>>, steps: seq<int>, names: seq<Option<Name>>, words: seq<string>,
                         sets: seq<map<int, seq<int>>>) {
    predicate Has(c: int, i: int, j: int) {
      0 <= j < |sets| && c in sets[j] && i in sets[j][c]
    }

    /** names is set exactly for the confs nb_deriv_trees stops at. */
    ghost predicate NamesFit() {
      |names| == |steps| && forall c :: 0 <= c < |steps| ==> (names[c].Some? <==> c < n || (c > 0 && steps[c - 1] < 0))
    }

    ghost predicate Valid() {
      && NamesFit()
      && |enders| == n
      && (forall x, e :: 0 <= x < n && e in enders[x] ==> 0 <= e < |steps|)
      && (forall j, c, i {:trigger Has(c, i, j)} :: Has(c, i, j) ==> Fits(c, i, j))
    }

    ghost predicate Fits(c: int, i: int, j: int) {
      && 0 <= c < |steps| && 0 <= i <= j && (c < n ==> i < |words|)
      && (c > 0 ==> steps[c - 1] < n) && n > 0
    }

    /** deriv_trees, going at most d deep. */
    function Trees(d: nat, c: int, i: int, j: int): Option<seq<Tree>>
      requires Valid() && Has(c, i, j)
      decreases d, 0, 0
    {
      assert Fits(c, i, j);
      if d == 0 then None
      else if names[c].Some? then
        Some([if c < n then Leaf(names[c].value, words[i]) else Node(names[c].value, [])])
      else
        EnderTrees(d - 1, c, i, j, enders[steps[c - 1]], [])
    }

    function EnderTrees(d: nat, c: int, i: int, j: int, l: seq<int>, acc: seq<Tree>): Option<seq<Tree>>
      requires Valid() && c > 0 && 0 <= j < |sets|
      decreases d, 2, |l|
    {
      if l == [] then Some(acc)
      else if l[0] in sets[j] then
        var r := OriginTrees(d, c, i, j, l[0], sets[j][l[0]], acc);
        if r == None then None else EnderTrees(d, c, i, j, l[1..], r.value)
      else
        EnderTrees(d, c, i, j, l[1..], acc)
    }

    function OriginTrees(d: nat, c: int, i: int, j: int, e: int, ks: seq<int>, acc: seq<Tree>): Option<seq<Tree>>
      requires Valid() && c > 0 && 0 <= j < |sets| && forall k :: k in ks ==> Has(e, k, j)
      decreases d, 1, |ks|
    {
      if ks == [] then Some(acc)
      else if ks[0] >= i && Has(c - 1, i, ks[0]) then
        assert ks[0] in ks;
        var prev := Trees(d, c - 1, i, ks[0]);
        if prev == None then None else
          var last := Trees(d, e, ks[0], j);
          if last == None then None else OriginTrees(d, c, i, j, e, ks[1..], Combined(last.value, prev.value, acc))
      else
        OriginTrees(d, c, i, j, e, ks[1..], acc)
    }

    /** nb_deriv_trees, going at most d deep. */
    function Count(d: nat, c: int, i: int, j: int): Option<nat>
      requires Valid() && Has(c, i, j)
      decreases d, 0, 0
    {
      assert Fits(c, i, j);
      if d == 0 then None
      else if c < n || steps[c - 1] < 0 then Some(1)
      else EnderCount(d - 1, c, i, j, enders[steps[c - 1]], 0)
    }

    function EnderCount(d: nat, c: int, i: int, j: int, l: seq<int>, acc: nat): Option<nat>
      requires Valid() && c > 0 && 0 <= j < |sets|
      decreases d, 2, |l|
    {
      if l == [] then Some(acc)
      else if l[0] in sets[j] then
        var r := OriginCount(d, c, i, j, l[0], sets[j][l[0]], acc);
        if r == None then None else EnderCount(d, c, i, j, l[1..], r.value)
      else
        EnderCount(d, c, i, j, l[1..], acc)
    }

    function OriginCount(d: nat, c: int, i: int, j: int, e: int, ks: seq<int>, acc: nat): Option<nat>
      requires Valid() && c > 0 && 0 <= j < |sets| && forall k :: k in ks ==> Has(e, k, j)
      decreases d, 1, |ks|
    {
      if ks == [] then Some(acc)
      else if ks[0] >= i && Has(c - 1, i, ks[0]) then
        assert ks[0] in ks;
        var prev := Count(d, c - 1, i, ks[0]);
        if prev == None then None else
          var last := Count(d, e, ks[0], j);
          if last == None then None else OriginCount(d, c, i, j, e, ks[1..], acc + prev.value * last.value)
      else
        OriginCount(d, c, i, j, e, ks[1..], acc)
    }

    ghost predicate Confs(l: seq<int>) {
      forall a :: 0 <= a < |l| ==> 0 <= l[a] < |steps|
    }

    /** The test of deriv_trees* and nb_deriv_trees*: for i behind j it reads past the end of the
        set of conf e, and then says yes whatever the set holds. */
    predicate Found(e: int, i: nat, j: int) {
      Has(e, i, j) || (0 <= j < |sets| && e in sets[j] && i > j)
    }

    /** deriv_trees for an item with its origin behind its state: no finished item lies between. */
    function StrayTrees(e: int, i: nat): Option<seq<Tree>>
      requires Valid() && 0 <= e < |steps|
    {
      if names[e] == None then Some([])
      else if e >= n then Some([Node(names[e].value, [])])
      else if i < |words| then Some([Leaf(names[e].value, words[i])])
      else None
    }

    function StrayCount(e: int): nat
      requires Valid() && 0 <= e < |steps|
    {
      if e < n || (e > 0 && steps[e - 1] < 0) then 1 else 0
    }

    /** deriv_trees*: the trees of all the finished items of a list, the last item's first. */
    function ListTrees(d: nat, l: seq<int>, i: nat, j: int, acc: seq<Tree>): Option<seq<Tree>>
      requires Valid() && Confs(l)
      decreases |l|
    {
      if l == [] then Some(acc)
      else if Found(l[0], i, j) then
        var r := if Has(l[0], i, j) then Trees(d, l[0], i, j) else StrayTrees(l[0], i);
        if r == None then None else ListTrees(d, l[1..], i, j, r.value + acc)
      else
        ListTrees(d, l[1..], i, j, acc)
    }

    /** nb_deriv_trees*. */
    function ListCount(d: nat, l: seq<int>, i: nat, j: int, acc: nat): Option<nat>
      requires Valid() && Confs(l)
      decreases |l|
    {
      if l == [] then Some(acc)
      else if Found(l[0], i, j) then
        var r := if Has(l[0], i, j) then Count(d, l[0], i, j) else Some(StrayCount(l[0]));
        if r == None then None else ListCount(d, l[1..], i, j, r.value + acc)
      else
        ListCount(d, l[1..], i, j, acc)
    }

    /** Unless a word is read that the input does not have, nb_deriv_trees* answers exactly when
        deriv_trees* does, with the length of its list. */
    lemma {:induction false} ListLength(d: nat, l: seq<int>, i: nat, j: int, acc: seq<Tree>, m: nat)
      requires Valid() && |acc| == m && Confs(l)
      requires i <= j || i < |words|
      ensures Agrees(ListTrees(d, l, i, j, acc), ListCount(d, l, i, j, m))
      decreases |l|
    {
      if l != [] {
        if Has(l[0], i, j) {
          CountIsLength(d, l[0], i, j);
          var r := Trees(d, l[0], i, j);
          if r.Some? {
            ListLength(d, l[1..], i, j, r.value + acc, |r.value| + m);
          }
        } else if Found(l[0], i, j) {
          var r := StrayTrees(l[0], i);
          ListLength(d, l[1..], i, j, r.value + acc, |r.value| + m);
        } else {
          ListLength(d, l[1..], i, j, acc, m);
        }
      }
    }

    /** What an item with its origin behind its state gives: a rule without symbols gives its node, a
        token's item a leaf with the word at i. */
    ghost predicate IsStray(tree: Tree, e: int, i: nat)
      requires 0 <= e < |names|
    {
      names[e].Some? &&
      if e < n then i < |words| && tree == Leaf(names[e].value, words[i]) else tree == Node(names[e].value, [])
    }

    /** deriv_trees* for i behind j: it fails if it is to give a word behind the input, and else lists what
        each item that is left gives. */
    lemma {:induction false} StrayListed(d: nat, l: seq<int>, i: nat, j: int, acc: seq<Tree>, tree: Tree)
      requires Valid() && Confs(l) && i > j
      ensures
        var r := ListTrees(d, l, i, j, acc);
        && (r == None <==> i >= |words| && 0 <= j < |sets| && exists e :: e in l && e < n && e in sets[j])
        && (r.Some? ==>
              (tree in r.value <==>
                tree in acc || (0 <= j < |sets| && exists e :: e in l && e in sets[j] && IsStray(tree, e, i))))
      decreases |l|
    {
      if l != [] {
        assert l == [l[0]] + l[1..];
        var e := l[0];
        assert !Has(e, i, j) by { assert Has(e, i, j) ==> Fits(e, i, j); }
        assert e < n ==> names[e].Some?;
        if Found(e, i, j) {
          var r := StrayTrees(e, i);
          if r.Some? {
            StrayListed(d, l[1..], i, j, r.value + acc, tree);
            assert tree in r.value <==> IsStray(tree, e, i);
          }
        } else {
          StrayListed(d, l[1..], i, j, acc, tree);
        }
      }
    }

    // ----- counting agrees with listing --------------------------------------------------------------------

    /** nb_deriv_trees answers exactly when deriv_trees does, with the length of its list. */
    lemma {:induction false} CountIsLength(d: nat, c: int, i: int, j: int)
      requires Valid() && Has(c, i, j)
      ensures Agrees(Trees(d, c, i, j), Count(d, c, i, j))
      decreases d, 0, 0
    {
      assert Fits(c, i, j);
      if d > 0 && names[c] == None {
        EnderLength(d - 1, c, i, j, enders[steps[c - 1]], [], 0);
      }
    }

    lemma {:induction false} EnderLength(d: nat, c: int, i: int, j: int, l: seq<int>, acc: seq<Tree>, m: nat)
      requires Valid() && c > 0 && 0 <= j < |sets| && |acc| == m
      ensures Agrees(EnderTrees(d, c, i, j, l, acc), EnderCount(d, c, i, j, l, m))
      decreases d, 2, |l|
    {
      if l != [] {
        if l[0] in sets[j] {
          OriginLength(d, c, i, j, l[0], sets[j][l[0]], acc, m);
          var r := OriginTrees(d, c, i, j, l[0], sets[j][l[0]], acc);
          if r.Some? {
            EnderLength(d, c, i, j, l[1..], r.value, |r.value|);
          }
        } else {
          EnderLength(d, c, i, j, l[1..], acc, m);
        }
      }
    }

    lemma {:induction false} OriginLength(d: nat, c: int, i: int, j: int, e: int, ks: seq<int>, acc: seq<Tree>, m: nat)
      requires Valid() && c > 0 && 0 <= j < |sets| && (forall k :: k in ks ==> Has(e, k, j)) && |acc| == m
      ensures Agrees(OriginTrees(d, c, i, j, e, ks, acc), OriginCount(d, c, i, j, e, ks, m))
      decreases d, 1, |ks|
    {
      if ks != [] {
        assert ks[0] in ks;
        if ks[0] >= i && Has(c - 1, i, ks[0]) {
          CountIsLength(d, c - 1, i, ks[0]);
          CountIsLength(d, e, ks[0], j);
          var prev, last := Trees(d, c - 1, i, ks[0]), Trees(d, e, ks[0], j);
          if prev.Some? && last.Some? {
            CombinedLength(last.value, prev.value, acc);
            OriginLength(d, c, i, j, e, ks[1..], Combined(last.value, prev.value, acc),
              m + |prev.value| * |last.value|);
          }
        } else {
          OriginLength(d, c, i, j, e, ks[1..], acc, m);
        }
      }
    }
  }

  ghost predicate Agrees(trees: Option<seq<Tree>>, count: Option<nat>) {
    (trees.Some? <==> count.Some?) && (trees.Some? ==> |trees.value| == count.value)
  }

  /** Each tree of prev with each tree of last as one more kid, put in front of acc. */
  function Combined(last: seq<Tree>, prev: seq<Tree>, acc: seq<Tree>): seq<Tree> {
    if last == [] then acc else Combined(last[1..], prev, Extended(prev, last[0], acc))
  }

  function Extended(prev: seq<Tree>, last: Tree, acc: seq<Tree>): seq<Tree> {
    if prev == [] then acc else Extended(prev[1..], last, [WithKid(prev[0], last)] + acc)
  }

  /** A leaf stands for a list of a name and a word. It is never given a kid, since no item
      follows a token's. */
  function WithKid(tree: Tree, kid: Tree): Tree {
    if tree.Node? then tree.(kids := tree.kids + [kid]) else tree
  }

  lemma {:induction false} ExtendedLength(prev: seq<Tree>, last: Tree, acc: seq<Tree>)
    ensures |Extended(prev, last, acc)| == |prev| + |acc|
    decreases |prev|
  {
    if prev != [] {
      ExtendedLength(prev[1..], last, [WithKid(prev[0], last)] + acc);
    }
  }

  lemma {:induction false} CombinedLength(last: seq<Tree>, prev: seq<Tree>, acc: seq<Tree>)
    ensures |Combined(last, prev, acc)| == |acc| + |prev| * |last|
    decreases |last|
  {
    if last != [] {
      ExtendedLength(prev, last[0], acc);
      CombinedLength(last[1..], prev, Extended(prev, last[0], acc));
      assert |prev| * |last| == |prev| * (|last| - 1) + |prev|;
    }
  }
}
