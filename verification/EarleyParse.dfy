/** The forward half of a parse: every state of the chart, filled from left to right. The goal's rules
    start in state 0, each token's items come into the state behind it, and each state is then closed
    under predicting and completing. */
module EarleyParse {
  import opened EarleyGrammar
  import opened EarleySets
  import opened EarleyChart
  import opened EarleyForward

  /** conf_set_adjoin*: each conf of a list becomes a member of state j with origin i. */
  method AdjoinAll(ch: Chart, j: nat, l: seq<int>, i: nat)
    requires ch.Valid() && i <= j < |ch.states| && forall c :: c in l ==> c >= 0
    modifies ch
    ensures ch.Valid() && Extends(old(ch.shapes), ch.shapes, j)
    ensures ch.shapes[j].Members() == old(ch.shapes[j]).Members() + Each(l, i)
  {
    hide Chart.Valid, Grew, Shape.Members, Each, Extends;
    var a := 0;
    ExtendsSelf(ch.shapes, j);
    NoneOf(i);
    while a < |l|
      invariant 0 <= a <= |l|
      invariant ch.Valid() && Extends(old(ch.shapes), ch.shapes, j)
      invariant ch.shapes[j].Members() == old(ch.shapes[j]).Members() + Each(l[..a], i)
    {
      ghost var was := ch.shapes;
      assert l[a] in l;
      ch.Adjoin(j, l[a], i);
      IsExtended(was, ch.shapes, j);
      ExtendsTransitive(old(ch.shapes), was, ch.shapes, j);
      OneOf(l, a, i);
      a := a + 1;
    }
    assert l[..a] == l;
  }

  ghost function Each(l: seq<int>, i: int): set<(int, int)> {
    set c | c in l :: (c, i)
  }

  lemma NoneOf(i: int)
    ensures Each([], i) == {}
  {
  }

  lemma OneOf(l: seq<int>, a: nat, i: int)
    requires a < |l|
    ensures Each(l[..a + 1], i) == Each(l[..a], i) + {(l[a], i)}
  {
    assert l[..a + 1] == l[..a] + [l[a]];
    forall x, y ensures (x, y) in Each(l[..a + 1], i) <==> (x, y) in Each(l[..a], i) || (x, y) == (l[a], i) {
    }
  }

  /** States 0 to j are finished. */
  ghost predicate Finished(g: Grammar, t: Tables, shapes: seq<Shape>, j: nat)
    requires j < |shapes|
  {
    forall k :: 0 <= k <= j ==> FinishedState(g, t, shapes, k)
  }

  ghost predicate FinishedState(g: Grammar, t: Tables, shapes: seq<Shape>, j: nat)
    requires j < |shapes|
  {
    Settled(g, t, shapes, j) && shapes[j].Members() == shapes[j].Merged() && shapes[j].work == []
  }

  lemma FinishedKept(g: Grammar, t: Tables, was: seq<Shape>, now: seq<Shape>, j: nat, k: nat)
    requires j < |was| == |now| && k < j && now == was[j := now[j]] && FinishedState(g, t, was, k)
    ensures FinishedState(g, t, now, k)
  {
    hide Sound, Predicted, Completed, Shape.Members, Shape.Merged;
  }

  /** The items of the chart, state by state. */
  ghost function ItemsOf(shapes: seq<Shape>): (r: ItemSets) {
    seq(|shapes|, j requires 0 <= j < |shapes| => shapes[j].Members())
  }

  ghost predicate Untouched(shapes: seq<Shape>, j: nat) {
    forall k :: j <= k < |shapes| ==> shapes[k] == Shape(map[], [])
  }

  lemma TokenSound(g: Grammar, j: nat)
    requires GoodGrammar(g) && j < |g.toks|
    ensures Sound(g, Each(g.toks[j], j), j + 1)
  {
  }

  lemma GoalSound(g: Grammar, t: Tables)
    requires TablesOf(g, t) && g.n > 0
    ensures Sound(g, Each(t.starters[0], 0), 0) && forall c :: c in t.starters[0] ==> c >= 0
  {
    hide TablesOf, Means;
    TableSizes(g, t);
    forall c | c in t.starters[0] ensures c >= 0 && Means(g, c, 0, 0) {
      StarterMeans(g, t, 0, c, 0);
    }
  }

  lemma Unmerged(h: Shape, h': Shape)
    requires h == Shape(map[], []) && Grew(h, h')
    ensures h.Members() == {} && h'.Merged() == {}
  {
    GrewMerged(h, h');
  }

  /** Puts the items that come from outside into state j and runs forw on it. */
  method FillState(ch: Chart, g: Grammar, t: Tables, j: nat, l: seq<int>, i: nat)
    requires ch.Valid() && i <= j < |ch.states| && TablesOf(g, t)
    requires j > 0 ==> Finished(g, t, ch.shapes, j - 1)
    requires Untouched(ch.shapes, j)
    requires Sound(g, Each(l, i), j) && forall c :: c in l ==> c >= 0
    modifies ch
    ensures ch.Valid() && |ch.shapes| == |old(ch.shapes)| && ch.shapes == old(ch.shapes)[j := ch.shapes[j]]
    ensures Finished(g, t, ch.shapes, j) && Untouched(ch.shapes, j + 1)
    ensures Each(l, i) <= ch.shapes[j].Members()
  {
    hide Chart.Valid, Shape.Members, TablesOf, Shape.Merged, Sound, Each, Settled, Grew, SoundUpTo;
    ghost var was := ch.shapes;
    AdjoinAll(ch, j, l, i);
    ghost var mid := ch.shapes;
    Unmerged(was[j], mid[j]);
    assert mid[j].Members() == Each(l, i);
    FilledSound(g, t, was, mid, j);
    Forward(ch, g, t, j);
    forall k | 0 <= k < j ensures FinishedState(g, t, ch.shapes, k) {
      FinishedKept(g, t, was, ch.shapes, j, k);
    }
  }

  lemma FilledSound(g: Grammar, t: Tables, was: seq<Shape>, mid: seq<Shape>, j: nat)
    requires Extends(was, mid, j) && (j > 0 ==> Finished(g, t, was, j - 1)) && Sound(g, mid[j].Members(), j)
    ensures SoundUpTo(g, mid, j)
  {
    hide Sound, Predicted, Completed, Shape.Members, Shape.Merged, Grew;
    if j > 0 {
      assert FinishedState(g, t, was, j - 1);
    }
  }

  /** The chart of an input, before pruning. */
  method ParseForward(g: Grammar, t: Tables) returns (ch: Chart)
    requires TablesOf(g, t)
    ensures fresh(ch) && ch.Valid() && |ch.shapes| == |g.toks| + 1
    ensures Finished(g, t, ch.shapes, |g.toks|)
    ensures Closed(g, t, ItemsOf(ch.shapes))
  {
    hide Chart.Valid, Shape.Members, TablesOf, Sound, Each, Settled, Finished, Untouched, Closed;
    ch := new Chart(|g.toks|);
    StartUntouched(ch.shapes);
    GoalItems(g, t);
    FillState(ch, g, t, 0, if g.n > 0 then t.starters[0] else [], 0);
    var i := 0;
    ghost var goal := ch.shapes[0];
    while i < |g.toks|
      invariant 0 <= i <= |g.toks|
      invariant ch.Valid() && |ch.shapes| == |g.toks| + 1 && fresh(ch)
      invariant Finished(g, t, ch.shapes, i) && Untouched(ch.shapes, i + 1) && ch.shapes[0] == goal
      invariant forall k :: 0 <= k < i ==> Each(g.toks[k], k) <= ch.shapes[k + 1].Members()
    {
      TokenItems(g, t, i);
      FillState(ch, g, t, i + 1, g.toks[i], i);
      i := i + 1;
    }
    ForwardClosed(g, t, ch.shapes);
  }

  lemma StartUntouched(shapes: seq<Shape>)
    requires forall k :: 0 <= k < |shapes| ==> shapes[k] == Shape(map[], [])
    ensures Untouched(shapes, 0)
  {
  }

  lemma GoalItems(g: Grammar, t: Tables)
    requires TablesOf(g, t)
    ensures |t.starters| == g.n
    ensures Sound(g, Each(if g.n > 0 then t.starters[0] else [], 0), 0)
    ensures g.n > 0 ==> forall c :: c in t.starters[0] ==> c >= 0
  {
    hide TablesOf;
    TableSizes(g, t);
    if g.n > 0 {
      GoalSound(g, t);
    }
  }

  lemma TokenItems(g: Grammar, t: Tables, i: nat)
    requires TablesOf(g, t) && i < |g.toks|
    ensures Sound(g, Each(g.toks[i], i), i + 1)
  {
    hide StepsOf, StartersOf, Sound;
    TokenSound(g, i);
  }

  lemma ForwardClosed(g: Grammar, t: Tables, shapes: seq<Shape>)
    requires TablesOf(g, t) && |t.starters| == g.n && |shapes| == |g.toks| + 1 && Finished(g, t, shapes, |g.toks|)
    requires Each(if g.n > 0 then t.starters[0] else [], 0) <= shapes[0].Members()
    requires forall k :: 0 <= k < |g.toks| ==> Each(g.toks[k], k) <= shapes[k + 1].Members()
    ensures Closed(g, t, ItemsOf(shapes))
  {
    hide TablesOf, Shape.Members, Shape.Merged, Predicted, Completed, Sound, SoundUpTo;
    var chart := ItemsOf(shapes);
    forall j | 0 <= j < |g.toks| ensures Scanned(g, chart, j) {
      assert Each(g.toks[j], j) <= shapes[j + 1].Members();
      forall x | x in g.toks[j] ensures (x, j) in chart[j + 1] {
        assert (x, j) in Each(g.toks[j], j);
      }
    }
    forall j | 0 <= j <= |g.toks| ensures Predicted(t, chart[j], chart[j], j) {
      assert FinishedState(g, t, shapes, j);
    }
    forall i, j | 0 <= i <= j <= |g.toks| ensures Completed(g, t, chart[i], chart[j], chart[j], i) {
      assert FinishedState(g, t, shapes, i) && FinishedState(g, t, shapes, j);
    }
    if g.n > 0 {
      forall c | c in t.starters[0] ensures (c, 0) in chart[0] {
        assert (c, 0) in Each(t.starters[0], 0);
      }
    }
  }
}
