/** The backward half of a parse: what a whole parse uses. */
module EarleyPrune {
  // A second chart is filled with only the items that a parse of the whole input uses, found from the end of the
  // input back.

  import opened EarleyGrammar
  import opened EarleySets
  import opened EarleyChart
  import opened EarleyForward
  import opened EarleyParse

  /** Item (c, i) of state j comes about by moving the dot of (c - 1, i) of state k over the
      finished item (e, k) of state j. */
  ghost predicate Splits(g: Grammar, t: Tables, chart: ItemSets, c: int, i: int, j: int, e: int, k: int) {
    && 0 <= k < |chart| && 0 <= j < |chart| && i <= k
    && g.n <= c && c >= 1 && Completes(g, t, c - 1, e)
    && (e, k) in chart[j] && (c - 1, i) in chart[k]
  }

  /** Item (c, i) of state j is reached from a finished goal in d steps back. */
  ghost predicate Kept(g: Grammar, t: Tables, chart: ItemSets, c: int, i: int, j: int, d: nat)
    decreases d
  {
    || (j == |chart| - 1 && i == 0 && |t.enders| > 0 && j >= 0 && c in t.enders[0] && (c, i) in chart[j])
    || (d > 0 && exists c', i', j', e, k :: Uses(g, t, chart, c', i', j', e, k, c, i, j) && Kept(g, t, chart, c', i', j', d - 1))
  }

  /** Item (c, i) of state j is one of the two that (c', i') of state j' comes from. */
  ghost predicate Uses(g: Grammar, t: Tables, chart: ItemSets, c': int, i': int, j': int, e: int, k: int, c: int,
    i: int, j: int) {
    Splits(g, t, chart, c', i', j', e, k) && ((c == c' - 1 && i == i' && j == k) || (c == e && i == k && j == j'))
  }

  ghost predicate IsKept(g: Grammar, t: Tables, chart: ItemSets, c: int, i: int, j: int) {
    exists d: nat :: Kept(g, t, chart, c, i, j, d)
  }

  lemma KeptUse(g: Grammar, t: Tables, chart: ItemSets, c': int, i': int, j': int, e: int, k: int)
    requires IsKept(g, t, chart, c', i', j') && Splits(g, t, chart, c', i', j', e, k)
    ensures IsKept(g, t, chart, c' - 1, i', k) && IsKept(g, t, chart, e, k, j')
  {
    var d: nat :| Kept(g, t, chart, c', i', j', d);
    assert Uses(g, t, chart, c', i', j', e, k, c' - 1, i', k) && Uses(g, t, chart, c', i', j', e, k, e, k, j');
    assert Kept(g, t, chart, c' - 1, i', k, d + 1) && Kept(g, t, chart, e, k, j', d + 1);
  }

  lemma KeptGoal(g: Grammar, t: Tables, chart: ItemSets, c: int)
    requires |chart| > 0 && |t.enders| > 0 && c in t.enders[0] && (c, 0) in chart[|chart| - 1]
    ensures IsKept(g, t, chart, c, 0, |chart| - 1)
  {
    assert Kept(g, t, chart, c, 0, |chart| - 1, 0);
  }

  // ----- a set of items closed under looking back ---------------------------------------------------------

  ghost predicate Targets(kept: ItemSets, c: int, i: int, j: int, e: int, k: int) {
    0 <= k < |kept| && 0 <= j < |kept| && (c - 1, i) in kept[k] && (e, k) in kept[j]
  }

  /** What (c, i) of state j comes from is kept. */
  ghost predicate Followed(g: Grammar, t: Tables, chart: ItemSets, kept: ItemSets, c: int, i: int, j: int) {
    forall e, k :: Splits(g, t, chart, c, i, j, e, k) ==> Targets(kept, c, i, j, e, k)
  }

  ghost predicate AllFollowed(g: Grammar, t: Tables, chart: ItemSets, done: ItemSets, kept: ItemSets) {
    forall j, c, i :: 0 <= j < |done| && (c, i) in done[j] ==> Followed(g, t, chart, kept, c, i, j)
  }

  ghost predicate GoalsKept(t: Tables, chart: ItemSets, kept: ItemSets) {
    |chart| == |kept| > 0 &&
    (|t.enders| > 0 ==> forall c :: c in t.enders[0] && (c, 0) in chart[|chart| - 1] ==> (c, 0) in kept[|kept| - 1])
  }

  /** Nothing is kept for no reason. */
  ghost predicate AllKept(g: Grammar, t: Tables, chart: ItemSets, kept: ItemSets) {
    && |kept| == |chart|
    && (forall j, c, i :: 0 <= j < |kept| && (c, i) in kept[j] ==> (c, i) in chart[j] && IsKept(g, t, chart, c, i, j))
  }

  /** The items the backward pass leaves are the ones reached from a finished goal, no more and no less. */
  lemma {:induction false} PrunedExactly(g: Grammar, t: Tables, chart: ItemSets, kept: ItemSets, c: int, i: int, j: int)
    requires AllKept(g, t, chart, kept) && GoalsKept(t, chart, kept) && AllFollowed(g, t, chart, kept, kept)
    requires 0 <= j < |chart|
    ensures (c, i) in kept[j] <==> IsKept(g, t, chart, c, i, j)
  {
    if IsKept(g, t, chart, c, i, j) {
      var d: nat :| Kept(g, t, chart, c, i, j, d);
      KeptIsThere(g, t, chart, kept, c, i, j, d);
    }
  }

  lemma {:induction false} KeptIsThere(g: Grammar, t: Tables, chart: ItemSets, kept: ItemSets, c: int, i: int, j: int,
    d: nat)
    requires |kept| == |chart| && GoalsKept(t, chart, kept) && AllFollowed(g, t, chart, kept, kept)
    requires Kept(g, t, chart, c, i, j, d)
    ensures 0 <= j < |kept| && (c, i) in kept[j]
    decreases d
  {
    if !(j == |chart| - 1 && i == 0 && |t.enders| > 0 && j >= 0 && c in t.enders[0] && (c, i) in chart[j]) {
      var c', i', j', e, k :| Uses(g, t, chart, c', i', j', e, k, c, i, j) && Kept(g, t, chart, c', i', j', d - 1);
      KeptIsThere(g, t, chart, kept, c', i', j', d - 1);
      assert Followed(g, t, chart, kept, c', i', j');
      assert Targets(kept, c', i', j', e, k);
    }
  }

  // ----- the pass itself -------------------------------------------------------------------------------------

  ghost function MergedOf(shapes: seq<Shape>): (r: ItemSets) {
    seq(|shapes|, j requires 0 <= j < |shapes| => shapes[j].Merged())
  }

  /** Every state has grown or stayed the same. */
  ghost predicate AllGrew(was: seq<Shape>, now: seq<Shape>, j: nat)
    ensures AllGrew(was, now, j) ==> |was| == |now|
  {
    && |was| == |now|
    && (forall k :: 0 <= k < |was| ==> Grew(was[k], now[k]))
    && (forall k :: j < k < |was| ==> now[k] == was[k])
  }

  lemma AllGrewTransitive(a: seq<Shape>, b: seq<Shape>, c: seq<Shape>, j: nat)
    requires AllGrew(a, b, j) && AllGrew(b, c, j)
    ensures AllGrew(a, c, j)
  {
    hide Grew;
    forall k | 0 <= k < |a| ensures Grew(a[k], c[k]) {
      GrewTransitive(a[k], b[k], c[k]);
    }
  }

  lemma AllGrewSelf(a: seq<Shape>, j: nat)
    ensures AllGrew(a, a, j)
  {
    forall k | 0 <= k < |a| ensures Grew(a[k], a[k]) {
      GrewSelf(a[k]);
    }
  }

  lemma AllGrewOne(was: seq<Shape>, now: seq<Shape>, k: nat, j: nat)
    requires |was| == |now| && k <= j && k < |was| && now == was[k := now[k]] && Grew(was[k], now[k])
    ensures AllGrew(was, now, j)
  {
    hide Grew;
    forall x | 0 <= x < |was| ensures Grew(was[x], now[x]) {
      GrewSelf(was[x]);
    }
  }

  lemma AllGrewItems(was: seq<Shape>, now: seq<Shape>, j: nat)
    requires AllGrew(was, now, j)
    ensures MergedOf(was) == MergedOf(now) && Below(ItemsOf(was), ItemsOf(now))
  {
    hide Shape.Members, Shape.Merged, Grew;
    forall k | 0 <= k < |was| ensures was[k].Merged() == now[k].Merged() && was[k].Members() <= now[k].Members() {
      GrewMerged(was[k], now[k]);
      GrewBelow(was[k], now[k]);
    }
  }

  lemma GrewBelow(a: Shape, b: Shape)
    requires Grew(a, b)
    ensures a.Members() <= b.Members()
  {
    hide Shape.Members;
  }

  ghost predicate Below(a: ItemSets, b: ItemSets) {
    |a| == |b| && forall k :: 0 <= k < |a| ==> a[k] <= b[k]
  }

  lemma TargetsStay(g: Grammar, t: Tables, chart: ItemSets, a: ItemSets, b: ItemSets)
    requires Below(a, b)
    ensures forall c, i, j, e, k :: Targets(a, c, i, j, e, k) ==> Targets(b, c, i, j, e, k)
    ensures forall c, i, j :: Followed(g, t, chart, a, c, i, j) ==> Followed(g, t, chart, b, c, i, j)
  {
    hide Splits;
  }

  /** chart is what is in the forward chart, all of it dealt with. */
  ghost predicate IsSource(from: Chart, chart: ItemSets)
    reads from
  {
    from.Valid() && chart == ItemsOf(from.shapes) && chart == MergedOf(from.shapes)
  }

  ghost predicate AllSetsUsed(shapes: seq<Shape>) {
    forall j :: 0 <= j < |shapes| ==> NoneEmpty(shapes[j])
  }

  /** What the backward pass keeps true: nothing is kept for no reason, the items that were dealt
      with have been followed back, and every set has a member. */
  ghost predicate PruneInvariant(g: Grammar, t: Tables, chart: ItemSets, done: ItemSets, shapes: seq<Shape>) {
    && |done| == |shapes| && AllKept(g, t, chart, ItemsOf(shapes)) && AllFollowed(g, t, chart, done, ItemsOf(shapes))
    && AllSetsUsed(shapes)
  }

  /** conf_set_adjoin**: (c, i) is kept in state j if it is in the forward chart. */
  method AdjoinKept(from: Chart, to: Chart, g: Grammar, t: Tables, ghost chart: ItemSets, ghost done: ItemSets,
                    j: nat, c: nat, i: nat)
    returns (present: bool)
    requires from != to && IsSource(from, chart) && to.Valid() && |from.states| == |to.states| && j < |to.states|
    requires PruneInvariant(g, t, chart, done, to.shapes) && ((c, i) in chart[j] ==> IsKept(g, t, chart, c, i, j))
    requires i <= j
    modifies to
    ensures to.Valid() && AllGrew(old(to.shapes), to.shapes, j) && PruneInvariant(g, t, chart, done, to.shapes)
    ensures present == ((c, i) in chart[j])
    ensures present ==> (c, i) in to.shapes[j].Members()
  {
    hide Chart.Valid, Shape.Members, Shape.Merged, Grew, AllKept, AllFollowed, IsKept, AllGrew;
    HasMember(from.shapes[j], c, i);
    present := from.Member(j, c, i);
    ghost var was := to.shapes;
    AllGrewSelf(was, j);
    if present {
      to.Adjoin(j, c, i);
      AllGrewOne(was, to.shapes, j, j);
      KeptOneMore(g, t, chart, done, was, to.shapes, j, c, i);
    }
  }

  lemma KeptOneMore(g: Grammar, t: Tables, chart: ItemSets, done: ItemSets, was: seq<Shape>, now: seq<Shape>, j: nat,
    c: int, i: int)
    requires PruneInvariant(g, t, chart, done, was) && j < |was| == |now| && AllGrew(was, now, j)
    requires now == was[j := now[j]] && now[j].Members() == was[j].Members() + {(c, i)}
    requires (c, i) in chart[j] && IsKept(g, t, chart, c, i, j) && (NoneEmpty(was[j]) ==> NoneEmpty(now[j]))
    ensures PruneInvariant(g, t, chart, done, now)
  {
    hide Shape.Members, Shape.Merged, IsKept, AllGrew, Followed, NoneEmpty;
    AllGrewItems(was, now, j);
    TargetsStay(g, t, chart, ItemsOf(was), ItemsOf(now));
  }

  /** Items are the grammar's and have origins at or before their state. */
  ghost predicate ItemsFit(g: Grammar, t: Tables, chart: ItemSets) {
    forall j, c, i :: 0 <= j < |chart| && (c, i) in chart[j] ==> Fits(g, t, c, i, j)
  }

  ghost predicate Fits(g: Grammar, t: Tables, c: int, i: int, j: int) {
    g.n > 0 && 0 <= c < |t.steps| && 0 <= i <= j && (c >= 1 ==> t.steps[c - 1] < g.n)
  }

  /** Follows (c, i) of state j back over the finished items of conf e. */
  method SplitWith(from: Chart, to: Chart, g: Grammar, t: Tables, ghost chart: ItemSets, ghost done: ItemSets,
                   j: nat, c: nat, i: nat, e: nat)
    requires from != to && IsSource(from, chart) && to.Valid() && |from.states| == |to.states| && j < |to.states|
    requires PruneInvariant(g, t, chart, done, to.shapes) && ItemsFit(g, t, chart)
    requires IsKept(g, t, chart, c, i, j) && c >= 1 && g.n <= c && Completes(g, t, c - 1, e)
    modifies to
    ensures to.Valid() && AllGrew(old(to.shapes), to.shapes, j) && PruneInvariant(g, t, chart, done, to.shapes)
    ensures forall k :: Splits(g, t, chart, c, i, j, e, k) ==> Targets(ItemsOf(to.shapes), c, i, j, e, k)
  {
    hide Chart.Valid, Shape.Members, Shape.Merged, Grew, IsKept, AllGrew, PruneInvariant, IsSource, ItemsFit, Targets,
      Splits, Completes;
    SourceFacts(from, chart, j, e);
    AllGrewSelf(to.shapes, j);
    ghost var list := OriginsOf(from.shapes[j], e);
    if e in from.states[j].sets {
      var k := from.states[j].sets[e][2];
      ghost var m := 0;
      while k >= 0
        invariant 0 <= m <= |list| && k == First(list[m..])
        invariant to.Valid() && AllGrew(old(to.shapes), to.shapes, j) && PruneInvariant(g, t, chart, done, to.shapes)
        invariant forall b :: 0 <= b < m && Splits(g, t, chart, c, i, j, e, list[b]) ==> Targets(ItemsOf(to.shapes), c, i, j, e, list[b])
        decreases |list| - m
      {
        ghost var was := to.shapes;
        SourceMember(from, g, t, chart, j, e, m);
        if k >= i {
          SplitHere(g, t, chart, c, i, j, e, k);
          var b := AdjoinKept(from, to, g, t, chart, done, k, c - 1, i);
          ghost var mid := to.shapes;
          AllGrewWider(was, mid, k, j);
          if b {
            var b' := AdjoinKept(from, to, g, t, chart, done, j, e, k);
          } else {
            AllGrewSelf(mid, j);
          }
          AllGrewTransitive(was, mid, to.shapes, j);
          SplitDone(g, t, chart, mid, to.shapes, c, i, j, e, k);
        } else {
          AllGrewSelf(was, j);
          NoSplit(g, t, chart, c, i, j, e, k);
        }
        AllGrewTransitive(old(to.shapes), was, to.shapes, j);
        AllGrewItems(was, to.shapes, j);
        TargetsStay(g, t, chart, ItemsOf(was), ItemsOf(to.shapes));
        NextLink(from, j, e, m);
        k := from.states[j].sets[e][k + 5];
        m := m + 1;
      }
      AllSeen(from, j, e, m);
    }
    forall k | Splits(g, t, chart, c, i, j, e, k) ensures Targets(ItemsOf(to.shapes), c, i, j, e, k) {
      SplitListed(from, g, t, chart, c, i, j, e, k);
      var b :| 0 <= b < |list| && list[b] == k;
    }
  }

  ghost function OriginsOf(h: Shape, e: int): seq<int> {
    if e in h.lists then h.lists[e].merged else []
  }

  lemma SourceFacts(from: Chart, chart: ItemSets, j: nat, e: int)
    requires IsSource(from, chart) && j < |from.states|
    ensures from.Valid() && |chart| == |from.states| == |from.shapes|
    ensures from.states[j].sets.Keys == from.shapes[j].lists.Keys
    ensures e in from.states[j].sets ==>
              2 in from.states[j].sets[e] && from.states[j].sets[e][2] == First(from.shapes[j].lists[e].merged)
  {
    hide Represents, Shape.Members, Shape.Merged;
    DepictsKeys(from.states[j], from.shapes[j]);
  }

  lemma SourceMember(from: Chart, g: Grammar, t: Tables, chart: ItemSets, j: nat, e: int, m: nat)
    requires IsSource(from, chart) && ItemsFit(g, t, chart) && j < |from.states|
    requires e in from.shapes[j].lists && m < |from.shapes[j].lists[e].merged|
    ensures (e, from.shapes[j].lists[e].merged[m]) in chart[j] && 0 <= from.shapes[j].lists[e].merged[m] <= j
  {
    hide Chart.Valid, Shape.Members;
    var k := from.shapes[j].lists[e].merged[m];
    assert k in from.shapes[j].lists[e].merged && (e, k) in from.shapes[j].Merged();
  }

  lemma SplitHere(g: Grammar, t: Tables, chart: ItemSets, c: int, i: int, j: int, e: int, k: int)
    requires IsKept(g, t, chart, c, i, j) && c >= 1 && g.n <= c && Completes(g, t, c - 1, e)
    requires i <= k && 0 <= k < |chart| && 0 <= j < |chart| && (e, k) in chart[j]
    ensures Splits(g, t, chart, c, i, j, e, k) <==> (c - 1, i) in chart[k]
    ensures (c - 1, i) in chart[k] ==> IsKept(g, t, chart, c - 1, i, k) && IsKept(g, t, chart, e, k, j)
  {
    hide IsKept, Completes;
    if (c - 1, i) in chart[k] {
      KeptUse(g, t, chart, c, i, j, e, k);
    }
  }

  lemma NoSplit(g: Grammar, t: Tables, chart: ItemSets, c: int, i: int, j: int, e: int, k: int)
    requires k < i
    ensures !Splits(g, t, chart, c, i, j, e, k)
  {
  }

  lemma AllGrewWider(was: seq<Shape>, now: seq<Shape>, k: nat, j: nat)
    requires AllGrew(was, now, k) && k <= j
    ensures AllGrew(was, now, j)
  {
  }

  lemma SplitDone(g: Grammar, t: Tables, chart: ItemSets, mid: seq<Shape>, now: seq<Shape>, c: int, i: int, j: nat,
    e: int, k: nat)
    requires AllGrew(mid, now, j) && k <= j < |mid|
    requires Splits(g, t, chart, c, i, j, e, k) ==> (c - 1, i) in mid[k].Members() && (e, k) in now[j].Members()
    ensures Splits(g, t, chart, c, i, j, e, k) ==> Targets(ItemsOf(now), c, i, j, e, k)
  {
    hide Splits, Shape.Members, Grew;
    AllGrewItems(mid, now, j);
    assert ItemsOf(mid)[k] <= ItemsOf(now)[k];
  }

  lemma SplitListed(from: Chart, g: Grammar, t: Tables, chart: ItemSets, c: int, i: int, j: nat, e: int, k: int)
    requires IsSource(from, chart) && j < |from.states| && Splits(g, t, chart, c, i, j, e, k)
    ensures e in from.shapes[j].lists && k in from.shapes[j].lists[e].merged
  {
    hide Chart.Valid, Shape.Members;
    assert (e, k) in from.shapes[j].Merged();
  }

  /** Follows (c, i) of state j back. */
  method SplitItem(from: Chart, to: Chart, g: Grammar, t: Tables, ghost chart: ItemSets, ghost done: ItemSets,
                   j: nat, c: nat, i: nat)
    requires from != to && IsSource(from, chart) && to.Valid() && |from.states| == |to.states| && j < |to.states|
    requires PruneInvariant(g, t, chart, done, to.shapes) && ItemsFit(g, t, chart) && TablesOf(g, t)
    requires IsKept(g, t, chart, c, i, j) && Fits(g, t, c, i, j)
    modifies to
    ensures to.Valid() && AllGrew(old(to.shapes), to.shapes, j) && PruneInvariant(g, t, chart, done, to.shapes)
    ensures Followed(g, t, chart, ItemsOf(to.shapes), c, i, j)
  {
    hide Chart.Valid, Shape.Members, Shape.Merged, Grew, IsKept, AllGrew, PruneInvariant, IsSource, ItemsFit, Targets,
      Splits, Completes, TablesOf;
    AllGrewSelf(to.shapes, j);
    TableSizes(g, t);
    if c >= g.n && t.steps[c - 1] >= 0 {
      var l := t.enders[t.steps[c - 1]];
      var a := 0;
      while a < |l|
        invariant 0 <= a <= |l|
        invariant to.Valid() && AllGrew(old(to.shapes), to.shapes, j) && PruneInvariant(g, t, chart, done, to.shapes)
        invariant forall b, k :: 0 <= b < a && Splits(g, t, chart, c, i, j, l[b], k) ==> Targets(ItemsOf(to.shapes), c, i, j, l[b], k)
      {
        ghost var was := to.shapes;
        EnderCompletes(g, t, c - 1, l[a]);
        CompletesConf(g, t, c - 1, l[a]);
        SplitWith(from, to, g, t, chart, done, j, c, i, l[a]);
        AllGrewTransitive(old(to.shapes), was, to.shapes, j);
        AllGrewItems(was, to.shapes, j);
        TargetsStay(g, t, chart, ItemsOf(was), ItemsOf(to.shapes));
        a := a + 1;
      }
      forall e, k | Splits(g, t, chart, c, i, j, e, k) ensures Targets(ItemsOf(to.shapes), c, i, j, e, k) {
        SplitCompletes(g, t, chart, c, i, j, e, k);
        EnderCompletes(g, t, c - 1, e);
        var b :| 0 <= b < |l| && l[b] == e;
      }
    } else {
      forall e, k ensures !Splits(g, t, chart, c, i, j, e, k) {
        SplitCompletes(g, t, chart, c, i, j, e, k);
      }
    }
  }

  lemma CompletesConf(g: Grammar, t: Tables, p: int, e: int)
    requires Completes(g, t, p, e)
    ensures e >= 0
  {
  }

  lemma SplitCompletes(g: Grammar, t: Tables, chart: ItemSets, c: int, i: int, j: int, e: int, k: int)
    ensures Splits(g, t, chart, c, i, j, e, k) ==> c >= g.n && c >= 1 && Completes(g, t, c - 1, e)
    ensures Splits(g, t, chart, c, i, j, e, k) ==> c - 1 < |t.steps| && t.steps[c - 1] >= 0
  {
  }

  /** One turn of the backward loop on state j. */
  method PruneStep(from: Chart, to: Chart, g: Grammar, t: Tables, ghost chart: ItemSets, j: nat)
    requires from != to && IsSource(from, chart) && to.Valid() && |from.states| == |to.states| && j < |to.states|
    requires PruneInvariant(g, t, chart, MergedOf(to.shapes), to.shapes) && ItemsFit(g, t, chart) && TablesOf(g, t)
    requires to.states[j].todo >= 0
    modifies to
    ensures to.Valid() && |to.shapes| == |old(to.shapes)|
    ensures PruneInvariant(g, t, chart, MergedOf(to.shapes), to.shapes)
    ensures Below(ItemsOf(old(to.shapes)), ItemsOf(to.shapes)) && Progress(old(to.shapes[j]), to.shapes[j])
    ensures forall k :: j < k < |to.shapes| ==> to.shapes[k] == old(to.shapes[k])
  {
    hide Chart.Valid, Shape.Members, Shape.Merged, Grew, IsKept, AllGrew, PruneInvariant, IsSource, ItemsFit, Followed,
      Fits, TablesOf, Below, Progress;
    ghost var was, done := to.shapes, MergedOf(to.shapes);
    var c, i := to.Pop(j);
    ghost var mid := to.shapes;
    ghost var list, pre := mid[j].lists[c].merged, |was[j].lists[c].merged|;
    PopsMerged(was, mid, j, c);
    PruneMid(g, t, chart, was, mid, j, c);
    ghost var m := pre;
    AllGrewSelf(mid, j);
    assert list[pre..] == was[j].lists[c].recent;
    while i >= 0
      invariant to.Valid() && AllGrew(mid, to.shapes, j) && PruneInvariant(g, t, chart, done, to.shapes)
      invariant pre <= m <= |list| && i == First(list[m..])
      invariant forall b :: pre <= b < m ==> Followed(g, t, chart, ItemsOf(to.shapes), c, list[b], j)
      decreases |list| - m
    {
      ghost var now := to.shapes;
      ListKept(mid, now, j, c);
      KeptHere(to, g, t, chart, done, j, c, m);
      SplitItem(from, to, g, t, chart, done, j, c, i);
      AllGrewTransitive(mid, now, to.shapes, j);
      AllGrewItems(now, to.shapes, j);
      TargetsStay(g, t, chart, ItemsOf(now), ItemsOf(to.shapes));
      ListKept(mid, to.shapes, j, c);
      NextLink(to, j, c, m);
      i := to.states[j].sets[c][i + 5];
      m := m + 1;
    }
    ListKept(mid, to.shapes, j, c);
    AllSeen(to, j, c, m);
    PruneEnd(g, t, chart, was, mid, to.shapes, j, c);
  }

  lemma PruneMid(g: Grammar, t: Tables, chart: ItemSets, was: seq<Shape>, mid: seq<Shape>, j: nat, c: int)
    requires Pops(was, mid, j, c) && PruneInvariant(g, t, chart, MergedOf(was), was)
    ensures PruneInvariant(g, t, chart, MergedOf(was), mid)
  {
    hide Shape.Members, Shape.Merged, AllKept, AllFollowed;
    PopsMerged(was, mid, j, c);
    assert ItemsOf(was) == ItemsOf(mid);
  }

  lemma ListKept(was: seq<Shape>, now: seq<Shape>, j: nat, c: int)
    requires AllGrew(was, now, j) && j < |was| && c in was[j].lists
    ensures c in now[j].lists && now[j].lists[c].merged == was[j].lists[c].merged
  {
    hide Shape.Members;
  }

  lemma KeptHere(to: Chart, g: Grammar, t: Tables, chart: ItemSets, done: ItemSets, j: nat, c: int, m: nat)
    requires to.Valid() && j < |to.shapes| && PruneInvariant(g, t, chart, done, to.shapes) && ItemsFit(g, t, chart)
    requires c in to.shapes[j].lists && m < |to.shapes[j].lists[c].merged|
    ensures c >= 0 && to.shapes[j].lists[c].merged[m] >= 0
    ensures IsKept(g, t, chart, c, to.shapes[j].lists[c].merged[m], j)
      && Fits(g, t, c, to.shapes[j].lists[c].merged[m], j)
  {
    hide Chart.Valid, IsKept, AllFollowed;
    var h, i := to.shapes[j], to.shapes[j].lists[c].merged[m];
    assert h.lists[c].All()[m] == i;
    assert (c, i) in h.Members() && (c, i) in ItemsOf(to.shapes)[j];
  }

  lemma PruneEnd(g: Grammar, t: Tables, chart: ItemSets, was: seq<Shape>, mid: seq<Shape>, now: seq<Shape>, j: nat,
    c: int)
    requires Pops(was, mid, j, c) && AllGrew(mid, now, j) && PruneInvariant(g, t, chart, MergedOf(was), now)
    requires forall i :: i in was[j].lists[c].recent ==> Followed(g, t, chart, ItemsOf(now), c, i, j)
    ensures PruneInvariant(g, t, chart, MergedOf(now), now)
    ensures Below(ItemsOf(was), ItemsOf(now)) && Progress(was[j], now[j])
    ensures forall k :: j < k < |now| ==> now[k] == was[k]
  {
    hide Shape.Members, Shape.Merged, Followed, AllKept, With;
    PopsMerged(was, mid, j, c);
    AllGrewItems(mid, now, j);
    assert ItemsOf(was) == ItemsOf(mid);
    Progresses2(was[j], mid[j], now[j]);
    forall k, x, y | 0 <= k < |now| && (x, y) in MergedOf(now)[k] ensures Followed(g, t, chart, ItemsOf(now), x, y, k) {
      if (x, y) !in MergedOf(was)[k] {
        WithOnly(c, was[j].lists[c].recent);
        InWith(c, was[j].lists[c].recent, y);
      }
    }
  }

  lemma Progresses2(was: Shape, mid: Shape, now: Shape)
    requires was.work != [] && mid.work == was.work[1..] && mid.Members() == was.Members() && Grew(mid, now)
    ensures Progress(was, now)
  {
    hide Shape.Members;
  }

  ghost predicate NoWork(shapes: seq<Shape>, j: int) {
    forall k :: 0 <= k < |shapes| && k > j ==> shapes[k].work == []
  }

  /** The backward pass over state j. */
  method PruneState(from: Chart, to: Chart, g: Grammar, t: Tables, ghost chart: ItemSets, j: nat)
    requires from != to && IsSource(from, chart) && to.Valid() && |from.states| == |to.states| && j < |to.states|
    requires PruneInvariant(g, t, chart, MergedOf(to.shapes), to.shapes) && ItemsFit(g, t, chart) && TablesOf(g, t)
    requires NoWork(to.shapes, j)
    modifies to
    ensures to.Valid() && |to.shapes| == |old(to.shapes)| && NoWork(to.shapes, j - 1)
    ensures PruneInvariant(g, t, chart, MergedOf(to.shapes), to.shapes)
    ensures Below(ItemsOf(old(to.shapes)), ItemsOf(to.shapes))
  {
    hide Chart.Valid, Shape.Members, Shape.Merged, PruneInvariant, IsSource, ItemsFit, TablesOf, Below,
      Shape.WellFormed;
    BelowSelf(ItemsOf(to.shapes));
    PruneBound(g, t, chart, MergedOf(to.shapes), to.shapes, j);
    while to.states[j].todo >= 0
      invariant to.Valid() && |to.shapes| == |old(to.shapes)| && NoWork(to.shapes, j)
      invariant PruneInvariant(g, t, chart, MergedOf(to.shapes), to.shapes)
      invariant Below(ItemsOf(old(to.shapes)), ItemsOf(to.shapes))
      invariant j < |chart| && to.shapes[j].Members() <= chart[j]
      decreases chart[j] - to.shapes[j].Members(), |to.shapes[j].work|
    {
      ghost var was := to.shapes;
      PruneStep(from, to, g, t, chart, j);
      PruneBound(g, t, chart, MergedOf(to.shapes), to.shapes, j);
      Shrinks(chart[j], was[j].Members(), to.shapes[j].Members());
      BelowTransitive(ItemsOf(old(to.shapes)), ItemsOf(was), ItemsOf(to.shapes));
    }
    ShapeFormed(to, j);
  }

  lemma BelowSelf(a: ItemSets)
    ensures Below(a, a)
  {
  }

  lemma BelowTransitive(a: ItemSets, b: ItemSets, c: ItemSets)
    requires Below(a, b) && Below(b, c)
    ensures Below(a, c)
  {
  }

  lemma PruneBound(g: Grammar, t: Tables, chart: ItemSets, done: ItemSets, shapes: seq<Shape>, j: nat)
    requires PruneInvariant(g, t, chart, done, shapes) && j < |shapes|
    ensures |chart| == |shapes| && shapes[j].Members() <= chart[j]
  {
    hide Shape.Members, AllFollowed, IsKept;
    forall p | p in shapes[j].Members() ensures p in chart[j] {
      var (c, i) := p;
      assert (c, i) in ItemsOf(shapes)[j];
    }
  }

  /** Keeps the finished goals. */
  method PruneGoals(from: Chart, to: Chart, g: Grammar, t: Tables, ghost chart: ItemSets, n: nat)
    requires from != to && IsSource(from, chart) && to.Valid() && |from.states| == |to.states| == n + 1
    requires TablesOf(g, t) && forall j :: 0 <= j <= n ==> to.shapes[j] == Shape(map[], [])
    modifies to
    ensures to.Valid() && |to.shapes| == n + 1
    ensures PruneInvariant(g, t, chart, MergedOf(to.shapes), to.shapes) && GoalsKept(t, chart, ItemsOf(to.shapes))
  {
    hide Chart.Valid, Shape.Members, Shape.Merged, PruneInvariant, IsSource, TablesOf, IsKept, AllGrew;
    ghost var done := MergedOf(to.shapes);
    SourceSize(from, chart);
    PruneStart(g, t, chart, to.shapes);
    TableSizes(g, t);
    AllGrewSelf(to.shapes, n);
    if g.n > 0 {
      var l := t.enders[0];
      var a := 0;
      while a < |l|
        invariant 0 <= a <= |l|
        invariant to.Valid() && AllGrew(old(to.shapes), to.shapes, n) && PruneInvariant(g, t, chart, done, to.shapes)
        invariant forall b :: 0 <= b < a && (l[b], 0) in chart[n] ==> (l[b], 0) in to.shapes[n].Members()
      {
        ghost var was := to.shapes;
        EnderConf(g, t, l[a]);
        if (l[a], 0) in chart[n] {
          KeptGoal(g, t, chart, l[a]);
        }
        var b := AdjoinKept(from, to, g, t, chart, done, n, l[a], 0);
        AllGrewTransitive(old(to.shapes), was, to.shapes, n);
        StateGrew(was, to.shapes, n);
        a := a + 1;
      }
    }
    AllGrewItems(old(to.shapes), to.shapes, n);
  }

  lemma StateGrew(was: seq<Shape>, now: seq<Shape>, j: nat)
    requires AllGrew(was, now, j) && j < |was|
    ensures was[j].Members() <= now[j].Members()
  {
    hide Shape.Members;
  }

  lemma SourceSize(from: Chart, chart: ItemSets)
    requires IsSource(from, chart)
    ensures |chart| == |from.states|
  {
    hide Shape.Members, Shape.Merged;
  }

  lemma EnderConf(g: Grammar, t: Tables, e: int)
    requires TablesOf(g, t) && g.n > 0 && e in t.enders[0]
    ensures e >= 0
  {
    hide StepsOf, StartersOf, GoodGrammar;
  }

  lemma PruneStart(g: Grammar, t: Tables, chart: ItemSets, shapes: seq<Shape>)
    requires |chart| == |shapes| && forall j :: 0 <= j < |shapes| ==> shapes[j] == Shape(map[], [])
    ensures PruneInvariant(g, t, chart, MergedOf(shapes), shapes)
  {
    hide Followed, IsKept;
    forall j, c, i | 0 <= j < |shapes| ensures (c, i) !in ItemsOf(shapes)[j] && (c, i) !in MergedOf(shapes)[j] {
    }
  }

  /** The backward pass: exactly the items reached from a finished goal are left. */
  method Prune(from: Chart, g: Grammar, t: Tables, ghost chart: ItemSets) returns (to: Chart)
    requires IsSource(from, chart) && |from.states| == |g.toks| + 1 && ItemsFit(g, t, chart) && TablesOf(g, t)
    ensures fresh(to) && to.Valid() && |to.states| == |g.toks| + 1 && IsPruned(g, t, chart, ItemsOf(to.shapes))
    ensures NoWork(to.shapes, -1) && AllSetsUsed(to.shapes)
  {
    hide Chart.Valid, Shape.Members, Shape.Merged, PruneInvariant, ItemsFit, TablesOf, Below, IsPruned, AllSetsUsed;
    var n := |g.toks|;
    to := new Chart(n);
    PruneGoals(from, to, g, t, chart, n);
    var i := n;
    while i >= 0
      invariant -1 <= i <= n
      invariant to.Valid() && |to.shapes| == n + 1 && NoWork(to.shapes, i) && fresh(to)
      invariant PruneInvariant(g, t, chart, MergedOf(to.shapes), to.shapes) && GoalsKept(t, chart, ItemsOf(to.shapes))
      invariant IsSource(from, chart)
    {
      ghost var was := to.shapes;
      PruneState(from, to, g, t, chart, i);
      GoalsStay(t, chart, ItemsOf(was), ItemsOf(to.shapes));
      i := i - 1;
    }
    PruneFinished(to, g, t, chart);
  }

  /** kept is what the backward pass leaves of chart. */
  ghost predicate IsPruned(g: Grammar, t: Tables, chart: ItemSets, kept: ItemSets) {
    AllKept(g, t, chart, kept) && GoalsKept(t, chart, kept) && AllFollowed(g, t, chart, kept, kept)
  }

  lemma GoalsStay(t: Tables, chart: ItemSets, a: ItemSets, b: ItemSets)
    requires GoalsKept(t, chart, a) && Below(a, b)
    ensures GoalsKept(t, chart, b)
  {
  }

  lemma PruneFinished(to: Chart, g: Grammar, t: Tables, chart: ItemSets)
    requires to.Valid() && PruneInvariant(g, t, chart, MergedOf(to.shapes), to.shapes) && NoWork(to.shapes, -1)
    requires GoalsKept(t, chart, ItemsOf(to.shapes))
    ensures IsPruned(g, t, chart, ItemsOf(to.shapes)) && AllSetsUsed(to.shapes)
  {
    hide Chart.Valid, Shape.Members, Shape.Merged, AllKept, AllFollowed, Shape.WellFormed, AllSetsUsed;
    forall j | 0 <= j < |to.shapes| ensures ItemsOf(to.shapes)[j] == MergedOf(to.shapes)[j] {
      ShapeFormed(to, j);
      NothingLeft(to.shapes[j]);
    }
    assert ItemsOf(to.shapes) == MergedOf(to.shapes);
  }
}
