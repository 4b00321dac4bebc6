/** The forward pass of the Earley parser over one state: predicting and completing, a worklist item
    at a time, until the state has no new items. Every item is added once, so the pass comes to an
    end. */
module EarleyForward {
  import opened EarleyGrammar
  import opened EarleySets
  import opened EarleyChart

  /** Only state j has changed, and it has grown. */
  ghost predicate Extends(was: seq<Shape>, now: seq<Shape>, j: nat)
    ensures Extends(was, now, j) ==> |was| == |now| && j < |was|
  {
    |was| == |now| && j < |was| && now == was[j := now[j]] && Grew(was[j], now[j])
  }

  lemma ExtendsTransitive(a: seq<Shape>, b: seq<Shape>, c: seq<Shape>, j: nat)
    requires Extends(a, b, j) && Extends(b, c, j)
    ensures Extends(a, c, j)
  {
    hide Grew;
    GrewTransitive(a[j], b[j], c[j]);
  }

  lemma ExtendsSelf(a: seq<Shape>, j: nat)
    requires j < |a|
    ensures Extends(a, a, j)
  {
  }

  lemma ExtendsMembers(a: seq<Shape>, b: seq<Shape>, j: nat)
    requires Extends(a, b, j)
    ensures |a| == |b| && j < |a| && a[j].Members() <= b[j].Members()
  {
    hide Shape.Members;
  }

  // ----- soundness of the three ways to make an item ------------------------------------------------------

  lemma SoundStart(g: Grammar, t: Tables, all: set<(int, int)>, x: nat, s: int, j: nat)
    requires TablesOf(g, t) && Sound(g, all, j) && x < g.n && s in t.starters[x] && Foreseen(g, x, j)
    ensures s >= 0 && Sound(g, all + {(s, j)}, j)
  {
    hide Means, TablesOf, Foreseen;
    StarterMeans(g, t, x, s, j);
  }

  lemma StarterMeans(g: Grammar, t: Tables, x: nat, s: int, j: nat)
    requires TablesOf(g, t) && x < g.n && s in t.starters[x] && Foreseen(g, x, j)
    ensures s >= 0 && Means(g, s, j, j)
  {
    hide StepsOf, GoodGrammar, DerivesSeq, Foreseen, Reach;
    StartMeans(g, t.starters, x, s, j);
    assert IsStart(g, s, x);
  }

  lemma SoundAdvance(g: Grammar, t: Tables, all: set<(int, int)>, p: int, list: seq<int>, i: nat, e: int, j: nat)
    requires TablesOf(g, t) && Sound(g, all, j) && Completes(g, t, p, e) && Means(g, e, i, j)
    requires forall h: int :: h in list ==> h >= 0 && Means(g, p, h, i)
    ensures Sound(g, all + With(p + 1, list), j)
  {
    hide Means, StepsOf, StartersOf, GoodGrammar;
    forall c: int, h: int | (c, h) in all + With(p + 1, list) ensures h >= 0 && Means(g, c, h, j) {
      if (c, h) !in all {
        assert c == p + 1 && h in list;
        AdvanceMeans(g, t.steps, p, h, i, e, j);
      }
    }
  }

  /** An item that is true of the input is one of the grammar's. */
  lemma ItemStep(g: Grammar, t: Tables, c: int, i: nat, j: nat)
    requires TablesOf(g, t) && Means(g, c, i, j)
    ensures 0 <= c < |t.steps| && 0 - g.n <= t.steps[c] < g.n
    ensures t.steps[c] >= 0 ==> c + 1 < |t.steps|
  {
    hide StepsOf, StartersOf, Base, DerivesSeq, Reach;
    if c < g.n {
      TokenIsItem(g, t, c);
    } else {
      var k: nat, m: nat, d: nat, r: nat :| Before(g, c, k, m, i, j, d, r);
      StepAt(g, t.steps, c, k, m);
      if m < |g.rules[k].rhs| {
        StepAt(g, t.steps, c + 1, k, m + 1);
      }
    }
  }

  lemma TokenIsItem(g: Grammar, t: Tables, c: nat)
    requires TablesOf(g, t) && c < g.n
    ensures c < |t.steps| && t.steps[c] == c - g.n
  {
    hide StartersOf;
  }

  // ----- what happens to an item taken from the worklist ----------------------------------------------------

  /** The rules of the symbol after the dot become items of the state. */
  method AddStarters(ch: Chart, g: Grammar, t: Tables, j: nat, step: nat)
    requires ch.Valid() && j < |ch.states| && TablesOf(g, t) && step < g.n && Sound(g, ch.shapes[j].Members(), j)
    requires Foreseen(g, step, j)
    modifies ch
    ensures ch.Valid() && Extends(old(ch.shapes), ch.shapes, j) && Sound(g, ch.shapes[j].Members(), j)
    ensures forall s :: s in t.starters[step] ==> (s, j) in ch.shapes[j].Members()
  {
    hide Chart.Valid, Sound, Grew, Shape.Members, StepsOf, StartersOf;
    var l := t.starters[step];
    var a := 0;
    ExtendsSelf(ch.shapes, j);
    while a < |l|
      invariant 0 <= a <= |l|
      invariant ch.Valid() && Extends(old(ch.shapes), ch.shapes, j) && Sound(g, ch.shapes[j].Members(), j)
      invariant forall b :: 0 <= b < a ==> (l[b], j) in ch.shapes[j].Members()
    {
      ghost var was := ch.shapes;
      SoundStart(g, t, was[j].Members(), step, l[a], j);
      ch.Adjoin(j, l[a], j);
      ExtendsTransitive(old(ch.shapes), was, ch.shapes, j);
      a := a + 1;
    }
  }

  /** The symbol after the dot of conf c may derive nothing: if one of its finished items is
      already here with origin j, every item of conf c moves its dot. */
  method SkipNulls(ch: Chart, g: Grammar, t: Tables, j: nat, c: nat)
    requires ch.Valid() && j < |ch.states| && TablesOf(g, t) && Sound(g, ch.shapes[j].Members(), j)
    requires c < |t.steps| && 0 <= t.steps[c] < g.n && c in ch.shapes[j].lists
    modifies ch
    ensures ch.Valid() && Extends(old(ch.shapes), ch.shapes, j) && Sound(g, ch.shapes[j].Members(), j)
    ensures Skipped(t, old(ch.shapes[j]), ch.shapes[j], j, c)
  {
    hide Chart.Valid, Sound, Grew, Shape.Members, StepsOf, StartersOf, With, Extends, Means;
    ghost var list := ch.shapes[j].lists[c].merged;
    var l := t.enders[t.steps[c]];
    var a := 0;
    ExtendsSelf(ch.shapes, j);
    while a < |l|
      invariant 0 <= a <= |l|
      invariant ch.Valid() && Extends(old(ch.shapes), ch.shapes, j) && Sound(g, ch.shapes[j].Members(), j)
      invariant forall b :: 0 <= b < a && (l[b], j) in old(ch.shapes[j]).Members() ==> With(c + 1, list) <= ch.shapes[j].Members()
    {
      ghost var was := ch.shapes;
      KeptList(old(ch.shapes), was, j, c);
      EnderCompletes(g, t, c, l[a]);
      HasMember(was[j], l[a], j);
      var m := ch.Member(j, l[a], j);
      if m {
        KeysOf(ch, j);
        SoundSkip(g, t, was[j], c, l[a], j);
        ch.Advance(j, c + 1, j, c);
        IsExtended(was, ch.shapes, j);
        ExtendsTransitive(old(ch.shapes), was, ch.shapes, j);
      }
      ExtendsMembers(old(ch.shapes), was, j);
      a := a + 1;
    }
  }

  lemma EnderCompletes(g: Grammar, t: Tables, p: nat, e: int)
    requires TablesOf(g, t) && p < |t.steps| && 0 <= t.steps[p] < g.n
    ensures e in t.enders[t.steps[p]] <==> Completes(g, t, p, e)
  {
    hide StepsOf, StartersOf, GoodGrammar, Base;
  }

  ghost predicate Skipped(t: Tables, was: Shape, now: Shape, j: nat, c: int)
    requires 0 <= c < |t.steps| && 0 <= t.steps[c] < |t.enders| && c in was.lists
  {
    forall e :: e in t.enders[t.steps[c]] && (e, j) in was.Members() ==> With(c + 1, was.lists[c].merged) <= now.Members()
  }

  lemma KeptList(was: seq<Shape>, now: seq<Shape>, j: nat, c: int)
    requires Extends(was, now, j) && c in was[j].lists
    ensures |now| == |was| && c in now[j].lists && now[j].lists[c].merged == was[j].lists[c].merged
  {
    hide Shape.Members;
  }

  lemma KeysOf(ch: Chart, j: nat)
    requires ch.Valid() && j < |ch.states|
    ensures |ch.shapes| == |ch.states| && ch.states[j].sets.Keys == ch.shapes[j].lists.Keys
  {
    hide Represents;
  }

  lemma IsExtended(was: seq<Shape>, now: seq<Shape>, j: nat)
    requires |was| == |now| && j < |was| && now == was[j := now[j]] && Grew(was[j], now[j])
    ensures Extends(was, now, j)
  {
  }

  lemma SoundSkip(g: Grammar, t: Tables, h: Shape, c: int, e: int, j: nat)
    requires TablesOf(g, t) && Sound(g, h.Members(), j) && c in h.lists && h.Has(e, j) && Completes(g, t, c, e)
    ensures Sound(g, h.Members() + With(c + 1, h.lists[c].merged), j)
  {
    hide TablesOf;
    MergedMeans(g, h, c, j);
    HasMember(h, e, j);
    SoundAdvance(g, t, h.Members(), c, h.lists[c].merged, j, e, j);
  }

  lemma MergedMeans(g: Grammar, h: Shape, c: int, j: nat)
    requires Sound(g, h.Members(), j) && c in h.lists
    ensures forall i: int :: i in h.lists[c].merged ==> i >= 0 && Means(g, c, i, j)
  {
    hide Means;
    forall i: int | i in h.lists[c].merged ensures i >= 0 && Means(g, c, i, j) {
      assert (c, i) in h.Members();
    }
  }

  /** A finished item, dealt with for the origins from head on, moves the dot of conf pred in the
      state of each of these origins. */
  method CompleteFor(ch: Chart, g: Grammar, t: Tables, j: nat, c: nat, head: int, pred: nat, ghost pre: nat)
    requires ch.Valid() && j < |ch.states| && TablesOf(g, t) && Completes(g, t, pred, c)
    requires SoundUpTo(g, ch.shapes, j) && c in ch.shapes[j].lists
    requires pre <= |ch.shapes[j].lists[c].merged| && head == First(ch.shapes[j].lists[c].merged[pre..])
    modifies ch
    ensures ch.Valid() && Extends(old(ch.shapes), ch.shapes, j) && SoundUpTo(g, ch.shapes, j)
    ensures forall i :: i in old(ch.shapes[j]).lists[c].merged[pre..] ==> Advanced(old(ch.shapes), ch.shapes[j], pred, i)
  {
    hide Chart.Valid, SoundUpTo, Grew, Shape.Members, TablesOf, With, Extends, Means, Advanced;
    ghost var list := ch.shapes[j].lists[c].merged;
    ghost var k := pre;
    var i := head;
    ExtendsSelf(ch.shapes, j);
    while i >= 0
      invariant ch.Valid() && Extends(old(ch.shapes), ch.shapes, j) && SoundUpTo(g, ch.shapes, j)
      invariant pre <= k <= |list| && i == First(list[k..])
      invariant forall b :: pre <= b < k ==> Advanced(old(ch.shapes), ch.shapes[j], pred, list[b])
      decreases |list| - k
    {
      ghost var was := ch.shapes;
      KeptList(old(ch.shapes), was, j, c);
      OriginBelow(g, was, j, c, k);
      KeysOf(ch, i);
      ExtendsSelf(was, j);
      if pred in ch.states[i].sets {
        SoundComplete(g, t, was, j, c, i, pred);
        ch.Advance(j, pred + 1, i, pred);
        IsExtended(was, ch.shapes, j);
        NowSound(g, was, ch.shapes, j);
        ExtendsTransitive(old(ch.shapes), was, ch.shapes, j);
      }
      NowAdvanced(old(ch.shapes), was, ch.shapes, j, pred, i);
      AdvancedKept(old(ch.shapes), was, ch.shapes, j, pred);
      KeptList(old(ch.shapes), ch.shapes, j, c);
      NextLink(ch, j, c, k);
      i := ch.states[j].sets[c][i + 5];
      k := k + 1;
    }
    KeptList(old(ch.shapes), ch.shapes, j, c);
    AllSeen(ch, j, c, k);
    forall x | x in list[pre..] ensures Advanced(old(ch.shapes), ch.shapes[j], pred, x) {
      var b :| pre <= b < |list| && list[b] == x;
    }
  }

  /** The states up to j hold only what is true of the input. */
  ghost predicate SoundUpTo(g: Grammar, shapes: seq<Shape>, j: nat)
    requires j < |shapes|
  {
    forall i :: 0 <= i <= j ==> Sound(g, shapes[i].Members(), i)
  }

  /** What state i had dealt with for conf p has its dot moved in h. */
  ghost predicate Advanced(was: seq<Shape>, h: Shape, p: int, i: int) {
    0 <= i < |was| && (p in was[i].lists ==> With(p + 1, was[i].lists[p].merged) <= h.Members())
  }

  lemma OriginBelow(g: Grammar, shapes: seq<Shape>, j: nat, c: int, k: nat)
    requires j < |shapes| && SoundUpTo(g, shapes, j) && c in shapes[j].lists && k < |shapes[j].lists[c].merged|
    ensures 0 <= shapes[j].lists[c].merged[k] <= j && Means(g, c, shapes[j].lists[c].merged[k], j)
  {
    hide Means;
    var l, i := shapes[j].lists[c], shapes[j].lists[c].merged[k];
    assert i in l.All() by {
      assert l.All()[k] == i;
    }
    assert (c, i) in shapes[j].Members() && Sound(g, shapes[j].Members(), j);
    MeansForward(g, c, i, j);
  }

  lemma SoundComplete(g: Grammar, t: Tables, shapes: seq<Shape>, j: nat, c: int, i: nat, p: int)
    requires TablesOf(g, t) && j < |shapes| && SoundUpTo(g, shapes, j) && Completes(g, t, p, c)
    requires i <= j && Means(g, c, i, j) && p in shapes[i].lists
    ensures Sound(g, shapes[j].Members() + With(p + 1, shapes[i].lists[p].merged), j)
  {
    hide TablesOf, Means, Shape.Members;
    assert Sound(g, shapes[i].Members(), i);
    MergedMeans(g, shapes[i], p, i);
    SoundAdvance(g, t, shapes[j].Members(), p, shapes[i].lists[p].merged, i, c, j);
  }

  lemma NowSound(g: Grammar, was: seq<Shape>, now: seq<Shape>, j: nat)
    requires Extends(was, now, j) && SoundUpTo(g, was, j) && Sound(g, now[j].Members(), j)
    ensures SoundUpTo(g, now, j)
  {
    hide Sound, Shape.Members, Grew;
  }

  lemma NowAdvanced(first: seq<Shape>, was: seq<Shape>, now: seq<Shape>, j: nat, p: int, i: nat)
    requires Extends(first, was, j) && Extends(was, now, j) && i < |first|
    requires p in was[i].lists ==> With(p + 1, was[i].lists[p].merged) <= now[j].Members()
    ensures Advanced(first, now[j], p, i)
  {
    hide Shape.Members, With;
    if p in first[i].lists {
      StillThere(first, was, j, i, p);
    }
  }

  lemma AdvancedKept(first: seq<Shape>, was: seq<Shape>, now: seq<Shape>, j: nat, p: int)
    requires Extends(was, now, j)
    ensures forall i :: Advanced(first, was[j], p, i) ==> Advanced(first, now[j], p, i)
  {
    hide Shape.Members, With;
  }

  lemma NextLink(ch: Chart, j: nat, c: int, k: nat)
    requires ch.Valid() && j < |ch.states| && c in ch.shapes[j].lists && k < |ch.shapes[j].lists[c].merged|
    ensures c in ch.states[j].sets && ch.shapes[j].lists[c].merged[k] >= 0
    ensures ch.shapes[j].lists[c].merged[k] + 5 in ch.states[j].sets[c]
    ensures ch.states[j].sets[c][ch.shapes[j].lists[c].merged[k] + 5] == First(ch.shapes[j].lists[c].merged[k + 1..])
  {
    hide Represents;
    NextMember(ch.states[j], ch.shapes[j], c, k);
  }

  /** The last link was followed. */
  lemma AllSeen(ch: Chart, j: nat, c: int, k: nat)
    requires ch.Valid() && j < |ch.states| && c in ch.shapes[j].lists && k <= |ch.shapes[j].lists[c].merged|
    requires First(ch.shapes[j].lists[c].merged[k..]) < 0
    ensures k == |ch.shapes[j].lists[c].merged|
  {
    hide Represents;
    MergedIndices(ch.states[j], ch.shapes[j], c);
    FirstIn(ch.shapes[j].lists[c].merged, k);
  }

  /** A finished item moves the dot of every item that waits for its symbol. */
  method CompleteAll(ch: Chart, g: Grammar, t: Tables, j: nat, c: nat, head: int, ghost pre: nat)
    requires ch.Valid() && j < |ch.states| && TablesOf(g, t)
    requires c < |t.steps| && 0 - g.n <= t.steps[c] < 0
    requires SoundUpTo(g, ch.shapes, j) && c in ch.shapes[j].lists
    requires pre <= |ch.shapes[j].lists[c].merged| && head == First(ch.shapes[j].lists[c].merged[pre..])
    modifies ch
    ensures ch.Valid() && Extends(old(ch.shapes), ch.shapes, j) && SoundUpTo(g, ch.shapes, j)
    ensures forall p, i :: Completes(g, t, p, c) && i in old(ch.shapes[j]).lists[c].merged[pre..]
              ==> Advanced(old(ch.shapes), ch.shapes[j], p, i)
  {
    hide Chart.Valid, SoundUpTo, Grew, Shape.Members, StepsOf, StartersOf, With, Extends, Means, Advanced;
    ghost var list := ch.shapes[j].lists[c].merged;
    var l := t.predictors[t.steps[c] + g.n];
    var a := 0;
    ExtendsSelf(ch.shapes, j);
    while a < |l|
      invariant 0 <= a <= |l|
      invariant ch.Valid() && Extends(old(ch.shapes), ch.shapes, j) && SoundUpTo(g, ch.shapes, j)
      invariant forall b, i :: 0 <= b < a && i in list[pre..] ==> Advanced(old(ch.shapes), ch.shapes[j], l[b], i)
    {
      ghost var was := ch.shapes;
      KeptList(old(ch.shapes), was, j, c);
      PredictorCompletes(g, t, l[a], c);
      CompleteFor(ch, g, t, j, c, head, l[a], pre);
      ExtendsTransitive(old(ch.shapes), was, ch.shapes, j);
      forall b, i | 0 <= b < a + 1 && i in list[pre..] ensures Advanced(old(ch.shapes), ch.shapes[j], l[b], i) {
        if b < a {
          AdvancedKept(old(ch.shapes), was, ch.shapes, j, l[b]);
        } else {
          AdvancedSince(old(ch.shapes), was, ch.shapes, j, l[a], i);
        }
      }
      a := a + 1;
    }
    forall p, i | Completes(g, t, p, c) && i in list[pre..] ensures Advanced(old(ch.shapes), ch.shapes[j], p, i) {
      PredictorCompletes(g, t, p, c);
      var b :| 0 <= b < |l| && l[b] == p;
    }
  }

  lemma PredictorCompletes(g: Grammar, t: Tables, p: int, c: nat)
    requires TablesOf(g, t) && c < |t.steps| && 0 - g.n <= t.steps[c] < 0
    ensures p in t.predictors[t.steps[c] + g.n] <==> Completes(g, t, p, c)
  {
    hide StepsOf, StartersOf, GoodGrammar;
  }

  lemma AdvancedSince(first: seq<Shape>, was: seq<Shape>, now: seq<Shape>, j: nat, p: int, i: int)
    requires Extends(first, was, j) && Extends(was, now, j) && Advanced(was, now[j], p, i)
    ensures Advanced(first, now[j], p, i)
  {
    hide Shape.Members, With;
    if p in first[i].lists {
      StillThere(first, was, j, i, p);
    }
  }

  // ----- the worklist ------------------------------------------------------------------------------------------

  /** What holds whenever the worklist of state j is looked at: everything that follows from the
      items already dealt with is in the state. */
  ghost predicate Settled(g: Grammar, t: Tables, shapes: seq<Shape>, j: nat)
    requires j < |shapes|
  {
    && SoundUpTo(g, shapes, j)
    && Predicted(t, shapes[j].Merged(), shapes[j].Members(), j)
    && (forall i :: 0 <= i <= j ==> Completed(g, t, shapes[i].Merged(), shapes[j].Merged(), shapes[j].Members(), i))
  }

  lemma PredictedStep(t: Tables, done: set<(int, int)>, all: set<(int, int)>, done': set<(int, int)>,
                      all': set<(int, int)>, j: int, c: int)
    requires Predicted(t, done, all, j) && all <= all'
    requires forall p, i :: (p, i) in done' ==> (p, i) in done || p == c
    requires forall s :: Starts(t, c, s) ==> (s, j) in all'
    ensures Predicted(t, done', all', j)
  {
    hide Starts;
  }

  /** Conf c is dealt with: done becomes done', and waiting becomes waiting' if it is the same state. */
  lemma CompletedStep(g: Grammar, t: Tables, waiting: set<(int, int)>, done: set<(int, int)>, all: set<(int, int)>,
                      waiting': set<(int, int)>, done': set<(int, int)>, all': set<(int, int)>, i: int, c: int)
    requires Completed(g, t, waiting, done, all, i) && all <= all'
    requires forall p, h :: (p, h) in waiting' ==> (p, h) in waiting || p == c
    requires forall e, h :: (e, h) in done' ==> (e, h) in done || e == c
    requires forall p, h :: (p, h) in waiting' && (c, i) in done' && (c, i) !in done && Completes(g, t, p, c) ==>
               (p + 1, h) in all'
    requires forall e, h :: (c, h) in waiting' && (c, h) !in waiting && (e, i) in done' && Completes(g, t, c, e) ==>
               (c + 1, h) in all'
    ensures Completed(g, t, waiting', done', all', i)
  {
    hide Completes;
  }

  /** Taking an item from the worklist of state j. */
  ghost predicate Pops(was: seq<Shape>, mid: seq<Shape>, j: nat, c: int) {
    && j < |was| && was[j].work != [] && c == was[j].work[0] && c in was[j].lists
    && mid == was[j := was[j].Popped()]
  }

  lemma PopsMerged(was: seq<Shape>, mid: seq<Shape>, j: nat, c: int)
    requires Pops(was, mid, j, c)
    ensures mid[j].Members() == was[j].Members() && mid[j].Merged() == was[j].Merged() + With(c, was[j].lists[c].recent)
    ensures mid[j].lists[c].merged == was[j].lists[c].merged + was[j].lists[c].recent && c in mid[j].lists
  {
    MembersOfPopped(was[j]);
  }

  lemma MergedIsMember(h: Shape)
    ensures h.Merged() <= h.Members()
  {
  }

  lemma SettledPredicted(g: Grammar, t: Tables, was: seq<Shape>, mid: seq<Shape>, now: seq<Shape>, j: nat, c: int)
    requires j < |was| && Settled(g, t, was, j) && Pops(was, mid, j, c) && Extends(mid, now, j)
    requires forall s :: Starts(t, c, s) ==> (s, j) in now[j].Members()
    ensures Predicted(t, now[j].Merged(), now[j].Members(), j)
  {
    PopsMerged(was, mid, j, c);
    ExtendsMembers(mid, now, j);
    GrewMerged(mid[j], now[j]);
    hide Shape.Members, Shape.Merged, Predicted, SoundUpTo, Grew;
    PredictedStep(t, was[j].Merged(), was[j].Members(), now[j].Merged(), now[j].Members(), j, c);
  }

  lemma InMerged(h: Shape, c: int, i: int)
    ensures (c, i) in h.Merged() <==> c in h.lists && i in h.lists[c].merged
  {
  }

  lemma InWith(c: int, list: seq<int>, i: int)
    ensures i in list <==> (c, i) in With(c, list)
  {
  }

  lemma WithOnly(c: int, list: seq<int>)
    ensures forall p, i :: (p, i) in With(c, list) ==> p == c
  {
  }

  /** After a waiting item has been dealt with. */
  lemma SettledSkipped(g: Grammar, t: Tables, was: seq<Shape>, mid: seq<Shape>, now: seq<Shape>, j: nat, c: int, i: nat)
    requires TablesOf(g, t) && j < |was| && i <= j && Settled(g, t, was, j) && Pops(was, mid, j, c)
      && Extends(mid, now, j)
    requires 0 <= c < |t.steps| && 0 <= t.steps[c] < g.n
    requires forall e :: e in t.enders[t.steps[c]] && (e, j) in mid[j].Members() ==> With(c + 1, mid[j].lists[c].merged) <= now[j].Members()
    ensures Completed(g, t, now[i].Merged(), now[j].Merged(), now[j].Members(), i)
  {
    hide Shape.Members, Shape.Merged, Completed, SoundUpTo, Grew, TablesOf, Predicted, With;
    PopsMerged(was, mid, j, c);
    ExtendsMembers(mid, now, j);
    GrewMerged(mid[j], now[j]);
    MergedIsMember(mid[j]);
    WithOnly(c, was[j].lists[c].recent);
    forall e, h | (c, h) in now[i].Merged() && (c, h) !in was[i].Merged() && (e, i) in now[j].Merged() && Completes(g, t, c, e)
      ensures (c + 1, h) in now[j].Members()
    {
      InMerged(mid[j], c, h);
      EnderCompletes(g, t, c, e);
      InWith(c + 1, mid[j].lists[c].merged, h);
    }
    CompletedStep(g, t, was[i].Merged(), was[j].Merged(), was[j].Members(), now[i].Merged(), now[j].Merged(),
      now[j].Members(), i, c);
  }

  /** After a finished item has been dealt with. */
  lemma SettledCompleted(g: Grammar, t: Tables, was: seq<Shape>, mid: seq<Shape>, now: seq<Shape>, j: nat, c: int,
    i: nat)
    requires TablesOf(g, t) && j < |was| && i <= j && Settled(g, t, was, j) && Pops(was, mid, j, c)
      && Extends(mid, now, j)
    requires 0 <= c < |t.steps| && t.steps[c] < 0
    requires forall p :: Completes(g, t, p, c) && i in was[j].lists[c].recent ==> Advanced(mid, now[j], p, i)
    ensures Completed(g, t, now[i].Merged(), now[j].Merged(), now[j].Members(), i)
  {
    PopsMerged(was, mid, j, c);
    ExtendsMembers(mid, now, j);
    GrewMerged(mid[j], now[j]);
    forall p, h | (p, h) in now[i].Merged() && (c, i) in now[j].Merged() && (c, i) !in was[j].Merged() && Completes(g, t, p, c)
      ensures (p + 1, h) in now[j].Members()
    {
      assert i in was[j].lists[c].recent && Advanced(mid, now[j], p, i);
      assert (p, h) in mid[i].Merged();
      assert (p + 1, h) in With(p + 1, mid[i].lists[p].merged);
    }
    hide Shape.Members, Shape.Merged, Completed, SoundUpTo, Grew, StepsOf, StartersOf, Predicted, Advanced;
    CompletedStep(g, t, was[i].Merged(), was[j].Merged(), was[j].Members(), now[i].Merged(), now[j].Merged(),
      now[j].Members(), i, c);
  }

  lemma PopsSound(g: Grammar, was: seq<Shape>, mid: seq<Shape>, j: nat, c: int)
    requires Pops(was, mid, j, c) && SoundUpTo(g, was, j)
    ensures SoundUpTo(g, mid, j)
  {
    hide Sound;
    PopsMerged(was, mid, j, c);
  }

  /** The confs of the worklist are the grammar's. */
  lemma PopsItem(g: Grammar, t: Tables, was: seq<Shape>, mid: seq<Shape>, j: nat, c: int)
    requires TablesOf(g, t) && Pops(was, mid, j, c) && SoundUpTo(g, was, j) && was[j].WellFormed()
    ensures 0 <= c < |t.steps| && 0 - g.n <= t.steps[c] < g.n && (t.steps[c] >= 0 ==> c + 1 < |t.steps|)
  {
    hide TablesOf, Means;
    var l := was[j].lists[c];
    assert c in was[j].work && l.recent != [];
    var i := l.recent[0];
    assert i in l.All() && (c, i) in was[j].Members() && Sound(g, was[j].Members(), j);
    ItemStep(g, t, c, i, j);
  }

  lemma PopsForesees(g: Grammar, t: Tables, was: seq<Shape>, mid: seq<Shape>, j: nat, c: int)
    requires TablesOf(g, t) && Pops(was, mid, j, c) && SoundUpTo(g, was, j) && was[j].WellFormed()
    requires 0 <= c < |t.steps| && t.steps[c] >= 0
    ensures Foreseen(g, t.steps[c], j)
  {
    hide StepsOf, StartersOf, GoodGrammar, Means, Foreseen;
    var l := was[j].lists[c];
    assert c in was[j].work && l.recent != [];
    var i := l.recent[0];
    assert i in l.All() && (c, i) in was[j].Members() && Sound(g, was[j].Members(), j);
    MeansForesees(g, t.steps, c, i, j);
  }

  lemma ShapeFormed(ch: Chart, j: nat)
    requires ch.Valid() && j < |ch.states|
    ensures ch.shapes[j].WellFormed() && (ch.states[j].todo < 0 <==> ch.shapes[j].work == [])
  {
    hide Represents;
    if ch.shapes[j].work != [] {
      assert ch.shapes[j].work[0] in ch.shapes[j].work;
    }
  }

  /** One turn of forw's loop. */
  method Step(ch: Chart, g: Grammar, t: Tables, j: nat)
    requires ch.Valid() && j < |ch.states| && TablesOf(g, t) && Settled(g, t, ch.shapes, j)
    requires ch.states[j].todo >= 0
    modifies ch
    ensures ch.Valid() && |ch.shapes| == |old(ch.shapes)| && ch.shapes == old(ch.shapes)[j := ch.shapes[j]]
    ensures Settled(g, t, ch.shapes, j)
    ensures Progress(old(ch.shapes[j]), ch.shapes[j])
  {
    hide Chart.Valid, SoundUpTo, Grew, Shape.Members, TablesOf, With, Extends, Means, Shape.Merged, Predicted,
      Completed, Advanced, Starts,
         Completes, Shape.WellFormed;
    ghost var was := ch.shapes;
    ShapeFormed(ch, j);
    var c, head := ch.Pop(j);
    ghost var mid := ch.shapes;
    PopsMerged(was, mid, j, c);
    PopsSound(g, was, mid, j, c);
    PopsItem(g, t, was, mid, j, c);
    SoundHere(g, mid, j);
    if t.steps[c] >= 0 {
      TableSizes(g, t);
      PopsForesees(g, t, was, mid, j, c);
      AddStarters(ch, g, t, j, t.steps[c]);
      ghost var most := ch.shapes;
      KeptList(mid, most, j, c);
      SkipNulls(ch, g, t, j, c);
      ExtendsMembers(mid, most, j);
      ExtendsMembers(most, ch.shapes, j);
      ExtendsTransitive(mid, most, ch.shapes, j);
      WaitingSettled(g, t, was, mid, most, ch.shapes, j, c);
    } else {
      ghost var pre := |was[j].lists[c].merged|;
      assert mid[j].lists[c].merged[pre..] == was[j].lists[c].recent;
      CompleteAll(ch, g, t, j, c, head, pre);
      FinishedSettled(g, t, was, mid, ch.shapes, j, c);
    }
    Progresses(was, mid, ch.shapes, j, c);
    OneState(was, mid, ch.shapes, j);
  }

  lemma OneState(was: seq<Shape>, mid: seq<Shape>, now: seq<Shape>, j: nat)
    requires j < |was| && |mid| == |was| && mid == was[j := mid[j]] && Extends(mid, now, j)
    ensures |now| == |was| && now == was[j := now[j]]
  {
    hide Grew;
  }

  ghost predicate Progress(was: Shape, now: Shape) {
    was.Members() <= now.Members() && (was.Members() == now.Members() ==> |now.work| < |was.work|)
  }

  lemma Progresses(was: seq<Shape>, mid: seq<Shape>, now: seq<Shape>, j: nat, c: int)
    requires Pops(was, mid, j, c) && Extends(mid, now, j)
    ensures Progress(was[j], now[j])
  {
    hide Shape.Members;
    PopsMerged(was, mid, j, c);
  }

  lemma SoundHere(g: Grammar, shapes: seq<Shape>, j: nat)
    requires j < |shapes| && SoundUpTo(g, shapes, j)
    ensures Sound(g, shapes[j].Members(), j)
  {
  }

  lemma TableSizes(g: Grammar, t: Tables)
    requires TablesOf(g, t)
    ensures |t.starters| == g.n && |t.enders| == g.n && |t.predictors| == g.n
  {
  }

  lemma WaitingSettled(g: Grammar, t: Tables, was: seq<Shape>, mid: seq<Shape>, most: seq<Shape>, now: seq<Shape>,
    j: nat, c: int)
    requires TablesOf(g, t) && j < |was| && Settled(g, t, was, j) && Pops(was, mid, j, c)
    requires Extends(mid, most, j) && Extends(most, now, j) && Extends(mid, now, j) && SoundUpTo(g, mid, j)
    requires Sound(g, now[j].Members(), j)
    requires 0 <= c < |t.steps| && 0 <= t.steps[c] < g.n && |t.starters| == g.n && |t.enders| == g.n
    requires forall s :: s in t.starters[t.steps[c]] ==> (s, j) in most[j].Members()
    requires c in most[j].lists && Skipped(t, most[j], now[j], j, c)
    ensures Settled(g, t, now, j)
  {
    hide TablesOf, Shape.Members, Shape.Merged, SoundUpTo, Predicted, Completed, With, Sound, Grew;
    NowSound(g, mid, now, j);
    ExtendsMembers(mid, most, j);
    ExtendsMembers(most, now, j);
    PopsMerged(was, mid, j, c);
    KeptList(mid, most, j, c);
    SettledPredicted(g, t, was, mid, now, j, c);
    forall i | 0 <= i <= j ensures Completed(g, t, now[i].Merged(), now[j].Merged(), now[j].Members(), i) {
      SettledSkipped(g, t, was, mid, now, j, c, i);
    }
  }

  lemma FinishedSettled(g: Grammar, t: Tables, was: seq<Shape>, mid: seq<Shape>, now: seq<Shape>, j: nat, c: int)
    requires TablesOf(g, t) && j < |was| && Settled(g, t, was, j) && Pops(was, mid, j, c)
    requires Extends(mid, now, j) && SoundUpTo(g, now, j)
    requires 0 <= c < |t.steps| && t.steps[c] < 0
    requires forall p, i :: Completes(g, t, p, c) && i in was[j].lists[c].recent ==> Advanced(mid, now[j], p, i)
    ensures Settled(g, t, now, j)
  {
    hide TablesOf, Shape.Members, Shape.Merged, SoundUpTo, Predicted, Completed, Advanced, Sound, Grew;
    SettledPredicted(g, t, was, mid, now, j, c);
    forall i | 0 <= i <= j ensures Completed(g, t, now[i].Merged(), now[j].Merged(), now[j].Members(), i) {
      SettledCompleted(g, t, was, mid, now, j, c, i);
    }
  }

  /** All the items that state j could ever have. */
  ghost function Universe(t: Tables, j: nat): set<(int, int)> {
    set c: int, i: int | 0 <= c < |t.steps| && 0 <= i <= j :: (c, i)
  }

  lemma IsItemOf(t: Tables, c: int, i: int, j: nat)
    requires 0 <= c < |t.steps| && 0 <= i <= j
    ensures (c, i) in Universe(t, j)
  {
  }

  lemma InUniverse(g: Grammar, t: Tables, all: set<(int, int)>, j: nat)
    requires TablesOf(g, t) && Sound(g, all, j)
    ensures all <= Universe(t, j)
  {
    hide TablesOf, Means, Universe;
    forall p | p in all ensures p in Universe(t, j) {
      var (c, i) := p;
      ItemStep(g, t, c, i, j);
      MeansForward(g, c, i, j);
      IsItemOf(t, c, i, j);
    }
  }

  /** forw: with the items put there from outside, state j gets every item that follows. */
  method Forward(ch: Chart, g: Grammar, t: Tables, j: nat)
    requires ch.Valid() && j < |ch.states| && TablesOf(g, t)
    requires SoundUpTo(g, ch.shapes, j) && ch.shapes[j].Merged() == {}
    modifies ch
    ensures ch.Valid() && |ch.shapes| == |old(ch.shapes)| && ch.shapes == old(ch.shapes)[j := ch.shapes[j]]
    ensures old(ch.shapes[j]).Members() <= ch.shapes[j].Members()
    ensures Settled(g, t, ch.shapes, j) && ch.shapes[j].work == [] && ch.shapes[j].Members() == ch.shapes[j].Merged()
  {
    hide Chart.Valid, SoundUpTo, Shape.Members, TablesOf, Means, Shape.Merged, Predicted, Completed, Settled,
      Shape.WellFormed, Sound, Universe;
    StartsSettled(g, t, ch.shapes, j);
    SettledInUniverse(g, t, ch.shapes, j);
    while ch.states[j].todo >= 0
      invariant ch.Valid() && |ch.shapes| == |old(ch.shapes)| && ch.shapes == old(ch.shapes)[j := ch.shapes[j]]
      invariant Settled(g, t, ch.shapes, j) && ch.shapes[j].Members() <= Universe(t, j)
      invariant old(ch.shapes[j]).Members() <= ch.shapes[j].Members()
      decreases Universe(t, j) - ch.shapes[j].Members(), |ch.shapes[j].work|
    {
      ghost var was := ch.shapes[j];
      Step(ch, g, t, j);
      SettledInUniverse(g, t, ch.shapes, j);
      Shrinks(Universe(t, j), was.Members(), ch.shapes[j].Members());
    }
    ShapeFormed(ch, j);
    NothingLeft(ch.shapes[j]);
  }

  lemma Shrinks(u: set<(int, int)>, a: set<(int, int)>, b: set<(int, int)>)
    requires a <= b <= u
    ensures u - b <= u - a && (u - b == u - a ==> a == b)
  {
    if u - b == u - a {
      forall x | x in b ensures x in a {
        assert x !in u - b;
      }
    }
  }

  lemma StartsSettled(g: Grammar, t: Tables, shapes: seq<Shape>, j: nat)
    requires j < |shapes| && SoundUpTo(g, shapes, j) && shapes[j].Merged() == {}
    ensures Settled(g, t, shapes, j)
  {
    hide Sound, Shape.Members, Shape.Merged, Completes, Starts;
  }

  lemma SettledInUniverse(g: Grammar, t: Tables, shapes: seq<Shape>, j: nat)
    requires TablesOf(g, t) && j < |shapes| && Settled(g, t, shapes, j)
    ensures shapes[j].Members() <= Universe(t, j)
  {
    hide TablesOf, Shape.Members, Sound, Predicted, Completed, Universe;
    InUniverse(g, t, shapes[j].Members(), j);
  }
}
