/** The chart of the Earley parser: one vector of item sets for each place in the input, filled in
    place. The operations on the vectors are those on sets of origins with a worklist of the sets that
    have new members. */
module EarleyChart {
  import opened EarleyGrammar
  import opened EarleySets

  /** h' has everything h has, and nothing more has been dealt with. */
  ghost predicate Grew(h: Shape, h': Shape) {
    && h.lists.Keys <= h'.lists.Keys
    && (forall c :: c in h'.lists ==> h'.lists[c].merged == if c in h.lists then h.lists[c].merged else [])
    && h.Members() <= h'.Members()
    && (h'.Members() == h.Members() ==> h'.work == h.work)
  }

  /** Conf c with each of the origins in a list. */
  ghost function With(c: int, list: seq<int>): set<(int, int)> {
    set i | i in list :: (c, i)
  }

  lemma GrewTransitive(a: Shape, b: Shape, c: Shape)
    requires Grew(a, b) && Grew(b, c)
    ensures Grew(a, c)
  {
    hide Shape.Members;
  }

  lemma GrewMerged(a: Shape, b: Shape)
    requires Grew(a, b)
    ensures a.Merged() == b.Merged()
  {
    hide Shape.Members;
    forall x, y ensures (x, y) in a.Merged() <==> (x, y) in b.Merged() {
    }
  }

  lemma GrewAdded(h: Shape, c: int)
    ensures Grew(h, h.Added(c))
  {
    MembersOfAdded(h, c);
    hide Shape.Members;
  }

  lemma GrewAdjoined(h: Shape, c: int, i: int)
    requires c in h.lists && !h.Has(c, i)
    ensures Grew(h, h.Adjoined(c, i))
  {
    assert (c, i) !in h.Members();
    MembersOfAdjoined(h, c, i);
    assert (c, i) in h.Adjoined(c, i).Members();
    hide Shape.Members;
  }

  /** The members of state j have their slots inside its sets. */
  ghost predicate InRange(h: Shape, j: nat) {
    forall c, i :: (c, i) in h.Members() ==> i + 5 < Slots(j)
  }

  lemma AdjoinedInRange(h: Shape, j: nat, c: int, i: int)
    requires InRange(h, j) && c in h.lists && i <= j
    ensures InRange(h.Adjoined(c, i), j)
  {
    MembersOfAdjoined(h, c, i);
    hide Shape.Members;
  }

  /** No set was made without a member. */
  ghost predicate NoneEmpty(h: Shape) {
    forall c :: c in h.lists ==> h.lists[c].All() != []
  }

  lemma AdjoinedNoneEmpty(h: Shape, c: int, i: int)
    requires NoneEmpty(h)
    ensures h.Added(c).Has(c, i) ==> NoneEmpty(h.Added(c))
    ensures c in h.Added(c).lists && NoneEmpty(h.Added(c).Adjoined(c, i))
  {
  }

  class Chart {
    var states: seq<State>
    ghost var shapes: seq<Shape>

    ghost predicate Valid()
      reads this
      ensures Valid() ==> |states| == |shapes|
    {
      && |states| == |shapes|
      && (forall j :: 0 <= j < |states| ==> Depicts(states[j], shapes[j]))
      && (forall j :: 0 <= j < |states| ==> InRange(shapes[j], j))
    }

    /** make_states: states 0 to n, all empty. */
    constructor (n: nat)
      ensures Valid() && |states| == n + 1
      ensures forall j :: 0 <= j <= n ==> shapes[j] == Shape(map[], [])
    {
      states := seq(n + 1, _ => State(-1, map[]));
      shapes := seq(n + 1, _ => Shape(map[], []));
    }

    /** Whether slot i of a set is not false: for i up to j, whether origin i is a member of
        conf c, and past the end of the set, whether there is a set at all. */
    predicate Member(j: nat, c: int, i: nat)
      requires Valid() && j < |states|
      reads this
      ensures i <= j ==> Member(j, c, i) == shapes[j].Has(c, i)
      ensures i > j ==> Member(j, c, i) == (c in shapes[j].lists)
    {
      if c in states[j].sets then
        MemberSlot(states[j].sets[c], shapes[j].lists[c], i);
        IsSet(states[j].sets[c], i + 5, j)
      else
        false
    }

    /** conf_set_get*: makes the set of conf c if it is not there yet. */
    method Get(j: nat, c: int)
      requires Valid() && j < |states|
      modifies this
      ensures Valid() && shapes == old(shapes)[j := old(shapes[j]).Added(c)]
    {
      hide Depicts, Shape.Members;
      AddedDepicts(states[j], shapes[j], c);
      MembersOfAdded(shapes[j], c);
      states := states[j := states[j].Added(c)];
      shapes := shapes[j := shapes[j].Added(c)];
    }

    /** Makes origin i a member of conf c in state j unless it is. */
    method Adjoin(j: nat, c: nat, i: nat)
      requires Valid() && j < |states| && i <= j
      modifies this
      ensures Valid() && |shapes| == |old(shapes)| && shapes == old(shapes)[j := shapes[j]]
      ensures Grew(old(shapes[j]), shapes[j])
      ensures shapes[j].Members() == old(shapes[j]).Members() + {(c, i)}
      ensures NoneEmpty(old(shapes[j])) ==> NoneEmpty(shapes[j])
    {
      hide Depicts, Grew, Shape.Members, NoneEmpty, InRange, State.Added, State.Adjoined, Header;
      ghost var was := shapes[j];
      if NoneEmpty(was) {
        AdjoinedNoneEmpty(was, c, i);
      }
      Get(j, c);
      ghost var h := shapes[j];
      GrewAdded(was, c);
      MembersOfAdded(was, c);
      var m := Member(j, c, i);
      if !m {
        AdjoinedDepicts(states[j], h, c, i);
        AdjoinedInRange(h, j, c, i);
        DepictsKeys(states[j], h);
        GrewAdjoined(h, c, i);
        GrewTransitive(was, h, h.Adjoined(c, i));
        MembersOfAdjoined(h, c, i);
        states := states[j := states[j].Adjoined(c, i)];
        shapes := shapes[j := h.Adjoined(c, i)];
      } else {
        HasMember(h, c, i);
      }
    }

    /** Takes the first conf of the worklist and counts its new members, from head on, as dealt with. */
    method Pop(j: nat) returns (c: int, head: int)
      requires Valid() && j < |states| && states[j].todo >= 0
      modifies this
      ensures Valid() && old(shapes[j]).work != [] && c == old(shapes[j]).work[0] && c in old(shapes[j]).lists
      ensures shapes == old(shapes)[j := old(shapes[j]).Popped()]
      ensures head == First(old(shapes[j]).lists[c].recent)
    {
      hide Represents, Shape.Members;
      PoppedDepicts(states[j], shapes[j]);
      MembersOfPopped(shapes[j]);
      c := states[j].todo;
      head := states[j].sets[c][4];
      states := states[j := states[j].Popped()];
      shapes := shapes[j := shapes[j].Popped()];
    }

    /** conf_set_union: the members that state o has dealt with for conf p become members of conf c. */
    method Union(j: nat, c: nat, o: nat, p: int)
      requires Valid() && o <= j < |states| && p in states[o].sets
      modifies this
      ensures Valid() && |shapes| == |old(shapes)| && shapes == old(shapes)[j := shapes[j]]
      ensures Grew(old(shapes[j]), shapes[j]) && p in old(shapes[o]).lists
      ensures shapes[j].Members() == old(shapes[j]).Members() + With(c, old(shapes[o]).lists[p].merged)
    {
      hide Depicts, Grew, Shape.Members, With;
      DepictsKeys(states[o], shapes[o]);
      MergedIndices(states[o], shapes[o], p);
      NoneYet(c);
      ghost var was, list := shapes[j], shapes[o].lists[p].merged;
      GrewSelf(was);
      ghost var k := 0;
      var i := states[o].sets[p][2];
      while i >= 0
        invariant Valid() && |shapes| == |old(shapes)| && shapes == old(shapes)[j := shapes[j]]
        invariant Grew(was, shapes[j])
        invariant 0 <= k <= |list| && i == First(list[k..])
        invariant shapes[j].Members() == was.Members() + With(c, list[..k])
        decreases |list| - k
      {
        ghost var h := shapes[j];
        StillThere(old(shapes), shapes, j, o, p);
        NextMember(states[o], shapes[o], p, k);
        MergedInRange(shapes[o], o, p, k);
        Adjoin(j, c, i);
        GrewTransitive(was, h, shapes[j]);
        StillThere(old(shapes), shapes, j, o, p);
        NextMember(states[o], shapes[o], p, k);
        OneMore(list, k, c);
        i := states[o].sets[p][i + 5];
        k := k + 1;
      }
      FirstIn(list, k);
      assert list[..k] == list;
    }

    /** The set of conf c is made if need be and takes in that of conf p in state o. */
    method Advance(j: nat, c: nat, o: nat, p: int)
      requires Valid() && o <= j < |states| && p in states[o].sets
      modifies this
      ensures Valid() && |shapes| == |old(shapes)| && shapes == old(shapes)[j := shapes[j]]
      ensures Grew(old(shapes[j]), shapes[j]) && p in old(shapes[o]).lists
      ensures shapes[j].Members() == old(shapes[j]).Members() + With(c, old(shapes[o]).lists[p].merged)
    {
      hide Depicts, Grew, Shape.Members, With, InRange;
      ghost var was := shapes;
      DepictsKeys(states[o], shapes[o]);
      GrewAdded(was[j], c);
      MembersOfAdded(was[j], c);
      Get(j, c);
      ghost var h := shapes[j];
      StillThere(was, shapes, j, o, p);
      DepictsKeys(states[o], shapes[o]);
      Union(j, c, o, p);
      GrewTransitive(was[j], h, shapes[j]);
    }
  }

  lemma HasMember(h: Shape, c: int, i: int)
    ensures h.Has(c, i) <==> (c, i) in h.Members()
  {
  }

  lemma GrewSelf(h: Shape)
    ensures Grew(h, h)
  {
  }

  lemma DepictsKeys(s: State, h: Shape)
    requires Depicts(s, h)
    ensures s.sets.Keys == h.lists.Keys
    ensures forall c :: c in s.sets ==> Header(s.sets[c], h.lists[c])
  {
  }

  lemma StillThere(was: seq<Shape>, now: seq<Shape>, j: nat, o: nat, p: int)
    requires |was| == |now| && j < |was| && o < |was| && now == was[j := now[j]] && Grew(was[j], now[j])
    requires p in was[o].lists
    ensures p in now[o].lists && now[o].lists[p].merged == was[o].lists[p].merged
  {
    hide Shape.Members;
  }

  lemma FirstIn(list: seq<int>, k: nat)
    requires k <= |list|
    ensures k < |list| ==> First(list[k..]) in list
  {
  }

  lemma NoneYet(c: int)
    ensures With(c, []) == {}
  {
  }

  lemma MergedIndices(s: State, h: Shape, p: int)
    requires Depicts(s, h) && p in h.lists
    ensures forall i :: i in h.lists[p].merged ==> i >= 0
  {
    assert Represents(s.sets[p], h.lists[p]);
    ChainIndices(s.sets[p], h.lists[p].merged);
  }

  lemma MergedInRange(h: Shape, j: nat, p: int, k: nat)
    requires InRange(h, j) && p in h.lists && k < |h.lists[p].merged|
    ensures h.lists[p].merged[k] <= j
  {
    assert h.lists[p].All()[k] == h.lists[p].merged[k];
    assert (p, h.lists[p].merged[k]) in h.Members();
  }

  /** Following the links visits the members in turn. */
  lemma NextMember(s: State, h: Shape, p: int, k: nat)
    requires Depicts(s, h) && p in h.lists && k < |h.lists[p].merged|
    ensures p in s.sets && h.lists[p].merged[k] >= 0
    ensures h.lists[p].merged[k] + 5 in s.sets[p]
    ensures s.sets[p][h.lists[p].merged[k] + 5] == First(h.lists[p].merged[k + 1..])
  {
    assert Represents(s.sets[p], h.lists[p]);
    assert Linked(s.sets[p], h.lists[p].merged, k);
  }

  lemma OneMore(list: seq<int>, k: nat, c: int)
    requires k < |list|
    ensures With(c, list[..k + 1]) == With(c, list[..k]) + {(c, list[k])}
  {
    assert list[..k + 1] == list[..k] + [list[k]];
    forall x, y ensures (x, y) in With(c, list[..k + 1]) <==> (x, y) in With(c, list[..k]) || (x, y) == (c, list[k]) {
    }
  }
}
