/** The item sets of the Earley parser, threaded through vectors.

    A conf set is a vector: slot i + 5 is set when origin i is a member and then holds the next
    member. Two lists run through it, the members already dealt with (first in slot 2, last in
    slot 1) and the new ones (first in slot 4, last in slot 3). Slot 0 links the sets of a state
    that have new members. A list ends with -1; slot 1 starts as -3 and an empty list of new
    members has its last in slot 3 as -1, so that adding 5 lands on the slot of the first. A slot
    never written holds false and is missing from the map; a slot past the end of the vector is
    undefined, and so not false. */
module EarleySets {

  type Vec = map<int, int>

  /** The sets of state j are made with this many slots. */
  function Slots(j: nat): nat {
    j + 6
  }

  /** A slot of a set of state j is not false. */
  predicate IsSet(v: Vec, slot: nat, j: nat) {
    slot in v || slot >= Slots(j)
  }

  /** What a conf set stands for. */
  datatype Lists = Lists(merged: seq<int>, recent: seq<int>) {
    ghost function All(): seq<int> { merged + recent }
  }

  ghost predicate Distinct(s: seq<int>) {
    forall a, b :: 0 <= a < b < |s| ==> s[a] != s[b]
  }

  function First(s: seq<int>): int {
    if s == [] then -1 else s[0]
  }

  function Last(s: seq<int>, none: int): int {
    if s == [] then none else s[|s| - 1]
  }

  /** Each element's slot holds the next element, the last one's holds -1. */
  ghost predicate Chain(v: Vec, s: seq<int>) {
    forall a :: 0 <= a < |s| ==> Linked(v, s, a)
  }

  ghost predicate Linked(v: Vec, s: seq<int>, a: int)
    requires 0 <= a < |s|
  {
    s[a] >= 0 && s[a] + 5 in v && v[s[a] + 5] == First(s[a + 1..])
  }

  ghost predicate Represents(v: Vec, l: Lists) {
    && Header(v, l)
    && Chain(v, l.merged) && Chain(v, l.recent)
    && Distinct(l.All())
    && (forall k :: k in v && k >= 5 ==> k - 5 in l.All())
  }

  ghost predicate Header(v: Vec, l: Lists) {
    && 1 in v && 2 in v && 3 in v && 4 in v
    && v[1] == Last(l.merged, -3) && v[2] == First(l.merged)
    && v[3] == Last(l.recent, -1) && v[4] == First(l.recent)
  }

  const NO_MEMBERS: Vec := map[1 := -3, 2 := -1, 3 := -1, 4 := -1]

  /** The set after origin i is put at the end of the new members; todo is the state's slot 0. */
  function Appended(v: Vec, i: int, todo: int): (r: Vec)
    requires 3 in v
  {
    var tail := v[3];
    var r := v[i + 5 := -1][tail + 5 := i][3 := i];
    if tail < 0 then r[0 := todo] else r
  }

  /** The set after its new members are moved to the end of the others. */
  function NewMerged(v: Vec): (r: Vec)
    requires 1 in v && 3 in v && 4 in v
  {
    var r := v[v[1] + 5 := v[4]];
    r[1 := r[3]][3 := -1][4 := -1]
  }

  lemma NoMembersRepresents()
    ensures Represents(NO_MEMBERS, Lists([], []))
  {
  }

  /** A chain runs over indices, never over the slots of the header. */
  lemma ChainIndices(v: Vec, s: seq<int>)
    requires Chain(v, s)
    ensures forall i :: i in s ==> i >= 0 && i + 5 in v
  {
    forall i | i in s ensures i >= 0 && i + 5 in v {
      var a :| 0 <= a < |s| && s[a] == i;
      assert Linked(v, s, a);
    }
  }

  lemma MemberSlot(v: Vec, l: Lists, i: int)
    requires Represents(v, l) && i >= 0
    ensures i + 5 in v <==> i in l.All()
  {
    hide Chain, Distinct;
    ChainIndices(v, l.merged);
    ChainIndices(v, l.recent);
  }

  /** The slots of the elements of s are the same in both vectors. */
  ghost predicate Agree(v: Vec, r: Vec, s: seq<int>) {
    forall i :: i in s ==> SameSlot(v, r, i)
  }

  ghost predicate SameSlot(v: Vec, r: Vec, i: int) {
    i + 5 in v ==> i + 5 in r && r[i + 5] == v[i + 5]
  }

  lemma ChainKept(v: Vec, r: Vec, s: seq<int>)
    requires Chain(v, s) && Agree(v, r, s)
    ensures Chain(r, s)
  {
    forall a | 0 <= a < |s| ensures Linked(r, s, a) {
      assert Linked(v, s, a) && s[a] in s;
    }
  }

  /** Linking the last element of s to the first of t joins the two. */
  lemma ChainJoined(v: Vec, r: Vec, s: seq<int>, t: seq<int>)
    requires Chain(v, s) && s != [] && Chain(r, t) && Agree(v, r, s[..|s| - 1])
    requires s[|s| - 1] + 5 in r && r[s[|s| - 1] + 5] == First(t)
    ensures Chain(r, s + t)
  {
    hide Agree, Chain;
    var u := s + t;
    forall a | 0 <= a < |u| ensures Linked(r, u, a) {
      if a < |s| {
        JoinedLeft(v, r, s, t, a);
      } else {
        JoinedRight(r, s, t, a);
      }
    }
    assert Chain(r, u) by { ChainOf(r, u); }
  }

  lemma ChainOf(v: Vec, s: seq<int>)
    requires forall a :: 0 <= a < |s| ==> Linked(v, s, a)
    ensures Chain(v, s)
  {
  }

  lemma JoinedLeft(v: Vec, r: Vec, s: seq<int>, t: seq<int>, a: int)
    requires Chain(v, s) && 0 <= a < |s| && Agree(v, r, s[..|s| - 1])
    requires s[|s| - 1] + 5 in r && r[s[|s| - 1] + 5] == First(t)
    ensures Linked(r, s + t, a)
  {
    assert Linked(v, s, a);
    if a == |s| - 1 {
      assert (s + t)[a + 1..] == t;
    } else {
      assert s[..|s| - 1][a] == s[a] && s[a] in s[..|s| - 1];
      assert (s + t)[a + 1..] == s[a + 1..] + t;
    }
  }

  lemma JoinedRight(r: Vec, s: seq<int>, t: seq<int>, a: int)
    requires Chain(r, t) && |s| <= a < |s| + |t|
    ensures Linked(r, s + t, a)
  {
    assert Linked(r, t, a - |s|);
    assert (s + t)[a + 1..] == t[a - |s| + 1..];
  }

  /** The last element of a part of the list is not anywhere else in it. */
  lemma LastDiffers(s: seq<int>, t: seq<int>)
    requires Distinct(s + t) && s != []
    ensures s[|s| - 1] !in s[..|s| - 1] && s[|s| - 1] !in t
    ensures forall i :: i in s[..|s| - 1] ==> i in s
  {
    forall a | 0 <= a < |t| ensures t[a] != s[|s| - 1] {
      assert (s + t)[|s| + a] == t[a] && (s + t)[|s| - 1] == s[|s| - 1];
    }
    forall a | 0 <= a < |s| - 1 ensures s[a] != s[|s| - 1] {
      assert (s + t)[a] == s[a] && (s + t)[|s| - 1] == s[|s| - 1];
    }
  }

  lemma AppendedRepresents(v: Vec, l: Lists, i: int, todo: int)
    requires Represents(v, l) && i >= 0 && i !in l.All()
    ensures Represents(Appended(v, i, todo), Lists(l.merged, l.recent + [i]))
  {
    hide Chain, Agree, Distinct;
    var r, f := Appended(v, i, todo), l.recent;
    assert Lists(l.merged, f + [i]).All() == l.All() + [i];
    AppendedChains(v, l, i, todo);
    ChainIndices(v, f);
    assert f == [] || f[|f| - 1] in f;
    AppendedDistinct(l.All(), i);
  }

  lemma AppendedDistinct(s: seq<int>, i: int)
    requires Distinct(s) && i !in s
    ensures Distinct(s + [i])
  {
  }

  lemma AppendedChains(v: Vec, l: Lists, i: int, todo: int)
    requires Represents(v, l) && i >= 0 && i !in l.All()
    ensures Chain(Appended(v, i, todo), l.merged) && Chain(Appended(v, i, todo), l.recent + [i])
  {
    hide Chain, Distinct;
    var r, f := Appended(v, i, todo), l.recent;
    ChainIndices(v, l.merged);
    ChainIndices(v, f);
    assert Chain(r, [i]) by { Single(r, i); }
    if f != [] {
      assert (f + l.merged)[|f| - 1] == f[|f| - 1];
      Rotated(l.merged, f);
      LastDiffers(f, l.merged);
      assert f[|f| - 1] in f;
      forall x | x in f[..|f| - 1] ensures SameSlot(v, r, x) {
        assert x in f && x in l.All();
      }
      ChainJoined(v, r, f, [i]);
    } else {
      assert f + [i] == [i];
    }
    ChainKept(v, r, l.merged);
  }

  lemma Single(v: Vec, i: int)
    requires i >= 0 && i + 5 in v && v[i + 5] == -1
    ensures Chain(v, [i])
  {
    assert Linked(v, [i], 0);
  }

  lemma Rotated(s: seq<int>, t: seq<int>)
    requires Distinct(s + t)
    ensures Distinct(t + s)
  {
    forall a, b | 0 <= a < b < |t + s| ensures (t + s)[a] != (t + s)[b] {
      var a' := if a < |t| then |s| + a else a - |t|;
      var b' := if b < |t| then |s| + b else b - |t|;
      assert (s + t)[a'] == (t + s)[a] && (s + t)[b'] == (t + s)[b];
    }
  }

  lemma MergedRepresents(v: Vec, l: Lists)
    requires Represents(v, l) && l.recent != []
    ensures Represents(NewMerged(v), Lists(l.merged + l.recent, []))
  {
    hide Chain, Agree, Distinct;
    var s := l.merged + l.recent;
    assert Lists(s, []).All() == l.All();
    MergedChain(v, l);
    ChainIndices(v, l.merged);
    assert l.merged == [] || l.merged[|l.merged| - 1] in l.merged;
    EmptyChain(NewMerged(v));
  }

  lemma EmptyChain(v: Vec)
    ensures Chain(v, [])
  {
  }

  lemma MergedChain(v: Vec, l: Lists)
    requires Represents(v, l) && l.recent != []
    ensures 1 in v && 3 in v && 4 in v && Chain(NewMerged(v), l.merged + l.recent)
  {
    hide Chain, Distinct;
    var r := NewMerged(v);
    ChainIndices(v, l.merged);
    ChainIndices(v, l.recent);
    if l.merged != [] {
      LastDiffers(l.merged, l.recent);
      ChainKept(v, r, l.recent);
      assert l.merged[|l.merged| - 1] in l.merged;
      forall x | x in l.merged[..|l.merged| - 1] ensures SameSlot(v, r, x) {
        assert x in l.merged;
      }
      ChainJoined(v, r, l.merged, l.recent);
    } else {
      ChainKept(v, r, l.recent);
      assert l.merged + l.recent == l.recent;
    }
  }

  // ----- a state: its conf sets and the list of those with new members --------------------------------

  /** sets[c] is the vector in slot c + 1 of the state, todo its slot 0. */
  datatype State = State(todo: int, sets: map<int, Vec>) {
    function Added(c: int): State {
      if c in sets then this else this.(sets := sets[c := NO_MEMBERS])
    }

    function Adjoined(c: int, i: int): State
      requires c in sets && 3 in sets[c]
    {
      State(if sets[c][3] < 0 then c else todo, sets[c := Appended(sets[c], i, todo)])
    }

    function Popped(): State
      requires todo in sets && 0 in sets[todo] && 1 in sets[todo] && 3 in sets[todo] && 4 in sets[todo]
    {
      State(sets[todo][0], sets[todo := NewMerged(sets[todo])])
    }
  }

  /** What a state stands for: the lists of each conf, and the confs with new members in turn. */
  datatype Shape = Shape(lists: map<int, Lists>, work: seq<int>) {
    ghost function Added(c: int): Shape {
      if c in lists then this else this.(lists := lists[c := Lists([], [])])
    }

    ghost function Adjoined(c: int, i: int): Shape
      requires c in lists
    {
      var l := lists[c];
      Shape(lists[c := Lists(l.merged, l.recent + [i])], if l.recent == [] then [c] + work else work)
    }

    ghost function Popped(): Shape
      requires work != [] && work[0] in lists
    {
      var l := lists[work[0]];
      Shape(lists[work[0] := Lists(l.merged + l.recent, [])], work[1..])
    }

    ghost predicate Has(c: int, i: int) {
      c in lists && i in lists[c].All()
    }

    ghost function Members(): set<(int, int)> {
      set c, i | c in lists && i in lists[c].All() :: (c, i)
    }

    /** The members that have been dealt with. */
    ghost function Merged(): set<(int, int)> {
      set c, i | c in lists && i in lists[c].merged :: (c, i)
    }

    ghost predicate WellFormed() {
      && (forall c :: c in lists ==> (c in work <==> lists[c].recent != []))
      && (forall c :: c in work ==> c in lists && c >= 0)
      && Distinct(work)
    }
  }

  ghost predicate Depicts(s: State, h: Shape) {
    && s.sets.Keys == h.lists.Keys
    && (forall c :: c in h.lists ==> Represents(s.sets[c], h.lists[c]))
    && h.WellFormed()
    && s.todo == First(h.work)
    && WorkChain(s, h.work)
  }

  /** Slot 0 of each set in the worklist holds the conf after it. */
  ghost predicate WorkChain(s: State, w: seq<int>) {
    forall a :: 0 <= a < |w| ==> Follows(s, w, a)
  }

  ghost predicate Follows(s: State, w: seq<int>, a: int)
    requires 0 <= a < |w|
  {
    w[a] in s.sets && 0 in s.sets[w[a]] && s.sets[w[a]][0] == First(w[a + 1..])
  }

  lemma AddedDepicts(s: State, h: Shape, c: int)
    requires Depicts(s, h)
    ensures Depicts(s.Added(c), h.Added(c))
  {
    hide Represents, Distinct;
    NoMembersRepresents();
    forall a | 0 <= a < |h.work| ensures Follows(s.Added(c), h.work, a) {
      assert Follows(s, h.work, a);
    }
  }

  lemma AdjoinedDepicts(s: State, h: Shape, c: int, i: int)
    requires Depicts(s, h) && c >= 0 && c in h.lists && i >= 0 && i !in h.lists[c].All()
    ensures 3 in s.sets[c] && Depicts(s.Adjoined(c, i), h.Adjoined(c, i))
  {
    hide Represents;
    AppendedRepresents(s.sets[c], h.lists[c], i, s.todo);
    HeaderOf(s.sets[c], h.lists[c]);
    AdjoinedWork(s, h, c, i);
  }

  lemma HeaderOf(v: Vec, l: Lists)
    requires Represents(v, l)
    ensures Header(v, l)
    ensures l.recent != [] ==> l.recent[|l.recent| - 1] >= 0
    ensures l.merged != [] ==> l.merged[|l.merged| - 1] >= 0
  {
    hide Distinct;
    ChainIndices(v, l.recent);
    ChainIndices(v, l.merged);
    assert l.recent == [] || l.recent[|l.recent| - 1] in l.recent;
    assert l.merged == [] || l.merged[|l.merged| - 1] in l.merged;
  }

  lemma AdjoinedWork(s: State, h: Shape, c: int, i: int)
    requires Depicts(s, h) && c >= 0 && c in h.lists && i >= 0
    ensures 3 in s.sets[c] && WorkChain(s.Adjoined(c, i), h.Adjoined(c, i).work) && h.Adjoined(c, i).WellFormed()
  {
    HeaderOf(s.sets[c], h.lists[c]);
    AdjoinedWellFormed(h, c, i);
    hide Represents, Distinct;
    if h.lists[c].recent == [] {
      WorkInFront(s, h.work, c, i);
    } else {
      WorkStays(s, h.work, c, i);
    }
  }

  /** A conf without new members goes to the front of the worklist. */
  lemma WorkInFront(s: State, w: seq<int>, c: int, i: int)
    requires WorkChain(s, w) && c !in w && c in s.sets && 3 in s.sets[c] && s.sets[c][3] == -1 && s.todo == First(w)
      && i >= 0
    ensures WorkChain(s.Adjoined(c, i), [c] + w)
  {
    var r, w' := s.Adjoined(c, i), [c] + w;
    forall a | 0 <= a < |w'| ensures Follows(r, w', a) {
      if a == 0 {
        assert w'[1..] == w;
      } else {
        assert Follows(s, w, a - 1) && w'[a + 1..] == w[a..];
        assert w[a - 1] in w;
      }
    }
  }

  lemma WorkStays(s: State, w: seq<int>, c: int, i: int)
    requires WorkChain(s, w) && c in s.sets && 3 in s.sets[c] && s.sets[c][3] >= 0 && i >= 0
    ensures WorkChain(s.Adjoined(c, i), w)
  {
    var r := s.Adjoined(c, i);
    forall a | 0 <= a < |w| ensures Follows(r, w, a) {
      assert Follows(s, w, a);
    }
  }

  lemma AdjoinedWellFormed(h: Shape, c: int, i: int)
    requires h.WellFormed() && c >= 0 && c in h.lists
    ensures h.Adjoined(c, i).WellFormed()
  {
  }

  lemma PoppedDepicts(s: State, h: Shape)
    requires Depicts(s, h) && h.work != []
    ensures s.todo == h.work[0] >= 0 && s.todo in s.sets
    ensures Header(s.sets[s.todo], h.lists[s.todo]) && 0 in s.sets[s.todo]
    ensures Depicts(s.Popped(), h.Popped())
  {
    hide Represents;
    var c := h.work[0];
    assert c in h.work && Follows(s, h.work, 0);
    MergedRepresents(s.sets[c], h.lists[c]);
    HeaderOf(s.sets[c], h.lists[c]);
    PoppedWork(s, h);
  }

  lemma PoppedWork(s: State, h: Shape)
    requires Depicts(s, h) && h.work != [] && h.work[0] in h.lists && Header(s.sets[h.work[0]], h.lists[h.work[0]])
    requires h.lists[h.work[0]].merged != [] ==> s.sets[h.work[0]][1] >= 0
    requires 0 in s.sets[h.work[0]]
    ensures WorkChain(s.Popped(), h.work[1..]) && h.Popped().WellFormed()
  {
    hide Represents;
    var r, w := s.Popped(), h.work[1..];
    forall a | 0 <= a < |w| ensures Follows(r, w, a) {
      assert Follows(s, h.work, a + 1) && w[a + 1..] == h.work[a + 2..];
    }
  }

  // ----- what the operations do to the members ------------------------------------------------------

  lemma MembersOfAdded(h: Shape, c: int)
    ensures h.Added(c).Members() == h.Members() && h.Added(c).Merged() == h.Merged()
  {
    var r := h.Added(c);
    forall x, i
      ensures ((x, i) in r.Members() <==> (x, i) in h.Members()) && ((x, i) in r.Merged() <==> (x, i) in h.Merged())
    {
    }
  }

  lemma MembersOfAdjoined(h: Shape, c: int, i: int)
    requires c in h.lists
    ensures h.Adjoined(c, i).Members() == h.Members() + {(c, i)} && h.Adjoined(c, i).Merged() == h.Merged()
  {
    var r := h.Adjoined(c, i);
    assert r.lists[c].All() == h.lists[c].All() + [i];
    forall x, y ensures (x, y) in r.Members() <==> (x, y) in h.Members() || (x, y) == (c, i) {
    }
    forall x, y ensures (x, y) in r.Merged() <==> (x, y) in h.Merged() {
    }
  }

  lemma MembersOfPopped(h: Shape)
    requires h.work != [] && h.work[0] in h.lists
    ensures h.Popped().Members() == h.Members()
    ensures h.Popped().Merged() == h.Merged() + set i | i in h.lists[h.work[0]].recent :: (h.work[0], i)
  {
    var r, c := h.Popped(), h.work[0];
    assert r.lists[c].All() == h.lists[c].All();
    forall x, y ensures (x, y) in r.Members() <==> (x, y) in h.Members() {
    }
    forall x, y ensures (x, y) in r.Merged() <==> (x, y) in h.Merged() || (x == c && y in h.lists[c].recent) {
    }
  }

  /** With nothing left to do, every member has been dealt with. */
  lemma NothingLeft(h: Shape)
    requires h.WellFormed() && h.work == []
    ensures h.Members() == h.Merged()
  {
    forall c, i ensures (c, i) in h.Members() <==> (c, i) in h.Merged() {
      if c in h.lists {
        assert h.lists[c].recent == [];
        assert h.lists[c].All() == h.lists[c].merged;
      }
    }
  }
}
