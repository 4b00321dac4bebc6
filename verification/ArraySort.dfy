/** The sort of the array library, for any comparison function. */
module ArraySort {
  // Quicksort in three parts over insertion sort.

  type Comparator<!T> = (T, T) -> int

  /** The comparison is a total preorder. */
  ghost predicate Preorder<T(!new)>(cmp: Comparator<T>) {
    && (forall x, y :: cmp(x, y) < 0 <==> cmp(y, x) > 0)
    && (forall x, y, z :: cmp(x, y) <= 0 && cmp(y, z) <= 0 ==> cmp(x, z) <= 0)
  }

  ghost predicate Sorted<T>(cmp: Comparator<T>, s: seq<T>) {
    forall i, j :: 0 <= i < j < |s| ==> cmp(s[i], s[j]) <= 0
  }

  // ----- insertion sort ---------------------------------------------------------------------------------------------

  /** x goes behind the elements that do not compare greater, seen from the end. */
  function Inserted<T>(cmp: Comparator<T>, s: seq<T>, x: T): (r: seq<T>)
    ensures |r| == |s| + 1
  {
    if s != [] && cmp(s[|s| - 1], x) > 0 then Inserted(cmp, s[..|s| - 1], x) + [s[|s| - 1]] else s + [x]
  }

  function InsertionSorted<T>(cmp: Comparator<T>, s: seq<T>): (r: seq<T>)
    ensures |r| == |s|
  {
    if s == [] then [] else Inserted(cmp, InsertionSorted(cmp, s[..|s| - 1]), s[|s| - 1])
  }

  lemma {:induction false} InsertedElements<T>(cmp: Comparator<T>, s: seq<T>, x: T)
    ensures multiset(Inserted(cmp, s, x)) == multiset(s) + multiset{x}
    decreases |s|
  {
    if s != [] && cmp(s[|s| - 1], x) > 0 {
      InsertedElements(cmp, s[..|s| - 1], x);
      assert s == s[..|s| - 1] + [s[|s| - 1]];
    }
  }

  /** Insertion sort rearranges its input, whatever the comparison. */
  lemma {:induction false} InsertionElements<T>(cmp: Comparator<T>, s: seq<T>)
    ensures multiset(InsertionSorted(cmp, s)) == multiset(s)
    decreases |s|
  {
    if s != [] {
      InsertionElements(cmp, s[..|s| - 1]);
      InsertedElements(cmp, InsertionSorted(cmp, s[..|s| - 1]), s[|s| - 1]);
      assert s == s[..|s| - 1] + [s[|s| - 1]];
    }
  }

  lemma Transitive<T(!new)>(cmp: Comparator<T>, x: T, y: T, z: T)
    requires Preorder(cmp) && cmp(x, y) <= 0 && cmp(y, z) <= 0
    ensures cmp(x, z) <= 0
  {
  }

  lemma Opposite<T(!new)>(cmp: Comparator<T>, x: T, y: T)
    requires Preorder(cmp)
    ensures cmp(x, y) < 0 <==> cmp(y, x) > 0
  {
  }

  ghost predicate AllUpTo<T>(cmp: Comparator<T>, s: seq<T>, x: T) {
    forall i :: 0 <= i < |s| ==> cmp(s[i], x) <= 0
  }

  lemma {:induction false} InsertedUpTo<T>(cmp: Comparator<T>, s: seq<T>, x: T, last: T)
    requires AllUpTo(cmp, s, last) && cmp(x, last) <= 0
    ensures AllUpTo(cmp, Inserted(cmp, s, x), last)
    decreases |s|
  {
    if s != [] && cmp(s[|s| - 1], x) > 0 {
      InsertedUpTo(cmp, s[..|s| - 1], x, last);
    }
  }

  lemma SortedSnoc<T>(cmp: Comparator<T>, s: seq<T>, last: T)
    ensures Sorted(cmp, s + [last]) <==> Sorted(cmp, s) && AllUpTo(cmp, s, last)
  {
    var r := s + [last];
    if Sorted(cmp, r) {
      forall i, j | 0 <= i < j < |s| ensures cmp(s[i], s[j]) <= 0 {
        assert cmp(r[i], r[j]) <= 0;
      }
      forall i | 0 <= i < |s| ensures cmp(s[i], last) <= 0 {
        assert cmp(r[i], r[|s|]) <= 0;
      }
    }
  }

  lemma {:induction false} InsertedSorted<T(!new)>(cmp: Comparator<T>, s: seq<T>, x: T)
    requires Preorder(cmp) && Sorted(cmp, s)
    ensures Sorted(cmp, Inserted(cmp, s, x))
    decreases |s|
  {
    hide Preorder, Sorted, AllUpTo;
    if s == [] {
      SortedSnoc(cmp, [], x);
      NothingUpTo(cmp, x);
    } else {
      var front, last := s[..|s| - 1], s[|s| - 1];
      assert s == front + [last];
      SortedSnoc(cmp, front, last);
      if cmp(last, x) > 0 {
        Opposite(cmp, x, last);
        InsertedSorted(cmp, front, x);
        InsertedUpTo(cmp, front, x, last);
        SortedSnoc(cmp, Inserted(cmp, front, x), last);
      } else {
        UpToNext(cmp, front, last, x);
        SortedSnoc(cmp, s, x);
      }
    }
  }

  lemma NothingSorted<T>(cmp: Comparator<T>)
    ensures Sorted(cmp, [])
  {
  }

  lemma NothingUpTo<T>(cmp: Comparator<T>, x: T)
    ensures Sorted(cmp, []) && AllUpTo(cmp, [], x)
  {
  }

  lemma UpToNext<T(!new)>(cmp: Comparator<T>, s: seq<T>, last: T, x: T)
    requires Preorder(cmp) && AllUpTo(cmp, s, last) && cmp(last, x) <= 0
    ensures AllUpTo(cmp, s + [last], x)
  {
    hide Preorder;
    forall i | 0 <= i < |s| ensures cmp(s[i], x) <= 0 {
      Transitive(cmp, s[i], last, x);
    }
  }

  lemma {:induction false} InsertionIsSorted<T(!new)>(cmp: Comparator<T>, s: seq<T>)
    requires Preorder(cmp)
    ensures Sorted(cmp, InsertionSorted(cmp, s))
    decreases |s|
  {
    hide Preorder, Sorted;
    if s == [] {
      NothingSorted(cmp);
    } else {
      InsertionIsSorted(cmp, s[..|s| - 1]);
      InsertedSorted(cmp, InsertionSorted(cmp, s[..|s| - 1]), s[|s| - 1]);
    }
  }

  /** The elements that compare equal to x, in order. */
  function EqualTo<T>(cmp: Comparator<T>, s: seq<T>, x: T): (r: seq<T>) {
    if s == [] then []
    else EqualTo(cmp, s[..|s| - 1], x) + if cmp(s[|s| - 1], x) == 0 then [s[|s| - 1]] else []
  }

  lemma EqualToAdd<T>(cmp: Comparator<T>, s: seq<T>, y: T, x: T)
    ensures EqualTo(cmp, s + [y], x) == EqualTo(cmp, s, x) + if cmp(y, x) == 0 then [y] else []
  {
    assert (s + [y])[..|s|] == s;
  }

  /** Of two elements out of order not both are equal to x. */
  lemma NotBothEqual<T(!new)>(cmp: Comparator<T>, a: T, b: T, x: T)
    requires Preorder(cmp) && cmp(a, b) > 0
    ensures cmp(a, x) != 0 || cmp(b, x) != 0
  {
    if cmp(a, x) == 0 && cmp(b, x) == 0 {
      Opposite(cmp, x, b);
      Transitive(cmp, a, x, b);
    }
  }

  lemma {:induction false} InsertedStable<T(!new)>(cmp: Comparator<T>, s: seq<T>, y: T, x: T)
    requires Preorder(cmp)
    ensures EqualTo(cmp, Inserted(cmp, s, y), x) == EqualTo(cmp, s + [y], x)
    decreases |s|
  {
    hide Preorder, EqualTo;
    if s != [] && cmp(s[|s| - 1], y) > 0 {
      var front, last := s[..|s| - 1], s[|s| - 1];
      assert s == front + [last];
      InsertedStable(cmp, front, y, x);
      EqualToAdd(cmp, Inserted(cmp, front, y), last, x);
      EqualToAdd(cmp, front, y, x);
      EqualToAdd(cmp, front, last, x);
      EqualToAdd(cmp, s, y, x);
      NotBothEqual(cmp, last, y, x);
    }
  }

  /** Insertion sort is stable: elements that compare equal stay in order. */
  lemma {:induction false} InsertionStable<T(!new)>(cmp: Comparator<T>, s: seq<T>, x: T)
    requires Preorder(cmp)
    ensures EqualTo(cmp, InsertionSorted(cmp, s), x) == EqualTo(cmp, s, x)
    decreases |s|
  {
    hide Preorder, EqualTo, Inserted;
    if s != [] {
      var front, last := s[..|s| - 1], s[|s| - 1];
      assert front + [last] == s;
      InsertionStable(cmp, front, x);
      InsertedStable(cmp, InsertionSorted(cmp, front), last, x);
      EqualToAdd(cmp, InsertionSorted(cmp, front), last, x);
      EqualToAdd(cmp, front, last, x);
    }
  }

  method InsertionSort<T>(a: array<T>, from: nat, to: nat, cmp: Comparator<T>)
    requires from <= to <= a.Length
    modifies a
    ensures a[from..to] == InsertionSorted(cmp, old(a[from..to]))
    ensures a[..from] == old(a[..from]) && a[to..] == old(a[to..])
  {
    hide InsertionSorted, Inserted;
    var i := from + 1;
    ghost var was := a[..];
    FewSorted(cmp, was, from, to);
    while i < to
      invariant from < i && (i <= to || i == from + 1)
      invariant a[..from] == was[..from] && a[to..] == was[to..]
      invariant from < to ==> a[i..] == was[i..] && a[from..i] == InsertionSorted(cmp, was[from..i])
    {
      NextInserted(cmp, was, from, i);
      ghost var rest := a[i..];
      InsertOne(a, from, i, cmp);
      assert a[i + 1..] == rest[1..] == was[i + 1..];
      assert a[to..] == a[i + 1..][to - i - 1..];
      i := i + 1;
    }
  }

  lemma FewSorted<T>(cmp: Comparator<T>, s: seq<T>, from: nat, to: nat)
    requires from <= to <= |s|
    ensures from < to ==> InsertionSorted(cmp, s[from..from + 1]) == s[from..from + 1]
    ensures from == to ==> InsertionSorted(cmp, s[from..to]) == s[from..to]
  {
    if from < to {
      var one := s[from..from + 1];
      assert InsertionSorted(cmp, one[..0]) == [];
    }
  }

  lemma NextInserted<T>(cmp: Comparator<T>, s: seq<T>, from: nat, i: nat)
    requires from < i < |s|
    ensures InsertionSorted(cmp, s[from..i + 1]) == Inserted(cmp, InsertionSorted(cmp, s[from..i]), s[i])
  {
    assert s[from..i + 1][..i - from] == s[from..i];
  }

  /** The elements with a gap at j + 1, those from there to i one place up. */
  ghost function WithGap<T>(s: seq<T>, j: int, i: nat, x: T): (r: seq<T>)
    requires -1 <= j < i < |s|
    ensures |r| == |s| && r[j + 1] == x
  {
    s[..j + 1] + [x] + s[j + 1..i] + s[i + 1..]
  }

  lemma GapMoves<T>(s: seq<T>, j: nat, i: nat, x: T)
    requires j < i < |s|
    ensures WithGap(s, j, i, x)[j] == s[j] && WithGap(s, j, i, x)[j + 1 := s[j]] == WithGap(s, j - 1, i, s[j])
  {
  }

  lemma GapFilled<T>(s: seq<T>, from: nat, j: int, i: nat, x: T)
    requires from - 1 <= j < i < |s|
    ensures var r := WithGap(s, j, i, x);
      r[from..i + 1] == s[from..j + 1] + [x] + s[j + 1..i] && r[..from] == s[..from] && r[i + 1..] == s[i + 1..]
  {
  }

  lemma GapOther<T>(s: seq<T>, j: int, i: nat, x: T, y: T)
    requires -1 <= j < i < |s|
    ensures WithGap(s, j, i, x)[j + 1 := y] == WithGap(s, j, i, y)
  {
  }

  lemma InsertedFrom<T>(cmp: Comparator<T>, s: seq<T>, from: nat, j: nat, i: nat, x: T)
    requires from <= j < i <= |s| && cmp(s[j], x) > 0
    ensures Inserted(cmp, s[from..j + 1], x) + s[j + 1..i] == Inserted(cmp, s[from..j], x) + s[j..i]
  {
    assert s[from..j + 1][..j - from] == s[from..j];
    assert s[j..i] == [s[j]] + s[j + 1..i];
  }

  lemma InsertedHere<T>(cmp: Comparator<T>, s: seq<T>, from: nat, j: int, i: nat, x: T)
    requires from - 1 <= j < i <= |s| && (j >= from ==> cmp(s[j], x) <= 0)
    ensures Inserted(cmp, s[from..j + 1], x) + s[j + 1..i] == s[from..j + 1] + [x] + s[j + 1..i]
  {
  }

  /** The inner loop: the element at i goes to its place among those before it. */
  method InsertOne<T>(a: array<T>, from: nat, i: nat, cmp: Comparator<T>)
    requires from < i < a.Length
    modifies a
    ensures a[from..i + 1] == Inserted(cmp, old(a[from..i]), old(a[i]))
    ensures a[..from] == old(a[..from]) && a[i + 1..] == old(a[i + 1..])
  {
    hide WithGap, Inserted;
    ghost var was, now := a[..], a[..];
    var element := a[i];
    var j := i - 1;
    StartGap(cmp, was, from, i);
    while j >= from
      invariant from - 1 <= j < i && a[..] == now && now == WithGap(was, j, i, now[j + 1])
      invariant Inserted(cmp, was[from..i], element) == Inserted(cmp, was[from..j + 1], element) + was[j + 1..i]
      decreases j
    {
      GapMoves(was, j, i, now[j + 1]);
      assert now[j] == was[j];
      var tmp := a[j];
      var order := cmp(tmp, element);
      if order > 0 {
        InsertedFrom(cmp, was, from, j, i, element);
        a[j + 1] := tmp;
        now := now[j + 1 := tmp];
      } else {
        break;
      }
      j := j - 1;
    }
    InsertedHere(cmp, was, from, j, i, element);
    GapOther(was, j, i, now[j + 1], element);
    GapFilled(was, from, j, i, element);
    a[j + 1] := element;
    now := now[j + 1 := element];
    WholeSlices(a, now, from, i + 1);
  }

  lemma WholeSlices<T>(a: array<T>, s: seq<T>, from: nat, to: nat)
    requires a[..] == s && from <= to <= |s|
    ensures a[from..to] == s[from..to] && a[..from] == s[..from] && a[to..] == s[to..]
  {
  }

  lemma StartGap<T>(cmp: Comparator<T>, s: seq<T>, from: nat, i: nat)
    requires from < i < |s|
    ensures WithGap(s, i - 1, i, s[i]) == s
    ensures forall x :: Inserted(cmp, s[from..i], x) == Inserted(cmp, s[from..i], x) + s[i..i]
  {
  }

  // ----- quicksort
  // ------------------------------------------------------------------------------------------------------

  /** t has the elements of s, rearranged between from and to. */
  ghost predicate Rearranged<T>(s: seq<T>, t: seq<T>, from: nat, to: nat) {
    && from <= to <= |s| == |t|
    && s[..from] == t[..from] && s[to..] == t[to..] && multiset(s[from..to]) == multiset(t[from..to])
  }

  lemma RearrangedTransitive<T>(s: seq<T>, t: seq<T>, u: seq<T>, from: nat, to: nat)
    requires Rearranged(s, t, from, to) && Rearranged(t, u, from, to)
    ensures Rearranged(s, u, from, to)
  {
  }

  lemma RearrangedWider<T>(s: seq<T>, t: seq<T>, lo: nat, hi: nat, from: nat, to: nat)
    requires Rearranged(s, t, lo, hi) && from <= lo && hi <= to <= |s|
    ensures Rearranged(s, t, from, to)
  {
    assert s[..from] == s[..lo][..from] && t[..from] == t[..lo][..from];
    assert s[to..] == s[hi..][to - hi..] && t[to..] == t[hi..][to - hi..];
    ThreeSlices(s, from, lo, hi, to);
    ThreeSlices(t, from, lo, hi, to);
    assert s[from..lo] == s[..lo][from..] && t[from..lo] == t[..lo][from..];
    assert s[hi..to] == s[hi..][..to - hi] && t[hi..to] == t[hi..][..to - hi];
  }

  lemma ThreeSlices<T>(s: seq<T>, from: nat, lo: nat, hi: nat, to: nat)
    requires from <= lo <= hi <= to <= |s|
    ensures s[from..to] == s[from..lo] + s[lo..hi] + s[hi..to]
  {
    assert s[from..to] == s[from..lo] + s[lo..to];
    assert s[lo..to] == s[lo..hi] + s[hi..to];
  }

  lemma Swapped<T>(s: seq<T>, i: nat, j: nat, from: nat, to: nat)
    requires from <= i < to && from <= j < to && to <= |s|
    ensures Rearranged(s, Swap(s, i, j), from, to)
  {
    var t := Swap(s, i, j);
    var u := s[from..to];
    assert t[from..to] == u[i - from := u[j - from]][j - from := u[i - from]];
  }

  ghost function Swap<T>(s: seq<T>, i: nat, j: nat): (t: seq<T>)
    requires i < |s| && j < |s|
  {
    s[i := s[j]][j := s[i]]
  }

  method SwapElements<T>(a: array<T>, i: nat, j: nat, ghost s: seq<T>, ghost from: nat, ghost to: nat)
    returns (ghost t: seq<T>)
    requires from <= i < to && from <= j < to && to <= a.Length && a[..] == s
    modifies a
    ensures a[..] == t && t == Swap(s, i, j) && Rearranged(s, t, from, to)
  {
    t := Swap(s, i, j);
    Swapped(s, i, j, from, to);
    a[i], a[j] := a[j], a[i];
  }

  /** The elements between lo and hi satisfy a condition on their comparison with the pivot. */
  ghost predicate AllBelow<T>(cmp: Comparator<T>, s: seq<T>, lo: int, hi: int, pivot: T) {
    0 <= lo && hi <= |s| && forall k :: lo <= k < hi ==> cmp(s[k], pivot) < 0
  }

  ghost predicate AllAbove<T>(cmp: Comparator<T>, s: seq<T>, lo: int, hi: int, pivot: T) {
    0 <= lo && hi <= |s| && forall k :: lo <= k < hi ==> cmp(s[k], pivot) > 0
  }

  ghost predicate AllEqual<T>(cmp: Comparator<T>, s: seq<T>, lo: int, hi: int, pivot: T) {
    0 <= lo && hi <= |s| && forall k :: lo <= k < hi ==> s[k] == pivot || cmp(s[k], pivot) == 0
  }

  ghost predicate Parted<T>(cmp: Comparator<T>, s: seq<T>, from: nat, lowEnd: nat, i: nat, highStart: nat, to: nat,
    pivot: T) {
    && from <= lowEnd < i <= highStart <= to <= |s|
    && AllBelow(cmp, s, from, lowEnd, pivot) && AllEqual(cmp, s, lowEnd, i, pivot)
      && AllAbove(cmp, s, highStart, to, pivot)
  }

  lemma PartLow<T>(cmp: Comparator<T>, s: seq<T>, from: nat, lowEnd: nat, i: nat, highStart: nat, to: nat, pivot: T)
    requires Parted(cmp, s, from, lowEnd, i, highStart, to, pivot) && i < highStart && cmp(s[i], pivot) < 0
    ensures Parted(cmp, Swap(s, i, lowEnd), from, lowEnd + 1, i + 1, highStart, to, pivot)
  {
  }

  lemma PartHigh<T>(cmp: Comparator<T>, s: seq<T>, from: nat, lowEnd: nat, i: nat, highStart: nat, to: nat, pivot: T)
    requires Parted(cmp, s, from, lowEnd, i, highStart, to, pivot) && i < highStart && cmp(s[i], pivot) > 0
    ensures Parted(cmp, Swap(s, i, highStart - 1), from, lowEnd, i, highStart - 1, to, pivot)
  {
  }

  lemma PartEqual<T>(cmp: Comparator<T>, s: seq<T>, from: nat, lowEnd: nat, i: nat, highStart: nat, to: nat, pivot: T)
    requires Parted(cmp, s, from, lowEnd, i, highStart, to, pivot) && i < highStart && cmp(s[i], pivot) == 0
    ensures Parted(cmp, s, from, lowEnd, i + 1, highStart, to, pivot)
  {
  }

  /** The loop of QuickSort: smaller elements, then the pivot and its equals, then larger ones. */
  method Partition<T>(a: array<T>, from: nat, to: nat, cmp: Comparator<T>, pivotIndex: nat)
    returns (lowEnd: nat, highStart: nat)
    requires from <= pivotIndex < to <= a.Length
    modifies a
    ensures Rearranged(old(a[..]), a[..], from, to)
    ensures Parted(cmp, a[..], from, lowEnd, highStart, highStart, to, old(a[pivotIndex]))
  {
    hide Rearranged, Parted, Swap;
    ghost var was, now := a[..], a[..];
    var pivot := a[pivotIndex];
    now := SwapElements(a, from, pivotIndex, now, from, to);
    lowEnd := from;
    highStart := to;
    var i: nat := from + 1;
    StartParted(cmp, was, from, to, pivotIndex);
    while i < highStart
      invariant from <= lowEnd < i <= highStart <= to && a[..] == now
      invariant Parted(cmp, now, from, lowEnd, i, highStart, to, pivot) && Rearranged(was, now, from, to)
      decreases highStart - i
    {
      ghost var last := now;
      var element := a[i];
      assert now[i] == element;
      var order := cmp(element, pivot);
      if order < 0 {
        PartLow(cmp, now, from, lowEnd, i, highStart, to, pivot);
        now := SwapElements(a, i, lowEnd, now, from, to);
        RearrangedTransitive(was, last, now, from, to);
        i := i + 1;
        lowEnd := lowEnd + 1;
      } else if order > 0 {
        PartHigh(cmp, now, from, lowEnd, i, highStart, to, pivot);
        highStart := highStart - 1;
        now := SwapElements(a, i, highStart, now, from, to);
        RearrangedTransitive(was, last, now, from, to);
      } else {
        PartEqual(cmp, now, from, lowEnd, i, highStart, to, pivot);
        i := i + 1;
      }
    }
  }

  lemma StartParted<T>(cmp: Comparator<T>, s: seq<T>, from: nat, to: nat, pivotIndex: nat)
    requires from <= pivotIndex < to <= |s|
    ensures Parted(cmp, Swap(s, from, pivotIndex), from, from, from + 1, to, to, s[pivotIndex])
  {
  }

  /** Sorts the elements between from and to, with any choice of pivots. */
  method QuickSort<T(!new)>(a: array<T>, from: nat, to: nat, cmp: Comparator<T>)
    requires from <= to <= a.Length
    modifies a
    ensures Rearranged(old(a[..]), a[..], from, to)
    ensures Preorder(cmp) ==> Sorted(cmp, a[from..to])
    decreases (to - from)
  {
    hide Rearranged, Parted, Preorder, Sorted;
    ghost var was := a[..];
    if to - from <= 22 {
      InsertionSort(a, from, to, cmp);
      InsertionRearranges(cmp, was, a[..], from, to);
      assert a[from..to] == a[..][from..to];
      return;
    }
    var pivotIndex: nat :| from <= pivotIndex < to;
    ghost var pivot := a[pivotIndex];
    var lowEnd, highStart := Partition(a, from, to, cmp, pivotIndex);
    ghost var parted := a[..];
    PartedBounds(cmp, parted, from, lowEnd, highStart, to, pivot);
    QuickSort(a, from, lowEnd, cmp);
    ghost var half := a[..];
    assert a[from..lowEnd] == half[from..lowEnd];
    QuickSort(a, highStart, to, cmp);
    assert a[highStart..to] == a[..][highStart..to] && a[from..to] == a[..][from..to];
    BothHalves(cmp, was, parted, half, a[..], from, lowEnd, highStart, to, pivot);
  }

  lemma InsertionRearranges<T(!new)>(cmp: Comparator<T>, s: seq<T>, t: seq<T>, from: nat, to: nat)
    requires from <= to <= |s| == |t| && t[..from] == s[..from] && t[to..] == s[to..]
      && t[from..to] == InsertionSorted(cmp, s[from..to])
    ensures Rearranged(s, t, from, to) && (Preorder(cmp) ==> Sorted(cmp, t[from..to]))
  {
    hide Preorder, Sorted;
    InsertionElements(cmp, s[from..to]);
    if Preorder(cmp) {
      InsertionIsSorted(cmp, s[from..to]);
    }
  }

  lemma PartedBounds<T>(cmp: Comparator<T>, s: seq<T>, from: nat, lowEnd: nat, highStart: nat, to: nat, pivot: T)
    requires Parted(cmp, s, from, lowEnd, highStart, highStart, to, pivot)
    ensures from <= lowEnd < highStart <= to
  {
  }

  /** Sorting the two outer parts sorts the whole. */
  lemma BothHalves<T(!new)>(cmp: Comparator<T>, was: seq<T>, parted: seq<T>, half: seq<T>, s: seq<T>, from: nat,
    lowEnd: nat, highStart: nat, to: nat, pivot: T)
    requires Rearranged(was, parted, from, to) && Parted(cmp, parted, from, lowEnd, highStart, highStart, to, pivot)
    requires Rearranged(parted, half, from, lowEnd) && Rearranged(half, s, highStart, to)
    requires Preorder(cmp) ==> Sorted(cmp, half[from..lowEnd]) && Sorted(cmp, s[highStart..to])
    ensures Rearranged(was, s, from, to) && (Preorder(cmp) ==> Sorted(cmp, s[from..to]))
  {
    hide Preorder, Sorted, Parted, Rearranged;
    PartedBounds(cmp, parted, from, lowEnd, highStart, to, pivot);
    RearrangedSizes(was, parted, from, to);
    RearrangedSizes(parted, half, from, lowEnd);
    RearrangedSizes(half, s, highStart, to);
    RearrangedWider(parted, half, from, lowEnd, from, to);
    RearrangedWider(half, s, highStart, to, from, to);
    RearrangedTransitive(was, parted, half, from, to);
    RearrangedTransitive(was, half, s, from, to);
    if Preorder(cmp) {
      StillParted(cmp, parted, half, s, from, lowEnd, highStart, to, pivot);
      SortedParts(cmp, s, from, lowEnd, highStart, to, pivot);
    }
  }

  lemma RearrangedSizes<T>(s: seq<T>, t: seq<T>, from: nat, to: nat)
    requires Rearranged(s, t, from, to)
    ensures from <= to <= |s| == |t|
  {
  }

  lemma RearrangedMembers<T>(s: seq<T>, t: seq<T>, from: nat, to: nat, k: nat)
    requires Rearranged(s, t, from, to) && from <= k < to
    ensures exists x :: from <= x < to && s[x] == t[k]
  {
    assert t[from..to][k - from] in multiset(t[from..to]);
    assert t[k] in s[from..to];
  }

  lemma StillParted<T(!new)>(cmp: Comparator<T>, parted: seq<T>, half: seq<T>, s: seq<T>, from: nat, lowEnd: nat,
    highStart: nat, to: nat, pivot: T)
    requires Parted(cmp, parted, from, lowEnd, highStart, highStart, to, pivot)
    requires Rearranged(parted, half, from, lowEnd) && Rearranged(half, s, highStart, to)
    ensures Parted(cmp, s, from, lowEnd, highStart, highStart, to, pivot) && s[from..lowEnd] == half[from..lowEnd]
  {
    assert s[..highStart] == half[..highStart] && half[lowEnd..] == parted[lowEnd..];
    assert s[from..lowEnd] == s[..highStart][from..lowEnd] && half[from..lowEnd] == half[..highStart][from..lowEnd];
    forall k | from <= k < lowEnd ensures cmp(s[k], pivot) < 0 {
      assert s[..highStart][k] == half[..highStart][k];
      RearrangedMembers(parted, half, from, lowEnd, k);
    }
    forall k | lowEnd <= k < highStart ensures s[k] == parted[k] {
      assert s[..highStart][k] == half[..highStart][k] && half[lowEnd..][k - lowEnd] == parted[lowEnd..][k - lowEnd];
    }
    forall k | highStart <= k < to ensures cmp(s[k], pivot) > 0 {
      RearrangedMembers(half, s, highStart, to, k);
      var x :| highStart <= x < to && half[x] == s[k];
      assert half[lowEnd..][x - lowEnd] == parted[lowEnd..][x - lowEnd];
    }
  }

  lemma SortedParts<T(!new)>(cmp: Comparator<T>, s: seq<T>, from: nat, lowEnd: nat, highStart: nat, to: nat, pivot: T)
    requires Preorder(cmp) && Parted(cmp, s, from, lowEnd, highStart, highStart, to, pivot)
    requires Sorted(cmp, s[from..lowEnd]) && Sorted(cmp, s[highStart..to])
    ensures Sorted(cmp, s[from..to])
  {
    hide Preorder;
    var u := s[from..to];
    forall i, j | 0 <= i < j < |u| ensures cmp(u[i], u[j]) <= 0 {
      var x, y := from + i, from + j;
      if y < lowEnd {
        assert cmp(s[from..lowEnd][i], s[from..lowEnd][j]) <= 0;
      } else if highStart <= x {
        assert cmp(s[highStart..to][x - highStart], s[highStart..to][y - highStart]) <= 0;
      } else {
        Ordered(cmp, s[x], pivot, s[y]);
      }
    }
  }

  lemma Ordered<T(!new)>(cmp: Comparator<T>, x: T, pivot: T, y: T)
    requires Preorder(cmp) && (x == pivot || cmp(x, pivot) <= 0) && (y == pivot || cmp(y, pivot) >= 0)
    ensures cmp(x, y) <= 0
  {
    Opposite(cmp, pivot, pivot);
    Opposite(cmp, pivot, y);
    Opposite(cmp, y, pivot);
    if x != pivot && y != pivot {
      Transitive(cmp, x, pivot, y);
    }
  }
}
