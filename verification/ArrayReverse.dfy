/** Reversing an array in place, element by element or by its keys. */
module ArrayReverse {
  import opened SparseArrays
  import opened ArraySort

  /** The cell as far from the end as cell i is from the start. */
  function Mirror(len: nat, i: int): (j: int)
    ensures i + j == len - 1
  {
    len - 1 - i
  }

  /** The elements of m with every mirrored pair swapped. */
  ghost predicate IsReverse(m: map<int, Value>, r: map<int, Value>, len: nat) {
    forall i :: 0 <= i < len ==> CellOf(r, i) == CellOf(m, Mirror(len, i))
  }

  /** Cells low and high change places, holes included. */
  ghost predicate CellsSwapped(m: map<int, Value>, r: map<int, Value>, low: int, high: int) {
    && CellOf(r, low) == CellOf(m, high) && CellOf(r, high) == CellOf(m, low)
    && forall i :: i != low && i != high ==> CellOf(r, i) == CellOf(m, i)
  }

  /** The four cases of two cells, either of which may be a hole. */
  method SwapCells(arr: JsArray, low: nat, high: nat)
    requires arr.Valid() && low < arr.length && high < arr.length
    modifies arr
    ensures arr.Valid() && arr.length == old(arr.length)
    ensures CellsSwapped(old(arr.elements), arr.elements, low, high)
  {
    var currentI := arr.Get(low);
    if arr.Has(low) {
      var currentJ := arr.Get(high);
      if arr.Has(high) {
        arr.Put(low, currentJ);
        arr.Put(high, currentI);
      } else {
        arr.Put(high, currentI);
        arr.Delete(low);
      }
    } else {
      var currentJ := arr.Get(high);
      if arr.Has(high) {
        arr.Put(low, currentJ);
        arr.Delete(high);
      }
    }
  }

  /** The loop of ArrayReverse. */
  method DenseReverse(arr: JsArray)
    requires arr.Valid()
    modifies arr
    ensures arr.Valid() && arr.length == old(arr.length) && IsReverse(old(arr.elements), arr.elements, arr.length)
  {
    hide CellsSwapped, DoneOutside, IsReverse;
    ghost var was := arr.elements;
    var len := arr.length;
    NoneDone(was, len);
    var i: int, j: int := 0, len as int - 1;
    while i < j
      invariant 0 <= i <= j + 1 && j == Mirror(len, i) && arr.Valid() && arr.length == len
      invariant DoneOutside(was, arr.elements, len, i, j)
      decreases j - i
    {
      ghost var now := arr.elements;
      SwapCells(arr, i, j);
      PairDone(was, now, arr.elements, len, i, j);
      i := i + 1;
      j := j - 1;
    }
    AllDone(was, arr.elements, len, i, j);
  }

  lemma NoneDone(was: map<int, Value>, len: nat)
    ensures DoneOutside(was, was, len, 0, len as int - 1)
  {
  }

  lemma AllDone(was: map<int, Value>, now: map<int, Value>, len: nat, i: int, j: int)
    requires DoneOutside(was, now, len, i, j) && i >= j && j == Mirror(len, i)
    ensures IsReverse(was, now, len)
  {
    hide CellOf;
  }

  /** The cells outside i..j have been reversed, the others not yet. */
  ghost predicate DoneOutside(was: map<int, Value>, now: map<int, Value>, len: nat, i: int, j: int) {
    forall k :: 0 <= k < len ==> CellOf(now, k) == CellOf(was, if i <= k <= j then k else Mirror(len, k))
  }

  lemma PairDone(was: map<int, Value>, now: map<int, Value>, then': map<int, Value>, len: nat, i: int, j: int)
    requires 0 <= i < j < len && j == Mirror(len, i) && DoneOutside(was, now, len, i, j)
      && CellsSwapped(now, then', i, j)
    ensures DoneOutside(was, then', len, i + 1, j - 1)
  {
    hide CellOf;
    forall k | 0 <= k < len ensures CellOf(then', k) == CellOf(was, if i + 1 <= k <= j - 1 then k else Mirror(len, k)) {
      if k == i || k == j {
        assert CellOf(now, j) == CellOf(was, j) && CellOf(now, i) == CellOf(was, i);
      }
    }
  }

  // ----- by keys
  // ---------------------------------------------------------------------------------------------------------

  ghost predicate Increasing(keys: seq<int>) {
    forall a, b :: 0 <= a < b < |keys| ==> keys[a] <= keys[b]
  }

  /** GetSortedArrayKeys before its sort: the present keys that the intervals list, dupes included. */
  method PresentKeys(arr: JsArray, intervals: seq<Entry>) returns (keys: seq<int>)
    ensures forall i :: i in keys <==> i in arr.elements && Listed(intervals, i)
  {
    hide Lists;
    keys := [];
    var k := 0;
    while k < |intervals|
      invariant 0 <= k <= |intervals|
      invariant forall i :: i in keys <==> i in arr.elements && Listed(intervals[..k], i)
    {
      ghost var was := keys;
      keys := AddEntry(arr, intervals[k], keys);
      forall i ensures i in keys <==> i in arr.elements && Listed(intervals[..k + 1], i) {
        ListedPrefix(intervals, k, i);
      }
      k := k + 1;
    }
    assert intervals[..k] == intervals;
  }

  method AddEntry(arr: JsArray, e: Entry, keys0: seq<int>) returns (keys: seq<int>)
    ensures forall i :: i in keys <==> i in keys0 || (i in arr.elements && Lists(e, i))
  {
    keys := keys0;
    if e.Interval? {
      var j := e.first;
      while j < e.first + e.count
        invariant e.first <= j <= e.first + e.count
        invariant forall i :: i in keys <==> i in keys0 || (i in arr.elements && e.first <= i < j)
      {
        if arr.Has(j) {
          keys := keys + [j];
        }
        j := j + 1;
      }
    } else if e.Key? {
      if arr.Has(e.key) {
        keys := keys + [e.key];
      }
    }
  }

  lemma DifferenceIsPreorder()
    ensures Preorder((x: int, y: int) => x - y)
  {
  }

  method GetSortedArrayKeys(arr: JsArray, intervals: seq<Entry>) returns (keys: seq<int>)
    ensures Increasing(keys) && forall i :: i in keys <==> i in arr.elements && Listed(intervals, i)
  {
    var unsorted := PresentKeys(arr, intervals);
    var a := new int[|unsorted|](i requires 0 <= i < |unsorted| => unsorted[i]);
    assert a[..] == unsorted;
    var cmp := (x: int, y: int) => x - y;
    QuickSort(a, 0, a.Length, cmp);
    keys := a[..];
    DifferenceIsPreorder();
    SortedKeys(unsorted, keys, cmp);
  }

  lemma SortedKeys(unsorted: seq<int>, keys: seq<int>, cmp: Comparator<int>)
    requires cmp == ((x: int, y: int) => x - y) && Rearranged(unsorted, keys, 0, |unsorted|)
      && Sorted(cmp, keys[0..|unsorted|])
    ensures Increasing(keys) && forall i :: i in keys <==> i in unsorted
  {
    assert keys[0..|unsorted|] == keys && unsorted[0..|unsorted|] == unsorted;
    forall a, b | 0 <= a < b < |keys| ensures keys[a] <= keys[b] {
      assert cmp(keys[a], keys[b]) <= 0;
    }
    forall i ensures i in keys <==> i in unsorted {
      assert i in multiset(keys) <==> i in multiset(unsorted);
    }
  }

  /** Index x belongs to a pair that one of the keys before lo or behind hi is in. */
  ghost predicate Touched(keys: seq<int>, len: nat, lo: int, hi: int, x: int) {
    exists a :: 0 <= a < |keys| && (a < lo || a > hi) && OfPair(keys[a], len, x)
  }

  ghost predicate OfPair(key: int, len: nat, x: int) {
    x == key || x == Mirror(len, key)
  }

  /** The pairs already swapped lie outside what is left, on both sides. */
  ghost predicate Frontier(keys: seq<int>, len: nat, lo: int, hi: int) {
    && 0 <= lo <= |keys| && -1 <= hi < |keys|
    && (forall a, b :: 0 <= a < lo <= b <= hi ==> keys[a] < keys[b] < Mirror(len, keys[a]))
    && (forall a, b :: lo <= b <= hi < a < |keys| ==> Mirror(len, keys[a]) < keys[b] < keys[a])
  }

  ghost predicate DoneTouched(was: map<int, Value>, now: map<int, Value>, keys: seq<int>, len: nat, lo: int, hi: int) {
    forall x :: 0 <= x < len ==> CellOf(now, x) == CellOf(was, if Touched(keys, len, lo, hi, x) then Mirror(len, x) else x)
  }

  /** while (keys[++low_counter] == i). */
  method SkipUp(keys: seq<int>, lo0: nat) returns (lo: nat)
    requires Increasing(keys) && lo0 < |keys|
    ensures lo0 < lo <= |keys| && (forall k :: lo0 <= k < lo ==> keys[k] == keys[lo0])
    ensures forall k :: lo <= k < |keys| ==> keys[k] > keys[lo0]
  {
    lo := lo0 + 1;
    while lo < |keys| && keys[lo] == keys[lo0]
      invariant lo0 < lo <= |keys| && forall k :: lo0 <= k < lo ==> keys[k] == keys[lo0]
    {
      lo := lo + 1;
    }
    assert lo < |keys| ==> keys[lo] > keys[lo0];
  }

  /** while (keys[--high_counter] == j). */
  method SkipDown(keys: seq<int>, hi0: nat) returns (hi: int)
    requires Increasing(keys) && hi0 < |keys|
    ensures -1 <= hi < hi0 && (forall k :: hi < k <= hi0 ==> keys[k] == keys[hi0])
    ensures forall k :: 0 <= k <= hi ==> keys[k] < keys[hi0]
  {
    hi := hi0 - 1;
    while hi >= 0 && keys[hi] == keys[hi0]
      invariant -1 <= hi < hi0 && forall k :: hi < k <= hi0 ==> keys[k] == keys[hi0]
    {
      hi := hi - 1;
    }
    assert hi >= 0 ==> keys[hi] < keys[hi0];
  }

  /** The next pair: the outermost key on either side with its mirror, and the counters behind it. */
  method NextPair(keys: seq<int>, len: nat, lo0: nat, hi0: nat) returns (low: int, high: int, lo: nat, hi: int)
    requires Increasing(keys) && lo0 <= hi0 < |keys| && Frontier(keys, len, lo0, hi0)
    ensures high == Mirror(len, low) && low <= high && Frontier(keys, len, lo, hi) && lo0 <= lo && hi <= hi0
      && hi - lo < hi0 - lo0
    ensures low == keys[lo0] || high == keys[hi0]
    ensures forall k :: lo0 <= k < lo || hi < k <= hi0 ==> keys[k] == low || keys[k] == high
  {
    var i, j := keys[lo0], keys[hi0];
    var jComplement := len - j - 1;
    low, high, lo, hi := 0, 0, lo0, hi0;
    if jComplement <= i {
      high := j;
      hi := SkipDown(keys, hi0);
      low := jComplement;
    }
    if jComplement >= i {
      low := i;
      lo := SkipUp(keys, lo0);
      high := len - i - 1;
    }
    FrontierMoves(keys, len, lo0, hi0, lo, hi);
  }

  lemma FrontierMoves(keys: seq<int>, len: nat, lo0: nat, hi0: nat, lo: nat, hi: int)
    requires Increasing(keys) && lo0 <= hi0 < |keys| && Frontier(keys, len, lo0, hi0)
    requires var c := Mirror(len, keys[hi0]);
      && (if c <= keys[lo0] then hi < hi0 else hi == hi0) && (if c >= keys[lo0] then lo > lo0 else lo == lo0)
    requires lo0 <= lo <= |keys| && -1 <= hi <= hi0
    requires forall k :: lo0 <= k < lo ==> keys[k] == keys[lo0]
    requires forall k :: hi < k <= hi0 ==> keys[k] == keys[hi0]
    requires lo > lo0 ==> forall k :: lo <= k < |keys| ==> keys[k] > keys[lo0]
    requires hi < hi0 ==> forall k :: 0 <= k <= hi ==> keys[k] < keys[hi0]
    ensures Frontier(keys, len, lo, hi)
  {
  }

  /** SparseReverse. */
  method SparseReverse(arr: JsArray, intervals: seq<Entry>)
    requires arr.Valid() && Covers(intervals, arr.elements, arr.length)
    modifies arr
    ensures arr.Valid() && arr.length == old(arr.length) && IsReverse(old(arr.elements), arr.elements, arr.length)
  {
    hide CellsSwapped, Covers, Frontier, DoneTouched, Increasing;
    var len := arr.length;
    var keys := GetSortedArrayKeys(arr, intervals);
    ghost var was := arr.elements;
    AllListed(arr, intervals, keys);
    var highCounter: int := |keys| - 1;
    var lowCounter: nat := 0;
    StartTouched(was, keys, len);
    while lowCounter <= highCounter
      invariant 0 <= lowCounter && highCounter < |keys| && arr.Valid() && arr.length == len
        && Frontier(keys, len, lowCounter, highCounter)
      invariant DoneTouched(was, arr.elements, keys, len, lowCounter, highCounter)
      decreases highCounter - lowCounter
    {
      ghost var lo0, hi0, now := lowCounter, highCounter, arr.elements;
      var low: int, high: int;
      low, high, lowCounter, highCounter := NextPair(keys, len, lowCounter, highCounter);
      assert keys[lo0] in keys && keys[hi0] in keys;
      SwapCells(arr, low, high);
      TouchedMoves(was, now, arr.elements, keys, len, lo0, hi0, lowCounter, highCounter, low, high);
    }
    AllTouched(was, arr.elements, keys, len, lowCounter, highCounter);
  }

  lemma AllListed(arr: JsArray, intervals: seq<Entry>, keys: seq<int>)
    requires arr.Valid() && Covers(intervals, arr.elements, arr.length)
    requires forall i :: i in keys <==> i in arr.elements && Listed(intervals, i)
    ensures forall i :: i in keys <==> i in arr.elements
    ensures forall i :: i in keys ==> 0 <= i < arr.length
  {
    hide Listed, Within;
  }

  lemma StartTouched(was: map<int, Value>, keys: seq<int>, len: nat)
    ensures Frontier(keys, len, 0, |keys| - 1) && DoneTouched(was, was, keys, len, 0, |keys| - 1)
  {
  }

  /** A pair that is left has not been swapped yet. */
  lemma NotTouched(keys: seq<int>, len: nat, lo: nat, hi: nat, x: int)
    requires lo <= hi < |keys| && Frontier(keys, len, lo, hi) && (OfPair(keys[lo], len, x) || OfPair(keys[hi], len, x))
    ensures !Touched(keys, len, lo, hi, x)
  {
    forall a | 0 <= a < |keys| && (a < lo || a > hi) ensures !OfPair(keys[a], len, x) {
      if a < lo {
        assert keys[a] < keys[lo] < Mirror(len, keys[a]) && keys[a] < keys[hi] < Mirror(len, keys[a]);
      } else {
        assert Mirror(len, keys[a]) < keys[lo] < keys[a] && Mirror(len, keys[a]) < keys[hi] < keys[a];
      }
    }
  }

  lemma TouchedMoves(was: map<int, Value>, now: map<int, Value>, after: map<int, Value>, keys: seq<int>, len: nat,
                     lo0: nat, hi0: nat, lo: nat, hi: int, low: int, high: int)
    requires lo0 <= hi0 < |keys| && Frontier(keys, len, lo0, hi0) && lo0 <= lo && hi <= hi0 && (lo > lo0 || hi < hi0)
    requires high == Mirror(len, low) && 0 <= low <= high < len && (low == keys[lo0] || high == keys[hi0])
    requires lo <= |keys| && -1 <= hi
    requires forall k :: lo0 <= k < lo || hi < k <= hi0 ==> keys[k] == low || keys[k] == high
    requires DoneTouched(was, now, keys, len, lo0, hi0) && CellsSwapped(now, after, low, high)
    ensures DoneTouched(was, after, keys, len, lo, hi)
  {
    hide CellOf, Frontier;
    NotTouched(keys, len, lo0, hi0, low);
    NotTouched(keys, len, lo0, hi0, high);
    forall x | 0 <= x < len ensures Touched(keys, len, lo, hi, x) <==> Touched(keys, len, lo0, hi0, x) || x == low || x == high {
      TouchedGrows(keys, len, lo0, hi0, lo, hi, low, high, x);
    }
    hide Touched;
  }

  lemma TouchedGrows(keys: seq<int>, len: nat, lo0: nat, hi0: nat, lo: nat, hi: int, low: int, high: int, x: int)
    requires lo0 <= hi0 < |keys| && lo0 <= lo <= |keys| && -1 <= hi <= hi0 && (lo > lo0 || hi < hi0)
    requires high == Mirror(len, low)
    requires forall k :: lo0 <= k < lo || hi < k <= hi0 ==> keys[k] == low || keys[k] == high
    ensures Touched(keys, len, lo, hi, x) <==> Touched(keys, len, lo0, hi0, x) || x == low || x == high
  {
    hide OfPair;
    if Touched(keys, len, lo, hi, x) {
      var a :| 0 <= a < |keys| && (a < lo || a > hi) && OfPair(keys[a], len, x);
      PairOf(keys[a], len, x, low, high);
    }
    if x == low || x == high {
      var a := if lo > lo0 then lo0 else hi0;
      PairOf(keys[a], len, x, low, high);
    }
  }

  lemma PairOf(key: int, len: nat, x: int, low: int, high: int)
    requires high == Mirror(len, low)
    ensures key == low || key == high ==> (OfPair(key, len, x) <==> x == low || x == high)
  {
  }

  lemma AllTouched(was: map<int, Value>, now: map<int, Value>, keys: seq<int>, len: nat, lo: nat, hi: int)
    requires lo > hi && DoneTouched(was, now, keys, len, lo, hi) && forall i :: i in keys <==> i in was
    ensures IsReverse(was, now, len)
  {
    forall x | 0 <= x < len ensures CellOf(now, x) == CellOf(was, Mirror(len, x)) {
      if !Touched(keys, len, lo, hi, x) {
        KeyTouched(keys, len, lo, hi, x);
        KeyTouched(keys, len, lo, hi, Mirror(len, x));
      }
    }
  }

  lemma KeyTouched(keys: seq<int>, len: nat, lo: nat, hi: int, x: int)
    requires lo > hi
    ensures x in keys ==> Touched(keys, len, lo, hi, x) && Touched(keys, len, lo, hi, Mirror(len, x))
  {
    if x in keys {
      var a :| 0 <= a < |keys| && keys[a] == x;
      assert OfPair(keys[a], len, x) && OfPair(keys[a], len, Mirror(len, x));
    }
  }

  /** ArrayReverse, whichever variant it takes. */
  method Reverse(arr: JsArray, sparse: bool, intervals: seq<Entry>)
    requires arr.Valid() && Covers(intervals, arr.elements, arr.length)
    modifies arr
    ensures arr.Valid() && arr.length == old(arr.length) && IsReverse(old(arr.elements), arr.elements, arr.length)
  {
    if sparse {
      SparseReverse(arr, intervals);
    } else {
      DenseReverse(arr);
    }
  }

  /** There is one reverse only: the two variants agree, and reversing twice changes nothing. */
  lemma ReverseUnique(m: map<int, Value>, r: map<int, Value>, r': map<int, Value>, len: nat)
    requires IsReverse(m, r, len) && (forall i :: i in m || i in r || i in r' ==> 0 <= i < len)
    ensures IsReverse(m, r', len) <==> r == r'
    ensures IsReverse(r, r', len) <==> r' == m
  {
    if IsReverse(m, r', len) {
      forall i ensures i in r <==> i in r' {
        assert 0 <= i < len ==> CellOf(r, i) == CellOf(r', i);
      }
      forall i | i in r ensures r[i] == r'[i] {
        assert CellOf(r, i) == CellOf(r', i);
      }
    }
    forall i | 0 <= i < len ensures CellOf(m, i) == CellOf(r, Mirror(len, i)) {
      assert CellOf(r, Mirror(len, i)) == CellOf(m, Mirror(len, Mirror(len, i)));
    }
    if IsReverse(r, r', len) {
      forall i ensures i in m <==> i in r' {
        assert 0 <= i < len ==> CellOf(m, i) == CellOf(r', i);
      }
      forall i | i in m ensures m[i] == r'[i] {
        assert CellOf(m, i) == CellOf(r', i);
      }
    }
  }
}
