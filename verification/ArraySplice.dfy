/** Cutting elements out of an array and putting others in their place. */
module ArraySplice {
  // The rest of the array closes up or makes room, element by element, or by keys when the array is sparse.

  import opened SparseArrays

  // ----- what a splice is to do ----------------------------------------------------------------------------------

  /** The cells that are cut out. */
  ghost predicate IsSlice(m: map<int, Value>, s: map<int, Value>, start: nat, delCount: nat) {
    forall i :: CellOf(s, i) == if 0 <= i < delCount then CellOf(m, start + i) else None
  }

  /** Where the cell at i comes from when the cells behind the cut are moved to leave room. */
  ghost function Source(start: nat, delCount: nat, added: nat, i: int): int {
    if i < start then i else i - added + delCount
  }

  /** The cells outside the room left for the new elements; what is in the room is left open. */
  ghost predicate IsMoved(m: map<int, Value>, r: map<int, Value>, start: nat, delCount: nat, len: nat, added: nat) {
    && (forall i :: 0 <= i < start || start + added <= i < len - delCount + added ==> CellOf(r, i) == CellOf(m, Source(start, delCount, added, i)))
    && (forall i :: i < 0 || i >= len - delCount + added ==> start <= i < start + added || i !in r)
  }

  /** The array after a splice. */
  ghost predicate IsSpliced(m: map<int, Value>, r: map<int, Value>, start: nat, delCount: nat, len: nat,
    args: seq<Value>) {
    forall i :: CellOf(r, i) ==
      if start <= i < start + |args| then Some(args[i - start])
      else if 0 <= i < len - delCount + |args| then CellOf(m, Source(start, delCount, |args|, i))
      else None
  }

  /** Cell from is copied to cell to, hole or not. */
  method CopyCell(arr: JsArray, from: nat, to: nat)
    requires arr.Valid()
    modifies arr
    ensures arr.Valid() && old(arr.length) <= arr.length
    ensures CellOf(arr.elements, to) == CellOf(old(arr.elements), from)
    ensures forall i :: i != to ==> CellOf(arr.elements, i) == CellOf(old(arr.elements), i)
  {
    var current := arr.Get(from);
    if arr.Has(from) {
      arr.Put(to, current);
    } else {
      arr.Delete(to);
    }
  }

  // ----- element by element -----------------------------------------------------------------------------------------

  method SimpleSlice(arr: JsArray, startI: nat, delCount: nat, deleted: JsArray)
    requires arr != deleted && deleted.Valid() && deleted.elements == map[] && deleted.length == delCount
    modifies deleted
    ensures deleted.Valid() && deleted.length == delCount && IsSlice(arr.elements, deleted.elements, startI, delCount)
  {
    var i := 0;
    while i < delCount
      invariant 0 <= i <= delCount && deleted.Valid() && deleted.length == delCount
      invariant IsSlice(arr.elements, deleted.elements, startI, i)
    {
      ghost var now := deleted.elements;
      var index := startI + i;
      var current := arr.Get(index);
      if arr.Has(index) {
        deleted.Put(i, current);
      }
      SliceGrows(arr.elements, now, deleted.elements, startI, i);
      i := i + 1;
    }
  }

  lemma SliceGrows(m: map<int, Value>, s: map<int, Value>, s': map<int, Value>, start: nat, i: nat)
    requires IsSlice(m, s, start, i)
    requires s' == if start + i in m then s[i := m[start + i]] else s
    ensures IsSlice(m, s', start, i + 1)
  {
    forall k ensures CellOf(s', k) == if 0 <= k < i + 1 then CellOf(m, start + k) else None {
      assert CellOf(s, k) == if 0 <= k < i then CellOf(m, start + k) else None;
    }
  }

  method SimpleMove(arr: JsArray, startI: nat, delCount: nat, len: nat, added: nat)
    requires arr.Valid() && len == arr.length && startI + delCount <= len
    modifies arr
    ensures arr.Valid() && IsMoved(old(arr.elements), arr.elements, startI, delCount, len, added)
  {
    ghost var was := arr.elements;
    if added != delCount {
      if added > delCount {
        MoveUp(arr, startI, delCount, len, added);
      } else {
        MoveDown(arr, startI, delCount, len, added);
      }
    }
  }

  /** Making room: from the end. */
  method MoveUp(arr: JsArray, startI: nat, delCount: nat, len: nat, added: nat)
    requires arr.Valid() && len == arr.length && startI + delCount <= len && added > delCount
    modifies arr
    ensures arr.Valid() && IsMoved(old(arr.elements), arr.elements, startI, delCount, len, added)
  {
    hide CellOf;
    ghost var was := arr.elements;
    var i := len - delCount;
    while i > startI
      invariant startI <= i <= len - delCount && arr.Valid()
      invariant UpFrom(was, arr.elements, delCount, added, i, len)
    {
      var fromIndex := i + delCount - 1;
      var toIndex := i + added - 1;
      CopyCell(arr, fromIndex, toIndex);
      i := i - 1;
    }
    MovedUp(was, arr.elements, startI, delCount, len, added);
  }

  /** The cells from i on have been moved, those below not. */
  ghost predicate UpFrom(was: map<int, Value>, now: map<int, Value>, delCount: nat, added: nat, i: int, len: nat) {
    && (forall k :: k < i + added ==> CellOf(now, k) == CellOf(was, k))
    && (forall k {:trigger CellOf(now, k)} :: i + added <= k < len - delCount + added ==> CellOf(now, k) == CellOf(was, k - added + delCount))
    && (forall k :: k >= len - delCount + added ==> CellOf(now, k) == CellOf(was, k))
  }

  lemma MovedUp(was: map<int, Value>, now: map<int, Value>, startI: nat, delCount: nat, len: nat, added: nat)
    requires UpFrom(was, now, delCount, added, startI, len) && added > delCount && startI + delCount <= len
    requires forall i :: i in was ==> 0 <= i < len
    ensures IsMoved(was, now, startI, delCount, len, added)
  {
    forall i | i < 0 || i >= len - delCount + added ensures i !in now {
      assert CellOf(now, i) == CellOf(was, i);
    }
  }

  /** Closing up: from the cut on, and what is left over at the end is deleted. */
  method MoveDown(arr: JsArray, startI: nat, delCount: nat, len: nat, added: nat)
    requires arr.Valid() && len == arr.length && startI + delCount <= len && added < delCount
    modifies arr
    ensures arr.Valid() && IsMoved(old(arr.elements), arr.elements, startI, delCount, len, added)
  {
    hide CellOf;
    ghost var was := arr.elements;
    var i: nat := startI;
    while i < len - delCount
      invariant startI <= i <= len - delCount && arr.Valid()
      invariant DownTo(was, arr.elements, startI, delCount, added, i)
    {
      var fromIndex := i + delCount;
      var toIndex := i + added;
      CopyCell(arr, fromIndex, toIndex);
      i := i + 1;
    }
    ghost var moved := arr.elements;
    DeleteEnd(arr, len, len - delCount + added);
    MovedDown(was, moved, arr.elements, startI, delCount, len, added);
  }

  /** The last loop of SimpleMove. */
  method DeleteEnd(arr: JsArray, len: nat, newLen: nat)
    requires arr.Valid() && newLen <= len
    modifies arr
    ensures arr.Valid() && EndCut(old(arr.elements), arr.elements, newLen, len)
  {
    ghost var was := arr.elements;
    var k := len;
    while k > newLen
      invariant newLen <= k <= len && arr.Valid() && EndCut(was, arr.elements, k, len)
    {
      ghost var now := arr.elements;
      arr.Delete(k - 1);
      CutGrows(was, now, arr.elements, k, len);
      k := k - 1;
    }
  }

  lemma CutGrows(was: map<int, Value>, now: map<int, Value>, after: map<int, Value>, k: int, len: int)
    requires EndCut(was, now, k, len) && after == now - {k - 1} && k <= len
    ensures EndCut(was, after, k - 1, len)
  {
    forall i ensures CellOf(after, i) == if k - 1 <= i < len then None else CellOf(was, i) {
      assert CellOf(now, i) == if k <= i < len then None else CellOf(was, i);
    }
  }

  ghost predicate EndCut(was: map<int, Value>, now: map<int, Value>, k: int, len: int) {
    forall i :: CellOf(now, i) == if k <= i < len then None else CellOf(was, i)
  }

  /** The cells behind the cut have been moved up to i. */
  ghost predicate DownTo(was: map<int, Value>, now: map<int, Value>, startI: nat, delCount: nat, added: nat, i: int) {
    && (forall k :: k < startI + added || k >= i + added ==> CellOf(now, k) == CellOf(was, k))
    && (forall k {:trigger CellOf(now, k)} :: startI + added <= k < i + added ==> CellOf(now, k) == CellOf(was, k - added + delCount))
  }

  lemma MovedDown(was: map<int, Value>, moved: map<int, Value>, now: map<int, Value>, startI: nat, delCount: nat,
    len: nat, added: nat)
    requires DownTo(was, moved, startI, delCount, added, len - delCount) && added < delCount && startI + delCount <= len
    requires (forall i :: i in was ==> 0 <= i < len) && EndCut(moved, now, len - delCount + added, len)
    ensures IsMoved(was, now, startI, delCount, len, added)
  {
    forall i | i < 0 || i >= len - delCount + added ensures i !in now {
      assert CellOf(now, i) == None || CellOf(now, i) == CellOf(was, i);
    }
    forall i | 0 <= i < startI || startI + added <= i < len - delCount + added
      ensures CellOf(now, i) == CellOf(was, Source(startI, delCount, added, i))
    {
      assert CellOf(now, i) == CellOf(moved, i);
    }
  }

  // ----- by keys
  // ---------------------------------------------------------------------------------------------------------

  /** The cells that are listed have been copied to s. */
  ghost predicate SlicedBy(m: map<int, Value>, s: map<int, Value>, start: nat, intervals: seq<Entry>) {
    forall i :: CellOf(s, i) == if i >= 0 && Listed(intervals, start + i) then CellOf(m, start + i) else None
  }

  ghost predicate SlicedOne(m: map<int, Value>, s: map<int, Value>, s': map<int, Value>, start: nat, e: Entry) {
    forall i :: CellOf(s', i) == if i >= 0 && Lists(e, start + i) && start + i in m then CellOf(m, start + i) else CellOf(s, i)
  }

  method SmartSlice(arr: JsArray, startI: nat, delCount: nat, intervals: seq<Entry>, deleted: JsArray)
    requires arr != deleted && deleted.Valid() && deleted.elements == map[] && deleted.length == delCount
    requires Covers(intervals, arr.elements, startI + delCount)
    modifies deleted
    ensures deleted.Valid() && deleted.length == delCount && IsSlice(arr.elements, deleted.elements, startI, delCount)
  {
    hide Lists, CellOf, Listed, SlicedBy, SlicedOne, IsSlice;
    NothingSliced(arr.elements, startI);
    var k := 0;
    while k < |intervals|
      invariant 0 <= k <= |intervals| && deleted.Valid() && deleted.length == delCount
      invariant SlicedBy(arr.elements, deleted.elements, startI, intervals[..k])
    {
      ghost var now := deleted.elements;
      assert Within(intervals[k], startI + delCount);
      SliceEntry(arr, startI, delCount, intervals[k], deleted);
      SlicedMore(arr.elements, now, deleted.elements, startI, intervals, k);
      k := k + 1;
    }
    assert intervals[..k] == intervals;
    AllSliced(arr.elements, deleted.elements, startI, delCount, intervals);
  }

  method SliceEntry(arr: JsArray, startI: nat, delCount: nat, e: Entry, deleted: JsArray)
    requires arr != deleted && deleted.Valid() && deleted.length == delCount && Within(e, startI + delCount)
    modifies deleted
    ensures deleted.Valid() && deleted.length == delCount && SlicedOne(arr.elements, old(deleted.elements),
      deleted.elements, startI, e)
  {
    ghost var was := deleted.elements;
    if e.Interval? {
      var j := e.first;
      var limit := j + e.count;
      if j < startI {
        j := startI;
      }
      ghost var begin := j;
      while j < limit
        invariant begin <= j && (j <= limit || j == begin) && deleted.Valid() && deleted.length == delCount
        invariant SlicedRange(arr.elements, was, deleted.elements, startI, begin, j)
      {
        ghost var now := deleted.elements;
        var current := arr.Get(j);
        if arr.Has(j) {
          deleted.Put(j - startI, current);
        }
        RangeGrows(arr.elements, was, now, deleted.elements, startI, begin, j);
        j := j + 1;
      }
      RangeSliced(arr.elements, was, deleted.elements, startI, begin, j, e);
    } else if e.Key? {
      if e.key >= startI {
        var current := arr.Get(e.key);
        if arr.Has(e.key) {
          deleted.Put(e.key - startI, current);
        }
      }
    }
  }

  ghost predicate SlicedRange(m: map<int, Value>, s: map<int, Value>, s': map<int, Value>, start: nat, first: int,
    j: int) {
    forall i :: CellOf(s', i) == if first <= start + i < j && start + i in m then CellOf(m, start + i) else CellOf(s, i)
  }

  lemma RangeGrows(m: map<int, Value>, was: map<int, Value>, s: map<int, Value>, s': map<int, Value>, start: nat,
    first: int, j: int)
    requires SlicedRange(m, was, s, start, first, j) && first <= j && s' == if j in m then s[j - start := m[j]] else s
    ensures SlicedRange(m, was, s', start, first, j + 1)
  {
    forall i ensures CellOf(s', i) == if first <= start + i < j + 1 && start + i in m then CellOf(m, start + i) else CellOf(was, i) {
      assert CellOf(s, i) == if first <= start + i < j && start + i in m then CellOf(m, start + i) else CellOf(was, i);
    }
  }

  lemma RangeSliced(m: map<int, Value>, s: map<int, Value>, s': map<int, Value>, start: nat, first: int, j: int,
    e: Entry)
    requires e.Interval? && SlicedRange(m, s, s', start, first, j)
    requires first == (if e.first < start then start else e.first) && (j == e.first + e.count || (j == first
      && first >= e.first + e.count))
    ensures SlicedOne(m, s, s', start, e)
  {
    forall i ensures CellOf(s', i) == if i >= 0 && Lists(e, start + i) && start + i in m then CellOf(m, start + i) else CellOf(s, i) {
      assert CellOf(s', i) == if first <= start + i < j && start + i in m then CellOf(m, start + i) else CellOf(s, i);
    }
  }

  lemma NothingSliced(m: map<int, Value>, start: nat)
    ensures SlicedBy(m, map[], start, [])
  {
  }

  lemma SlicedMore(m: map<int, Value>, s: map<int, Value>, s': map<int, Value>, start: nat, intervals: seq<Entry>,
    k: nat)
    requires k < |intervals| && SlicedBy(m, s, start, intervals[..k]) && SlicedOne(m, s, s', start, intervals[k])
    ensures SlicedBy(m, s', start, intervals[..k + 1])
  {
    hide Listed, Lists;
    forall i ensures CellOf(s', i) == if i >= 0 && Listed(intervals[..k + 1], start + i) then CellOf(m, start + i) else None {
      ListedPrefix(intervals, k, start + i);
      assert CellOf(s, i) == if i >= 0 && Listed(intervals[..k], start + i) then CellOf(m, start + i) else None;
    }
  }

  lemma AllSliced(m: map<int, Value>, s: map<int, Value>, start: nat, delCount: nat, intervals: seq<Entry>)
    requires SlicedBy(m, s, start, intervals) && Covers(intervals, m, start + delCount)
    ensures IsSlice(m, s, start, delCount)
  {
    hide Listed;
    forall i ensures CellOf(s, i) == if 0 <= i < delCount then CellOf(m, start + i) else None {
      ListedBelow(intervals, m, start + delCount, start + i);
      assert CellOf(s, i) == if i >= 0 && Listed(intervals, start + i) then CellOf(m, start + i) else None;
    }
  }

  lemma ListedBelow(intervals: seq<Entry>, m: map<int, Value>, limit: nat, i: int)
    requires Covers(intervals, m, limit)
    ensures Listed(intervals, i) ==> i < limit
  {
    if Listed(intervals, i) {
      var k :| 0 <= k < |intervals| && Lists(intervals[k], i);
      assert Within(intervals[k], limit);
    }
  }

  /** Cell i of the new array is one that is copied from. */
  ghost predicate HasSource(start: nat, delCount: nat, len: nat, added: nat, i: int) {
    0 <= i < start || start + added <= i < len - delCount + added
  }

  /** The new array has nothing but cells copied from where they belong, and all that are listed. */
  ghost predicate MovedBy(m: map<int, Value>, r: map<int, Value>, start: nat, delCount: nat, len: nat, added: nat,
    intervals: seq<Entry>) {
    forall i :: MovedAt(m, r, start, delCount, len, added, i, Listed(intervals, Source(start, delCount, added, i)))
  }

  ghost predicate MovedAt(m: map<int, Value>, r: map<int, Value>, start: nat, delCount: nat, len: nat, added: nat,
    i: int, listed: bool) {
    if HasSource(start, delCount, len, added, i) then
      (CellOf(r, i) == None && !listed) || CellOf(r, i) == CellOf(m, Source(start, delCount, added, i))
    else
      CellOf(r, i) == None
  }

  /** More cells have been copied from where they belong, among them those of the entry. */
  ghost predicate MovedOne(m: map<int, Value>, r: map<int, Value>, r': map<int, Value>, start: nat, delCount: nat,
    len: nat, added: nat, e: Entry) {
    forall i :: MovedStep(m, r, r', start, delCount, len, added, i, Lists(e, Source(start, delCount, added, i)) && Source(start, delCount, added, i) in m)
  }

  ghost predicate MovedStep(m: map<int, Value>, r: map<int, Value>, r': map<int, Value>, start: nat, delCount: nat,
    len: nat, added: nat, i: int, listed: bool) {
    || (CellOf(r', i) == CellOf(r, i) && !(HasSource(start, delCount, len, added, i) && listed))
    || (HasSource(start, delCount, len, added, i) && CellOf(r', i) == CellOf(m, Source(start, delCount, added, i)))
  }

  /** SmartMove; the array takes over the contents of the new one at the end. */
  method SmartMove(arr: JsArray, startI: nat, delCount: nat, len: nat, added: nat, intervals: seq<Entry>)
    requires arr.Valid() && len == arr.length && startI + delCount <= len && Covers(intervals, arr.elements, len)
    modifies arr
    ensures arr.Valid() && IsMoved(old(arr.elements), arr.elements, startI, delCount, len, added)
  {
    hide Lists, CellOf, Listed, MovedBy, MovedOne, IsMoved;
    ghost var m := arr.elements;
    var newArray := new JsArray(len - delCount + added);
    NothingMoved(m, startI, delCount, len, added);
    var k := 0;
    while k < |intervals|
      invariant 0 <= k <= |intervals| && newArray.Valid() && newArray.length == len - delCount + added
        && fresh(newArray)
      invariant arr.elements == m && MovedBy(m, newArray.elements, startI, delCount, len, added, intervals[..k])
      modifies newArray
    {
      ghost var now := newArray.elements;
      assert Within(intervals[k], len);
      MoveEntry(arr, startI, delCount, len, added, intervals[k], newArray);
      MovedMore(m, now, newArray.elements, startI, delCount, len, added, intervals, k);
      k := k + 1;
    }
    assert intervals[..k] == intervals;
    AllMoved(m, newArray.elements, startI, delCount, len, added, intervals);
    arr.elements, arr.length := newArray.elements, newArray.length;
  }

  method MoveEntry(arr: JsArray, startI: nat, delCount: nat, len: nat, added: nat, e: Entry, newArray: JsArray)
    requires arr != newArray && newArray.Valid() && newArray.length == len - delCount + added
      && startI + delCount <= len && Within(e, len)
    modifies newArray
    ensures newArray.Valid() && newArray.length == len - delCount + added
    ensures MovedOne(arr.elements, old(newArray.elements), newArray.elements, startI, delCount, len, added, e)
  {
    hide CellOf;
    ghost var was := newArray.elements;
    if e.Interval? {
      var j := e.first;
      var limit := j + e.count;
      while j < startI && j < limit
        invariant e.first <= j && newArray.Valid() && newArray.length == len - delCount + added
        invariant MovedRange(arr.elements, was, newArray.elements, 0, e.first, j) && (j <= startI || j == e.first)
          && (j <= limit || j == e.first)
      {
        ghost var now := newArray.elements;
        var current := arr.Get(j);
        if arr.Has(j) {
          newArray.Put(j, current);
        }
        MovedNext(arr.elements, was, now, newArray.elements, 0, e.first, j);
        j := j + 1;
      }
      ghost var half, stop := newArray.elements, j;
      j := startI + delCount;
      while j < limit
        invariant startI + delCount <= j && (j <= limit || j == startI + delCount) && newArray.Valid()
          && newArray.length == len - delCount + added
        invariant MovedRange(arr.elements, half, newArray.elements, added - delCount, startI + delCount, j)
      {
        ghost var now := newArray.elements;
        var current := arr.Get(j);
        if arr.Has(j) {
          newArray.Put(j - delCount + added, current);
        }
        MovedNext(arr.elements, half, now, newArray.elements, added - delCount, startI + delCount, j);
        j := j + 1;
      }
      RangesMoved(arr.elements, was, half, newArray.elements, startI, delCount, len, added, e, stop, j);
    } else if e.Key? {
      if e.key < startI {
        var current := arr.Get(e.key);
        if arr.Has(e.key) {
          newArray.Put(e.key, current);
        }
        KeyMoved(arr.elements, was, newArray.elements, startI, delCount, len, added, e, e.key);
      } else if e.key >= startI + delCount {
        var current := arr.Get(e.key);
        if arr.Has(e.key) {
          newArray.Put(e.key - delCount + added, current);
        }
        KeyMoved(arr.elements, was, newArray.elements, startI, delCount, len, added, e, e.key - delCount + added);
      } else {
        KeyCut(arr.elements, was, startI, delCount, len, added, e);
      }
    } else {
      KeyCut(arr.elements, was, startI, delCount, len, added, e);
    }
  }

  /** The present cells from first up to j have been copied, shift places on. */
  ghost predicate MovedRange(m: map<int, Value>, r: map<int, Value>, r': map<int, Value>, shift: int, first: int,
    j: int) {
    forall i :: CellOf(r', i) == if first <= i - shift < j && i - shift in m then CellOf(m, i - shift) else CellOf(r, i)
  }

  lemma MovedNext(m: map<int, Value>, was: map<int, Value>, r: map<int, Value>, r': map<int, Value>, shift: int,
    first: int, j: int)
    requires MovedRange(m, was, r, shift, first, j) && first <= j && r' == if j in m then r[j + shift := m[j]] else r
    ensures MovedRange(m, was, r', shift, first, j + 1)
  {
    forall i ensures CellOf(r', i) == if first <= i - shift < j + 1 && i - shift in m then CellOf(m, i - shift) else CellOf(was, i) {
      assert CellOf(r, i) == if first <= i - shift < j && i - shift in m then CellOf(m, i - shift) else CellOf(was, i);
    }
  }

  lemma RangesMoved(m: map<int, Value>, was: map<int, Value>, half: map<int, Value>, now: map<int, Value>,
                    start: nat, delCount: nat, len: nat, added: nat, e: Entry, stop: int, j: int)
    requires e.Interval? && start + delCount <= len && Within(e, len)
    requires MovedRange(m, was, half, 0, e.first, stop) && MovedRange(m, half, now, added - delCount, start + delCount,
      j)
    requires var limit := e.first + e.count;
      && (stop >= start || stop >= limit) && (stop <= start || stop == e.first) && (stop <= limit || stop == e.first)
      && j >= limit && (j <= limit || j == start + delCount)
    ensures MovedOne(m, was, now, start, delCount, len, added, e)
  {
    hide CellOf;
    var shift := added - delCount;
    forall i ensures MovedStep(m, was, now, start, delCount, len, added, i, Lists(e, Source(start, delCount, added, i)) && Source(start, delCount, added, i) in m) {
      assert CellOf(now, i) == if start + delCount <= i - shift < j && i - shift in m then CellOf(m, i - shift)
        else CellOf(half, i);
      assert CellOf(half, i) == if e.first <= i - 0 < stop && i - 0 in m then CellOf(m, i - 0) else CellOf(was, i);
    }
  }

  lemma KeyMoved(m: map<int, Value>, was: map<int, Value>, now: map<int, Value>, start: nat, delCount: nat, len: nat,
    added: nat, e: Entry, to: int)
    requires e.Key? && start + delCount <= len && e.key < len && (e.key < start || e.key >= start + delCount)
    requires to == if e.key < start then e.key else e.key - delCount + added
    requires now == if e.key in m then was[to := m[e.key]] else was
    ensures MovedOne(m, was, now, start, delCount, len, added, e)
  {
    forall i ensures MovedStep(m, was, now, start, delCount, len, added, i, Lists(e, Source(start, delCount, added, i)) && Source(start, delCount, added, i) in m) {
      if i != to {
        assert CellOf(now, i) == CellOf(was, i);
      }
    }
  }

  lemma KeyCut(m: map<int, Value>, was: map<int, Value>, start: nat, delCount: nat, len: nat, added: nat, e: Entry)
    requires e.Zapped? || (e.Key? && start <= e.key < start + delCount)
    ensures MovedOne(m, was, was, start, delCount, len, added, e)
  {
    hide CellOf;
  }

  lemma NothingMoved(m: map<int, Value>, start: nat, delCount: nat, len: nat, added: nat)
    ensures MovedBy(m, map[], start, delCount, len, added, [])
  {
  }

  lemma MovedMore(m: map<int, Value>, r: map<int, Value>, r': map<int, Value>, start: nat, delCount: nat, len: nat,
    added: nat,
                  intervals: seq<Entry>, k: nat)
    requires k < |intervals| && MovedBy(m, r, start, delCount, len, added, intervals[..k])
    requires MovedOne(m, r, r', start, delCount, len, added, intervals[k])
    ensures MovedBy(m, r', start, delCount, len, added, intervals[..k + 1])
  {
    hide Listed, Lists, HasSource, Source;
    forall i ensures MovedAt(m, r', start, delCount, len, added, i, Listed(intervals[..k + 1], Source(start, delCount, added, i))) {
      ListedPrefix(intervals, k, Source(start, delCount, added, i));
      assert MovedAt(m, r, start, delCount, len, added, i, Listed(intervals[..k], Source(start, delCount, added, i)));
      assert MovedStep(m, r, r', start, delCount, len, added, i,
          Lists(intervals[k], Source(start, delCount, added, i)) && Source(start, delCount, added, i) in m);
    }
  }

  lemma AllMoved(m: map<int, Value>, r: map<int, Value>, start: nat, delCount: nat, len: nat, added: nat,
    intervals: seq<Entry>)
    requires MovedBy(m, r, start, delCount, len, added, intervals) && Covers(intervals, m, len)
      && start + delCount <= len
    requires forall i :: i in m ==> 0 <= i < len
    ensures IsMoved(m, r, start, delCount, len, added)
  {
    hide Listed, Within;
    forall i | HasSource(start, delCount, len, added, i) ensures CellOf(r, i) == CellOf(m, Source(start, delCount, added, i)) {
      assert MovedAt(m, r, start, delCount, len, added, i, Listed(intervals, Source(start, delCount, added, i)));
    }
    forall i | !HasSource(start, delCount, len, added, i) ensures i !in r {
      assert MovedAt(m, r, start, delCount, len, added, i, Listed(intervals, Source(start, delCount, added, i)));
    }
  }

  // ----- the whole splice
  // -------------------------------------------------------------------------------------------------

  /** start_i: negative numbers count from the end, and it stays within the array. */
  function StartOf(start: int, len: nat): (s: nat)
    ensures BeginsAt(start, len, s)
  {
    if start < 0 then (if start + len < 0 then 0 else start + len) else if start > len then len else start
  }

  /** del_count: without an argument, all that is left. */
  function DelCountOf(deleteCount: Option<int>, startI: nat, len: nat): (d: nat)
    requires startI <= len
    ensures Deletes(deleteCount, len - startI, d)
  {
    match deleteCount
    case None => len - startI
    case Some(d) => if d < 0 then 0 else if d > len - startI then len - startI else d
  }

  /** A splice begins at cell s: the place i may be given as i or, counted from the end, as i - len.
      Places behind the end mean the end, and those in front of cell 0 mean cell 0. */
  predicate BeginsAt(start: int, len: nat, s: nat) {
    && s <= len
    && (0 <= start <= len ==> s == start)
    && (0 - len <= start < 0 ==> len - s == 0 - start)
    && (start > len ==> s == len)
    && (start < 0 - len ==> s == 0)
  }

  /** Of the cells that are left, d are deleted: as many as asked for, if there are so many. */
  predicate Deletes(deleteCount: Option<int>, left: nat, d: nat) {
    && d <= left
    && (deleteCount == None ==> d == left)
    && (deleteCount.Some? && deleteCount.value <= 0 ==> d == 0)
    && (deleteCount.Some? && deleteCount.value > 0 ==>
          d == deleteCount.value || (d == left && left < deleteCount.value))
  }

  /** The cells of an array afterwards, and the deleted ones. */
  ghost predicate SplicedFrom(view: seq<Option<Value>>, now: seq<Option<Value>>, deleted: seq<Option<Value>>,
    start: int, deleteCount: Option<int>, args: seq<Value>)
  {
    exists s: nat, d: nat :: SplicedAt(view, now, deleted, s, d, args)
      && BeginsAt(start, |view|, s) && Deletes(deleteCount, |view| - s, d)
  }

  /** d cells from cell s on give way to new elements. */
  ghost predicate SplicedAt(view: seq<Option<Value>>, now: seq<Option<Value>>, deleted: seq<Option<Value>>,
    s: nat, d: nat, args: seq<Value>)
  {
    && s + d <= |view| && deleted == view[s..s + d]
    && |now| == |view| - d + |args|
    && (forall i :: 0 <= i < |now| ==>
          now[i] == if i < s then view[i] else if i < s + |args| then Some(args[i - s]) else view[i - |args| + d])
  }

  lemma IsSplicedFrom(view: seq<Option<Value>>, now: seq<Option<Value>>, deleted: seq<Option<Value>>,
    start: int, deleteCount: Option<int>, args: seq<Value>, s: nat, d: nat)
    requires s == StartOf(start, |view|) && d == DelCountOf(deleteCount, s, |view|)
    requires deleted == view[s..s + d] && now == view[..s] + Wrapped(args) + view[s + d..]
    ensures SplicedFrom(view, now, deleted, start, deleteCount, args)
  {
    assert SplicedAt(view, now, deleted, s, d, args);
  }

  /** ArraySplice. Without a deleteCount there are no new elements either. */
  method Splice(arr: JsArray, start: int, deleteCount: Option<int>, args: seq<Value>, simple: bool,
    forSlice: seq<Entry>, forMove: seq<Entry>)
    returns (deleted: JsArray)
    requires arr.Valid() && (deleteCount == None ==> args == [])
    requires var s := StartOf(start, arr.length);
      Covers(forSlice, arr.elements, s + DelCountOf(deleteCount, s, arr.length))
    requires Covers(forMove, arr.elements, arr.length)
    modifies arr
    ensures fresh(deleted) && deleted.Valid() && arr.Valid()
    ensures SplicedFrom(old(arr.View()), arr.View(), deleted.View(), start, deleteCount, args)
  {
    hide CellOf, Covers, IsMoved, IsSlice, IsSpliced, CellsOf, JsArray.Valid, SplicedFrom, BeginsAt, Deletes;
    ghost var m, view := arr.elements, arr.View();
    var len := arr.length;
    var startI := StartOf(start, len);
    var delCount := DelCountOf(deleteCount, startI, len);
    deleted := new JsArray(delCount);
    var added := |args|;
    if added == delCount || simple {
      SimpleSlice(arr, startI, delCount, deleted);
      SimpleMove(arr, startI, delCount, len, added);
    } else {
      SmartSlice(arr, startI, delCount, forSlice, deleted);
      SmartMove(arr, startI, delCount, len, added, forMove);
    }
    ghost var moved := arr.elements;
    InsertArguments(arr, startI, args);
    ArgumentsIn(m, moved, arr.elements, startI, delCount, len, args);
    ghost var spliced := arr.elements;
    arr.SetLength(len - delCount + added);
    SplicedView(arr.elements, spliced, m, arr.View(), view, startI, delCount, len, args);
    SlicedView(deleted.elements, deleted.View(), m, view, startI, delCount);
    IsSplicedFrom(view, arr.View(), deleted.View(), start, deleteCount, args, startI, delCount);
  }

  /** The loop that puts the new elements in. */
  method InsertArguments(arr: JsArray, startI: nat, args: seq<Value>)
    requires arr.Valid()
    modifies arr
    ensures arr.Valid() && WithArguments(old(arr.elements), arr.elements, startI, args)
  {
    hide CellOf;
    ghost var was := arr.elements;
    var i := startI;
    var argumentsIndex := 0;
    while argumentsIndex < |args|
      invariant 0 <= argumentsIndex <= |args| && i == startI + argumentsIndex && arr.Valid()
      invariant WithArguments(was, arr.elements, startI, args[..argumentsIndex])
    {
      ghost var now := arr.elements;
      arr.Put(i, args[argumentsIndex]);
      OneArgument(was, now, arr.elements, startI, args, argumentsIndex);
      i := i + 1;
      argumentsIndex := argumentsIndex + 1;
    }
    assert args[..argumentsIndex] == args;
  }

  ghost predicate WithArguments(m: map<int, Value>, r: map<int, Value>, start: nat, args: seq<Value>) {
    forall i :: CellOf(r, i) == if start <= i < start + |args| then Some(args[i - start]) else CellOf(m, i)
  }

  lemma OneArgument(m: map<int, Value>, r: map<int, Value>, r': map<int, Value>, start: nat, args: seq<Value>, k: nat)
    requires k < |args| && WithArguments(m, r, start, args[..k]) && r' == r[start + k := args[k]]
    ensures WithArguments(m, r', start, args[..k + 1])
  {
    forall i ensures CellOf(r', i) == if start <= i < start + k + 1 then Some(args[i - start]) else CellOf(m, i) {
      assert CellOf(r, i) == if start <= i < start + k then Some(args[i - start]) else CellOf(m, i);
    }
  }

  /** The new elements fill the room that was left. */
  lemma ArgumentsIn(m: map<int, Value>, moved: map<int, Value>, r: map<int, Value>, start: nat, delCount: nat, len: nat,
    args: seq<Value>)
    requires IsMoved(m, moved, start, delCount, len, |args|) && WithArguments(moved, r, start, args)
      && start + delCount <= len
    ensures IsSpliced(m, r, start, delCount, len, args)
  {
    forall i ensures CellOf(r, i) ==
      if start <= i < start + |args| then Some(args[i - start])
      else if 0 <= i < len - delCount + |args| then CellOf(m, Source(start, delCount, |args|, i))
      else None
    {
      assert CellOf(r, i) == if start <= i < start + |args| then Some(args[i - start]) else CellOf(moved, i);
    }
  }

  /** The two strategies agree: a splice has one result only. */
  lemma SplicedUnique(m: map<int, Value>, r: map<int, Value>, r': map<int, Value>, start: nat, delCount: nat, len: nat,
    args: seq<Value>)
    requires IsSpliced(m, r, start, delCount, len, args) && IsSpliced(m, r', start, delCount, len, args)
    ensures r == r'
  {
    forall i ensures CellOf(r, i) == CellOf(r', i) {
    }
    forall i ensures i in r <==> i in r' {
      assert CellOf(r, i) == CellOf(r', i);
    }
    forall i | i in r ensures r[i] == r'[i] {
      assert CellOf(r, i) == CellOf(r', i);
    }
  }

  lemma SplicedView(r: map<int, Value>, spliced: map<int, Value>, m: map<int, Value>, now: seq<Option<Value>>,
    view: seq<Option<Value>>,
                    start: nat, delCount: nat, len: nat, args: seq<Value>)
    requires IsSpliced(m, spliced, start, delCount, len, args) && start + delCount <= len
    requires r == map i | i in spliced && i < len - delCount + |args| :: spliced[i]
    requires view == CellsOf(m, len) && now == CellsOf(r, len - delCount + |args|)
    ensures now == view[..start] + Wrapped(args) + view[start + delCount..]
  {
    var want := view[..start] + Wrapped(args) + view[start + delCount..];
    forall i | 0 <= i < |now| ensures now[i] == want[i] {
      assert CellOf(spliced, i) == if start <= i < start + |args| then Some(args[i - start])
        else CellOf(m, Source(start, delCount, |args|, i));
    }
  }

  lemma SlicedView(s: map<int, Value>, now: seq<Option<Value>>, m: map<int, Value>, view: seq<Option<Value>>,
    start: nat, delCount: nat)
    requires IsSlice(m, s, start, delCount) && start + delCount <= |view| && view == CellsOf(m, |view|)
      && now == CellsOf(s, delCount)
    ensures now == view[start..start + delCount]
  {
    forall i | 0 <= i < delCount ensures now[i] == view[start + i] {
      assert CellOf(s, i) == CellOf(m, start + i);
    }
  }

  function Wrapped(args: seq<Value>): (v: seq<Option<Value>>) {
    seq(|args|, i requires 0 <= i < |args| => Some(args[i]))
  }
}
