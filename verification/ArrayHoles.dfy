/** Moving holes and undefined elements to the end of an array. */
module ArrayHoles {
  import opened SparseArrays

  type Cells = seq<Option<Value>>

  predicate IsDefined(c: Option<Value>) {
    c.Some? && c.value != Undefined
  }

  lemma PutCells(m: map<int, Value>, n: nat, i: nat, x: Value)
    requires i < n
    ensures CellsOf(m[i := x], n) == CellsOf(m, n)[i := Some(x)] && CellsOf(m - {i}, n) == CellsOf(m, n)[i := None]
  {
    var none: Option<Value> := None;
    assert CellsOf(m - {i}, n) == CellsOf(m, n)[i := none];
  }

  /** How many holes there are from lo up to hi. */
  ghost function Holes(v: Cells, lo: int, hi: int): (h: nat)
    requires 0 <= lo && hi <= |v|
    ensures hi >= lo ==> h <= hi - lo
    decreases hi - lo
  {
    if hi <= lo then 0 else Holes(v, lo, hi - 1) + if v[hi - 1] == None then 1 else 0
  }

  /** How many defined elements there are below hi. */
  ghost function Defined(v: Cells, hi: nat): (d: nat)
    requires hi <= |v|
  {
    if hi == 0 then 0 else Defined(v, hi - 1) + if IsDefined(v[hi - 1]) then 1 else 0
  }

  lemma {:induction false} HolesSplit(v: Cells, lo: int, mid: int, hi: int)
    requires 0 <= lo <= mid <= hi <= |v|
    ensures Holes(v, lo, hi) == Holes(v, lo, mid) + Holes(v, mid, hi)
    decreases hi - mid
  {
    if mid < hi {
      HolesSplit(v, lo, mid, hi - 1);
    }
  }

  lemma HolesOne(v: Cells, k: int)
    requires 0 <= k < |v|
    ensures Holes(v, k, k + 1) == if v[k] == None then 1 else 0
  {
    assert Holes(v, k, k) == 0;
  }

  /** The same defined elements, each as often. */
  ghost predicate SameDefined(o: Cells, v: Cells) {
    |o| == |v| && Defined(o, |o|) == Defined(v, |v|) && forall c :: IsDefined(c) ==> multiset(o)[c] == multiset(v)[c]
  }

  lemma {:induction false} DefinedUpdate(v: Cells, i: nat, c: Option<Value>, hi: nat)
    requires i < |v| && hi <= |v|
    ensures Defined(v[i := c], hi) == Defined(v, hi) + if i < hi then (if IsDefined(c) then 1
      else 0) - (if IsDefined(v[i]) then 1 else 0) else 0
    decreases hi
  {
    if hi > 0 {
      DefinedUpdate(v, i, c, hi - 1);
    }
  }

  lemma {:induction false} DefinedFront(v: Cells, d: nat, hi: nat)
    requires d <= |v| && hi <= |v| && (forall k :: 0 <= k < d ==> IsDefined(v[k])) && (forall k :: d <= k < |v| ==> !IsDefined(v[k]))
    ensures Defined(v, hi) == if hi < d then hi else d
    decreases hi
  {
    if hi > 0 {
      DefinedFront(v, d, hi - 1);
    }
  }

  lemma {:induction false} DefinedAndHoles(v: Cells, hi: nat)
    requires hi <= |v|
    ensures Defined(v, hi) + Holes(v, 0, hi) <= hi
    decreases hi
  {
    if hi > 0 {
      DefinedAndHoles(v, hi - 1);
    }
  }

  /** A defined element changes places with one that is not; the place it leaves becomes undefined. */
  lemma FilledSame(o: Cells, v: Cells, first: nat, last: nat)
    requires SameDefined(o, v) && first < last < |v| && !IsDefined(v[first]) && IsDefined(v[last])
    ensures SameDefined(o, v[first := v[last]][last := Some(Undefined)])
  {
    var u := v[first := v[last]];
    var w := u[last := Some(Undefined)];
    DefinedUpdate(v, first, v[last], |v|);
    DefinedUpdate(u, last, Some(Undefined), |v|);
    assert multiset(u) == multiset(v) - multiset{v[first]} + multiset{v[last]};
    assert multiset(w) == multiset(u) - multiset{v[last]} + multiset{Some(Undefined)};
  }

  // ----- the search from both ends --------------------------------------------------------------------------------

  /** Defined elements in front, none behind, and between them what was there before: only the last
      place may have been emptied by a move. */
  ghost predicate Squeezed(o: Cells, v: Cells, first: int, last: int) {
    && 0 <= first <= last < |v| == |o| && SameDefined(o, v)
    && (forall k :: 0 <= k < first ==> IsDefined(v[k]))
    && (forall k :: last < k < |v| ==> !IsDefined(v[k]))
    && (forall k :: first < k < last ==> v[k] == o[k])
    && AsBefore(o, v, last)
  }

  ghost predicate AsBefore(o: Cells, v: Cells, k: int)
    requires 0 <= k < |v| == |o|
  {
    v[k] == o[k] || (v[k] == Some(Undefined) && IsDefined(o[k]))
  }

  /** A filled place held what has been counted. */
  ghost predicate AtFirst(o: Cells, v: Cells, first: int)
    requires 0 <= first < |v| == |o|
  {
    IsDefined(v[first]) || AsBefore(o, v, first)
  }

  /** The holes that have been counted when the outer loop looks at its condition. */
  ghost predicate Counted(o: Cells, v: Cells, first: int, last: int, numHoles: int)
    requires 0 <= first <= last < |v| == |o|
  {
    numHoles == Holes(o, 0, first) + Holes(o, last + 1, |o|) +
      if first == last || IsDefined(v[first]) then Holes(o, first, first + 1) else 0
  }

  /** The same without the outer loop's last turn. */
  ghost predicate Counting(o: Cells, v: Cells, first: int, last: int, numHoles: int)
    requires 0 <= first <= last < |v| == |o|
  {
    numHoles == Holes(o, 0, first) + Holes(o, last + 1, |o|) + if IsDefined(v[first]) then Holes(o, first, first + 1)
      else 0
  }

  /** All the holes up to first and behind last have been counted. */
  ghost predicate CountedBoth(o: Cells, first: int, last: int, numHoles: int)
    requires 0 <= first <= last < |o|
  {
    numHoles == Holes(o, 0, first + 1) + Holes(o, last + 1, |o|)
  }

  lemma CellAt(arr: JsArray, i: nat)
    requires i < arr.length
    ensures IsDefined(CellsOf(arr.elements, arr.length)[i]) <==> arr.Get(i) != Undefined
    ensures CellsOf(arr.elements, arr.length)[i] == None <==> i !in arr.elements
    ensures i in arr.elements ==> CellsOf(arr.elements, arr.length)[i] == Some(arr.Get(i))
  {
  }

  lemma FirstAdvances(o: Cells, v: Cells, first: int, last: int, numHoles: int)
    requires Squeezed(o, v, first, last) && AtFirst(o, v, first) && Counting(o, v, first, last, numHoles)
      && first < last && IsDefined(v[first])
    ensures Squeezed(o, v, first + 1, last) && AtFirst(o, v, first + 1) && Counting(o, v, first + 1, last, numHoles)
  {
    hide SameDefined;
    HolesSplit(o, 0, first, first + 1);
    HolesOne(o, first + 1);
  }

  lemma FirstCounted(o: Cells, v: Cells, first: int, last: int, numHoles: int)
    requires Squeezed(o, v, first, last) && AtFirst(o, v, first) && Counting(o, v, first, last, numHoles)
    ensures CountedBoth(o, first, last, if v[first] == None then numHoles + 1 else numHoles)
  {
    hide SameDefined;
    HolesSplit(o, 0, first, first + 1);
    HolesOne(o, first);
  }

  lemma LastRetreats(o: Cells, v: Cells, first: int, last: int, numHoles: int)
    requires Squeezed(o, v, first, last) && AtFirst(o, v, first) && CountedBoth(o, first, last, numHoles)
    requires first < last && !IsDefined(v[first]) && !IsDefined(v[last])
    ensures Squeezed(o, v, first, last - 1) && CountedBoth(o, first, last - 1, if v[last] == None then numHoles + 1
      else numHoles)
  {
    hide SameDefined;
    HolesSplit(o, last, last + 1, |o|);
    HolesOne(o, last);
  }

  lemma PlaceFilled(o: Cells, v: Cells, first: int, last: int, numHoles: int)
    requires Squeezed(o, v, first, last) && CountedBoth(o, first, last, numHoles) && first < last
      && !IsDefined(v[first]) && IsDefined(v[last])
    ensures var w := v[first := v[last]][last := Some(Undefined)];
      Squeezed(o, w, first, last) && AtFirst(o, w, first) && Counted(o, w, first, last, numHoles) && IsDefined(w[first])
  {
    var w := v[first := v[last]][last := Some(Undefined)];
    SqueezedSize(o, v, first, last);
    FilledSame(o, v, first, last);
    HolesSplit(o, 0, first, first + 1);
    hide SameDefined, Holes;
    FilledSqueezed(o, v, w, first, last);
  }

  lemma FilledSqueezed(o: Cells, v: Cells, w: Cells, first: int, last: int)
    requires Squeezed(o, v, first, last) && first < last && IsDefined(v[last]) && SameDefined(o, w)
    requires w == v[first := v[last]][last := Some(Undefined)]
    ensures Squeezed(o, w, first, last)
  {
    hide SameDefined;
  }

  /** Find first undefined element. */
  method FindUndefined(arr: JsArray, first0: nat, last: nat, ghost o: Cells, ghost numHoles: int) returns (first: nat)
    requires first0 <= last < arr.length && Squeezed(o, CellsOf(arr.elements, arr.length), first0, last)
    requires AtFirst(o, CellsOf(arr.elements, arr.length), first0)
      && Counting(o, CellsOf(arr.elements, arr.length), first0, last, numHoles)
    ensures first0 <= first <= last && Squeezed(o, CellsOf(arr.elements, arr.length), first, last)
    ensures AtFirst(o, CellsOf(arr.elements, arr.length), first)
      && Counting(o, CellsOf(arr.elements, arr.length), first, last, numHoles)
    ensures first < last ==> !IsDefined(CellsOf(arr.elements, arr.length)[first])
    ensures first0 < last && IsDefined(CellsOf(arr.elements, arr.length)[first0]) ==> first > first0
  {
    hide Squeezed, AtFirst, Counting, CellsOf;
    ghost var v := CellsOf(arr.elements, arr.length);
    SqueezedSize(o, v, first0, last);
    first := first0;
    CellAt(arr, first);
    while first < last && arr.Get(first) != Undefined
      invariant first0 <= first <= last && Squeezed(o, v, first, last) && AtFirst(o, v, first)
        && Counting(o, v, first, last, numHoles)
      invariant IsDefined(v[first]) <==> arr.Get(first) != Undefined
    {
      FirstAdvances(o, v, first, last, numHoles);
      first := first + 1;
      CellAt(arr, first);
    }
  }

  lemma SqueezedSize(o: Cells, v: Cells, first: int, last: int)
    requires Squeezed(o, v, first, last)
    ensures 0 <= first <= last < |v| == |o| && SameDefined(o, v)
  {
  }

  /** Find last defined element, and count the holes passed by. */
  method FindDefined(arr: JsArray, first: nat, last0: nat, ghost o: Cells, numHoles0: int)
    returns (last: nat, numHoles: int)
    requires first <= last0 < arr.length && Squeezed(o, CellsOf(arr.elements, arr.length), first, last0)
    requires AtFirst(o, CellsOf(arr.elements, arr.length), first) && CountedBoth(o, first, last0, numHoles0)
    requires first < last0 ==> !IsDefined(CellsOf(arr.elements, arr.length)[first])
    ensures first <= last <= last0 && Squeezed(o, CellsOf(arr.elements, arr.length), first, last)
      && CountedBoth(o, first, last, numHoles)
    ensures first < last ==> IsDefined(CellsOf(arr.elements, arr.length)[last])
  {
    hide Squeezed, AtFirst, CountedBoth, CellsOf;
    ghost var v := CellsOf(arr.elements, arr.length);
    SqueezedSize(o, v, first, last0);
    last, numHoles := last0, numHoles0;
    CellAt(arr, last);
    while first < last && arr.Get(last) == Undefined
      invariant first <= last <= last0 && Squeezed(o, v, first, last) && CountedBoth(o, first, last, numHoles)
      invariant IsDefined(v[last]) <==> arr.Get(last) != Undefined
    {
      LastRetreats(o, v, first, last, numHoles);
      if last !in arr.elements {
        CellAt(arr, last);
        numHoles := numHoles + 1;
      } else {
        CellAt(arr, last);
      }
      last := last - 1;
      CellAt(arr, last);
    }
  }

  lemma StartSqueezed(o: Cells)
    requires |o| >= 2
    ensures Squeezed(o, o, 0, |o| - 1) && AtFirst(o, o, 0) && Counted(o, o, 0, |o| - 1, 0)
  {
    HolesOne(o, 0);
  }

  lemma StartsTurn(o: Cells, v: Cells, first: int, last: int, numHoles: int)
    requires 0 <= first < last < |v| == |o|
    ensures Counted(o, v, first, last, numHoles) <==> Counting(o, v, first, last, numHoles)
  {
  }

  lemma EndsTurn(o: Cells, v: Cells, first: int, last: int, numHoles: int)
    requires 0 <= first == last < |v| == |o| && CountedBoth(o, first, last, numHoles)
    ensures Counted(o, v, first, last, numHoles)
  {
    HolesSplit(o, 0, first, first + 1);
  }

  /** One turn of the outer loop. */
  method RemoveOne(arr: JsArray, first0: nat, last0: nat, numHoles0: int, ghost o: Cells)
    returns (first: nat, last: nat, numHoles: int)
    requires arr.Valid() && first0 < last0 < arr.length && Squeezed(o, CellsOf(arr.elements, arr.length), first0, last0)
    requires AtFirst(o, CellsOf(arr.elements, arr.length), first0)
      && Counted(o, CellsOf(arr.elements, arr.length), first0, last0, numHoles0)
    modifies arr
    ensures arr.Valid() && arr.length == old(arr.length) && first0 <= first <= last <= last0
    ensures Squeezed(o, CellsOf(arr.elements, arr.length), first, last)
      && AtFirst(o, CellsOf(arr.elements, arr.length), first)
    ensures Counted(o, CellsOf(arr.elements, arr.length), first, last, numHoles)
    ensures last - first < last0 - first0
      || (IsDefined(CellsOf(arr.elements, arr.length)[first])
        && !IsDefined(old(CellsOf(arr.elements, arr.length)[first0])))
  {
    hide Squeezed, AtFirst, Counting, Counted, CountedBoth, CellsOf;
    ghost var v := CellsOf(arr.elements, arr.length);
    SqueezedSize(o, v, first0, last0);
    StartsTurn(o, v, first0, last0, numHoles0);
    first := FindUndefined(arr, first0, last0, o, numHoles0);
    CellAt(arr, first);
    FirstCounted(o, v, first, last0, numHoles0);
    numHoles := numHoles0;
    if first !in arr.elements {
      numHoles := numHoles + 1;
    }
    last, numHoles := FindDefined(arr, first, last0, o, numHoles);
    if first < last {
      CellAt(arr, last);
      CellAt(arr, first);
      PlaceFilled(o, v, first, last, numHoles);
      PutCells(arr.elements, arr.length, first, arr.Get(last));
      arr.Put(first, arr.Get(last));
      PutCells(arr.elements, arr.length, last, Undefined);
      arr.Put(last, Undefined);
    } else {
      EndsTurn(o, v, first, last, numHoles);
    }
  }

  lemma EndSqueezed(o: Cells, v: Cells, first: int, last: int, numHoles: int)
    requires first == last && Squeezed(o, v, first, last) && Counted(o, v, first, last, numHoles)
    ensures numHoles == Holes(o, 0, |o|) && SameDefined(o, v)
    ensures (forall k :: 0 <= k < first ==> IsDefined(v[k])) && (forall k :: first < k < |v| ==> !IsDefined(v[k]))
    ensures var d := if IsDefined(v[first]) then first + 1 else first; d + numHoles <= |o|
  {
    HolesSplit(o, 0, first, first + 1);
    HolesSplit(o, 0, first + 1, |o|);
    DefinedFront(v, if IsDefined(v[first]) then first + 1 else first, |v|);
    DefinedAndHoles(o, |o|);
  }

  lemma UndefinedSame(o: Cells, v: Cells, i: nat, c: Option<Value>)
    requires SameDefined(o, v) && i < |v| && !IsDefined(v[i]) && !IsDefined(c)
    ensures SameDefined(o, v[i := c])
  {
    DefinedUpdate(v, i, c, |v|);
    assert multiset(v[i := c]) == multiset(v) - multiset{v[i]} + multiset{c};
  }

  /** The undefined elements and the holes at the end are filled in. */
  method FillEnd(arr: JsArray, d: nat, numHoles: nat, ghost o: Cells)
    requires arr.Valid() && d + numHoles <= arr.length && SameDefined(o, CellsOf(arr.elements, arr.length))
    requires forall k :: 0 <= k < d ==> IsDefined(CellsOf(arr.elements, arr.length)[k])
    requires forall k :: d <= k < arr.length ==> !IsDefined(CellsOf(arr.elements, arr.length)[k])
    modifies arr
    ensures arr.Valid() && arr.length == old(arr.length) && SameDefined(o, CellsOf(arr.elements, arr.length))
    ensures var v := CellsOf(arr.elements, arr.length);
      && (forall k :: 0 <= k < d ==> IsDefined(v[k]))
      && (forall k :: d <= k < arr.length - numHoles ==> v[k] == Some(Undefined))
      && (forall k :: arr.length - numHoles <= k < arr.length ==> v[k] == None)
  {
    hide SameDefined, CellsOf;
    var length := arr.length;
    ghost var v := CellsOf(arr.elements, length);
    var i := d;
    while i < length - numHoles
      invariant d <= i <= length - numHoles && arr.Valid() && arr.length == length && v == CellsOf(arr.elements, length)
        && SameDefined(o, v)
      invariant forall k :: 0 <= k < d ==> IsDefined(v[k])
      invariant forall k :: d <= k < i ==> v[k] == Some(Undefined)
      invariant forall k :: i <= k < length ==> !IsDefined(v[k])
    {
      PutCells(arr.elements, length, i, Undefined);
      UndefinedSame(o, v, i, Some(Undefined));
      arr.Put(i, Undefined);
      v := v[i := Some(Undefined)];
      i := i + 1;
    }
    while i < length
      invariant length - numHoles <= i <= length && arr.Valid() && arr.length == length
        && v == CellsOf(arr.elements, length) && SameDefined(o, v)
      invariant forall k :: 0 <= k < d ==> IsDefined(v[k])
      invariant forall k :: d <= k < length - numHoles ==> v[k] == Some(Undefined)
      invariant forall k :: length - numHoles <= k < i ==> v[k] == None
      invariant forall k :: i <= k < length ==> !IsDefined(v[k])
    {
      PutCells(arr.elements, length, i, Undefined);
      UndefinedSame(o, v, i, None);
      arr.Delete(i);
      v := v[i := None];
      i := i + 1;
    }
  }

  /** SafeRemoveArrayHoles: the defined elements come first, then the undefined ones, then the
      holes, as many of each as there were. */
  method SafeRemoveArrayHoles(arr: JsArray) returns (firstUndefined: nat)
    requires arr.Valid() && arr.length >= 2
    modifies arr
    ensures arr.Valid() && arr.length == old(arr.length)
    ensures var o, v := CellsOf(old(arr.elements), arr.length), CellsOf(arr.elements, arr.length);
      var holes := Holes(o, 0, arr.length);
      && firstUndefined + holes <= arr.length
      && (forall k :: 0 <= k < firstUndefined ==> IsDefined(v[k]))
      && (forall k :: firstUndefined <= k < arr.length - holes ==> v[k] == Some(Undefined))
      && (forall k :: arr.length - holes <= k < arr.length ==> v[k] == None)
      && SameDefined(o, v)
  {
    hide Squeezed, AtFirst, Counting, Counted, CountedBoth, CellsOf, SameDefined, Holes;
    ghost var o := CellsOf(arr.elements, arr.length);
    var length := arr.length;
    firstUndefined := 0;
    var lastDefined: nat := length - 1;
    var numHoles := 0;
    StartSqueezed(o);
    while firstUndefined < lastDefined
      invariant 0 <= firstUndefined <= lastDefined < length && arr.Valid() && arr.length == length == |o|
      invariant Squeezed(o, CellsOf(arr.elements, length), firstUndefined, lastDefined)
      invariant AtFirst(o, CellsOf(arr.elements, length), firstUndefined)
      invariant Counted(o, CellsOf(arr.elements, length), firstUndefined, lastDefined, numHoles)
      decreases lastDefined - firstUndefined, if IsDefined(CellsOf(arr.elements, length)[firstUndefined]) then 0 else 1
    {
      firstUndefined, lastDefined, numHoles := RemoveOne(arr, firstUndefined, lastDefined, numHoles, o);
    }
    EndSqueezed(o, CellsOf(arr.elements, length), firstUndefined, lastDefined, numHoles);
    CellAt(arr, firstUndefined);
    if arr.Get(firstUndefined) != Undefined {
      firstUndefined := firstUndefined + 1;
    }
    FillEnd(arr, firstUndefined, numHoles, o);
  }
}
