/** JavaScript arrays with holes, without inherited elements. */
module SparseArrays {

  datatype Value = Undefined | Other(id: int)

  datatype Option<T> = None | Some(value: T)

  /** What is at an index: a value or a hole. */
  ghost function CellOf(m: map<int, Value>, i: int): (c: Option<Value>) {
    if i in m then Some(m[i]) else None
  }

  /** The first n cells. */
  ghost function CellsOf(m: map<int, Value>, n: nat): (v: seq<Option<Value>>)
    ensures |v| == n
  {
    seq(n, i requires 0 <= i < n => CellOf(m, i))
  }

  class JsArray {
    var elements: map<int, Value>
    var length: nat

    ghost predicate Valid()
      reads this
    {
      forall i :: i in elements ==> 0 <= i < length
    }

    /** The array cell by cell. */
    ghost function View(): (v: seq<Option<Value>>)
      reads this
    {
      CellsOf(elements, length)
    }

    constructor (length: nat)
      ensures Valid() && elements == map[] && this.length == length
    {
      elements, this.length := map[], length;
    }

    /** array[i]; a hole reads as undefined. */
    function Get(i: int): (v: Value)
      reads this
    {
      if i in elements then elements[i] else Undefined
    }

    /** !IS_UNDEFINED(array[i]) || i in array. */
    predicate Has(i: int)
      reads this
      ensures Has(i) <==> i in elements
      ensures Has(i) ==> elements[i] == Get(i)
    {
      Get(i) != Undefined || i in elements
    }

    /** array[i] = v. */
    method Put(i: nat, v: Value)
      requires Valid()
      modifies this
      ensures Valid() && elements == old(elements)[i := v] && length == if i < old(length) then old(length) else i + 1
    {
      elements := elements[i := v];
      length := if i < length then length else i + 1;
    }

    /** delete array[i]. */
    method Delete(i: int)
      requires Valid()
      modifies this`elements
      ensures Valid() && elements == old(elements) - {i}
    {
      elements := elements - {i};
    }

    /** array.length = n. */
    method SetLength(n: nat)
      requires Valid()
      modifies this
      ensures Valid() && length == n && elements == map i | i in old(elements) && i < n :: old(elements)[i]
    {
      elements := map i | i in elements && i < n :: elements[i];
      length := n;
    }
  }

  /** An entry of what %GetArrayKeys returns: a key, an interval, or a key that was zapped. */
  datatype Entry = Key(key: nat) | Interval(first: nat, count: nat) | Zapped

  /** %GetArrayKeys(array, limit): entries below the limit that cover every element below it. */
  ghost predicate Covers(intervals: seq<Entry>, elements: map<int, Value>, limit: int) {
    && (forall k :: 0 <= k < |intervals| ==> Within(intervals[k], limit))
    && (forall i :: i in elements && 0 <= i < limit ==> Listed(intervals, i))
  }

  ghost predicate Within(e: Entry, limit: int) {
    match e
    case Key(k) => k < limit
    case Interval(first, count) => first + count <= limit
    case Zapped => true
  }

  ghost predicate Lists(e: Entry, i: int) {
    match e
    case Key(k) => i == k
    case Interval(first, count) => first <= i < first + count
    case Zapped => false
  }

  ghost predicate Listed(intervals: seq<Entry>, i: int) {
    exists k :: 0 <= k < |intervals| && Lists(intervals[k], i)
  }

  lemma ListedPrefix(intervals: seq<Entry>, k: nat, i: int)
    requires k < |intervals|
    ensures Listed(intervals[..k + 1], i) <==> Listed(intervals[..k], i) || Lists(intervals[k], i)
  {
    hide Lists;
    var p, q := intervals[..k + 1], intervals[..k];
    if Listed(q, i) {
      var x :| 0 <= x < |q| && Lists(q[x], i);
      assert Lists(p[x], i);
    }
    if Lists(intervals[k], i) {
      assert Lists(p[k], i);
    }
    if Listed(p, i) && !Lists(intervals[k], i) {
      var x :| 0 <= x < |p| && Lists(p[x], i);
      assert Lists(q[x], i);
    }
  }
}
