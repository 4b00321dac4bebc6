/** How chunks divide the arena, and the two rings they are in. */
module AllocatorArena {
  import opened AllocatorRings

  const POINTER_SIZE := 8
  const HEADER := 3 * POINTER_SIZE
  const WORD := 0x1_0000_0000_0000_0000

  type Sizes = map<Chunk, int>

  ghost function SizeMap(all: set<Chunk>): (r: Sizes)
    reads all`size
  {
    map c | c in all :: c.size
  }

  // ----- the arena -------------------------------------------------------------------------------------------------

  /** Where the bytes of the i-th chunk end. */
  ghost function EndOf(order: seq<Chunk>, i: int, to: int): (r: int)
    requires 0 <= i < |order|
  {
    if i + 1 < |order| then order[i + 1].start else to
  }

  ghost predicate Fills(order: seq<Chunk>, sizes: Sizes, i: int, to: int)
    requires 0 <= i < |order|
  {
    order[i] in sizes && 0 <= sizes[order[i]] && order[i].start + HEADER + sizes[order[i]] == EndOf(order, i, to)
  }

  /** The chunks, each with its header, fill the addresses between from and to without a gap. */
  ghost predicate Tiles(order: seq<Chunk>, sizes: Sizes, from: int, to: int) {
    order != [] && order[0].start == from && forall i :: 0 <= i < |order| ==> Fills(order, sizes, i, to)
  }

  ghost function TotalSize(order: seq<Chunk>, sizes: Sizes): (r: int)
    requires forall i :: 0 <= i < |order| ==> order[i] in sizes
  {
    if order == [] then 0 else HEADER + sizes[order[0]] + TotalSize(order[1..], sizes)
  }

  /** Headers and sizes add up to the whole arena. */
  lemma {:induction false} TilesTotal(order: seq<Chunk>, sizes: Sizes, from: int, to: int)
    requires Tiles(order, sizes, from, to)
    ensures forall i :: 0 <= i < |order| ==> order[i] in sizes
    ensures TotalSize(order, sizes) == to - from
    decreases |order|
  {
    assert Fills(order, sizes, 0, to);
    forall i | 0 <= i < |order| ensures order[i] in sizes {
      assert Fills(order, sizes, i, to);
    }
    if |order| > 1 {
      forall i | 0 <= i < |order| - 1 ensures Fills(order[1..], sizes, i, to) {
        assert Fills(order, sizes, i + 1, to);
      }
      TilesTotal(order[1..], sizes, order[1].start, to);
    } else {
      assert order[1..] == [];
    }
  }

  /** No chunk reaches into a later one. */
  lemma {:induction false} TilesApart(order: seq<Chunk>, sizes: Sizes, from: int, to: int, i: nat, j: nat)
    requires Tiles(order, sizes, from, to) && i < j < |order|
    ensures order[i] in sizes && sizes[order[i]] >= 0 && order[i].start + HEADER + sizes[order[i]] <= order[j].start
    decreases j
  {
    assert Fills(order, sizes, i, to) && Fills(order, sizes, j - 1, to);
    if i < j - 1 {
      TilesApart(order, sizes, from, to, i, j - 1);
    }
  }

  lemma {:induction false} TilesWithin(order: seq<Chunk>, sizes: Sizes, from: int, to: int, i: nat)
    requires Tiles(order, sizes, from, to) && i < |order|
    ensures order[i] in sizes && sizes[order[i]] >= 0 && from <= order[i].start
      && order[i].start + HEADER + sizes[order[i]] <= to
  {
    assert Fills(order, sizes, i, to);
    if i > 0 {
      TilesApart(order, sizes, from, to, 0, i);
    }
    if i < |order| - 1 {
      assert Fills(order, sizes, |order| - 1, to);
      TilesApart(order, sizes, from, to, i, |order| - 1);
    }
  }

  /** The bytes of different chunks, headers included, do not overlap, and none are outside the arena. */
  lemma BlocksApart(order: seq<Chunk>, sizes: Sizes, from: int, to: int, c: Chunk, d: Chunk)
    requires Tiles(order, sizes, from, to) && c in order && d in order && c != d
    ensures c in sizes && d in sizes && from <= c.start && c.start + HEADER + sizes[c] <= to
    ensures c.start + HEADER + sizes[c] <= d.start || d.start + HEADER + sizes[d] <= c.start
  {
    hide Tiles;
    var i: nat :| i < |order| && order[i] == c;
    var j: nat :| j < |order| && order[j] == d;
    TilesWithin(order, sizes, from, to, i);
    TilesWithin(order, sizes, from, to, j);
    if i < j {
      TilesApart(order, sizes, from, to, i, j);
    } else {
      TilesApart(order, sizes, from, to, j, i);
    }
  }

  function SplitIn(order: seq<Chunk>, k: nat, left: Chunk): (r: seq<Chunk>)
    requires k < |order|
  {
    order[..k + 1] + [left] + order[k + 1..]
  }

  /** Splitting a chunk: the rest, with a header of its own, fills what the chunk gave up. */
  lemma TilesSplit(order: seq<Chunk>, sizes: Sizes, from: int, to: int, k: nat, left: Chunk, r: int)
    requires Tiles(order, sizes, from, to) && k < |order| && left !in order && 0 <= r
    requires order[k] in sizes && sizes[order[k]] >= r + HEADER && left.start == order[k].start + HEADER + r
    ensures Tiles(SplitIn(order, k, left), sizes[order[k] := r][left := sizes[order[k]] - r - HEADER], from, to)
  {
    var sizes', order' := sizes[order[k] := r][left := sizes[order[k]] - r - HEADER], SplitIn(order, k, left);
    assert Fills(order, sizes, k, to);
    forall i | 0 <= i < |order'| ensures Fills(order', sizes', i, to) {
      if i < k {
        assert Fills(order, sizes, i, to);
        TilesApart(order, sizes, from, to, i, k);
      } else if i > k + 1 {
        assert Fills(order, sizes, i - 1, to);
        TilesApart(order, sizes, from, to, k, i - 1);
      }
    }
  }

  // ----- the rings -------------------------------------------------------------------------------------------------

  /** Two rings with no chunk in common. */
  ghost predicate TwoRings(nexts: Fields, prevs: Fields, a: seq<Chunk>, b: seq<Chunk>) {
    Ring(nexts, prevs, a) && Ring(nexts, prevs, b) && forall c :: c in a ==> c !in b
  }

  lemma TwoRingsSwap(nexts: Fields, prevs: Fields, a: seq<Chunk>, b: seq<Chunk>)
    requires TwoRings(nexts, prevs, a, b)
    ensures TwoRings(nexts, prevs, b, a)
  {
  }

  lemma TakenOut(nexts: Fields, prevs: Fields, a: seq<Chunk>, b: seq<Chunk>, i: nat)
    requires TwoRings(nexts, prevs, a, b) && 0 < i < |a|
    ensures a[i] in nexts && a[i] in prevs && nexts[a[i]] in a && prevs[a[i]] in a && nexts[a[i]] != a[i]
    ensures TwoRings(nexts[prevs[a[i]] := nexts[a[i]]], prevs[nexts[a[i]] := prevs[a[i]]], Removed(a, i), b)
    ensures a[i] !in Removed(a, i) && a[i] !in b
  {
    hide Ring;
    Unlinked(nexts, prevs, a, i);
    RingDistinct(nexts, prevs, a);
    RemovedDistinct(a, i);
    RingKept(nexts, prevs, nexts[prevs[a[i]] := nexts[a[i]]], prevs[nexts[a[i]] := prevs[a[i]]], b);
  }

  lemma RingDistinct(nexts: Fields, prevs: Fields, a: seq<Chunk>)
    requires Ring(nexts, prevs, a)
    ensures Distinct(a) && a != []
  {
  }

  lemma PutIn(nexts: Fields, prevs: Fields, a: seq<Chunk>, b: seq<Chunk>, c: Chunk)
    requires TwoRings(nexts, prevs, a, b) && c !in a && c !in b
    ensures a != [] && a[0] in nexts && nexts[a[0]] in a
    ensures TwoRings(nexts[c := nexts[a[0]]][a[0] := c], prevs[nexts[a[0]] := c][c := a[0]], [a[0], c] + a[1..], b)
  {
    hide Ring;
    RingDistinct(nexts, prevs, a);
    Inserted(nexts, prevs, a, c);
    RingKept(nexts, prevs, nexts[c := nexts[a[0]]][a[0] := c], prevs[nexts[a[0]] := c][c := a[0]], b);
  }

  // ----- requests --------------------------------------------------------------------------------------------------

  /** The request rounded up to whole pointers, in machine words. */
  function Rounded(size: int): (r: int)
    requires 0 <= size < WORD
  {
    (size + POINTER_SIZE - 1) % WORD / POINTER_SIZE * POINTER_SIZE
  }

  /** The rounded request and another header do not exceed the machine word: the request is not one
      of the largest, or so large that rounding up wraps it around. */
  predicate Measurable(size: int) {
    size <= WORD - HEADER - POINTER_SIZE || size > WORD - POINTER_SIZE
  }

  /** A rounded request is enough exactly when rounding up stays within the machine word, and then it is the least
      multiple that is. */
  lemma RoundedEnough(size: int)
    requires 0 <= size < WORD
    ensures Rounded(size) >= size <==> size <= WORD - POINTER_SIZE
    ensures if size <= WORD - POINTER_SIZE then Rounded(size) < size + POINTER_SIZE else Rounded(size) == 0
    ensures Rounded(size) % POINTER_SIZE == 0 && 0 <= Rounded(size) < WORD
  {
  }
}
