/** Chunks of storage and the rings they are linked into. A ring is a head and the chunks that next
    leads to from it, one after the other and back to the head; previous leads the other way. Linking
    puts a chunk right behind the head, unlinking takes one out wherever it is. */
module AllocatorRings {

  type Fields = map<Chunk, Chunk>

  /** A header: the chunk's size and its place in a doubly linked ring. It stands at the address start. */
  class Chunk {
    const start: int
    var size: int
    var previous: Chunk
    var next: Chunk

    constructor (start: int, size: int)
      ensures this.start == start && this.size == size && previous == this && next == this
    {
      this.start, this.size, previous, next := start, size, this, this;
    }

    /** PreallocatedStorage::LinkTo */
    method LinkTo(other: Chunk, ghost all: set<Chunk>)
      requires this in all && other in all && other.next in all
      modifies this`next, this`previous, other`next, other.next`previous
      ensures Nexts(all) == old(Nexts(all)[this := other.next][other := this])
      ensures Prevs(all) == old(Prevs(all)[other.next := this][this := other])
    {
      next := other.next;
      other.next.previous := this;
      previous := other;
      other.next := this;
    }

    /** PreallocatedStorage::Unlink */
    method Unlink(ghost all: set<Chunk>)
      requires next in all && previous in all && next != this
      modifies next`previous, previous`next
      ensures Nexts(all) == old(Nexts(all)[previous := next])
      ensures Prevs(all) == old(Prevs(all)[next := previous])
    {
      next.previous := previous;
      previous.next := next;
    }
  }

  ghost function Nexts(all: set<Chunk>): (r: Fields)
    reads all`next
  {
    map c | c in all :: c.next
  }

  ghost function Prevs(all: set<Chunk>): (r: Fields)
    reads all`previous
  {
    map c | c in all :: c.previous
  }

  ghost predicate Distinct(s: seq<Chunk>) {
    forall i, j :: 0 <= i < j < |s| ==> s[i] != s[j]
  }

  function After(i: int, n: int): (j: int) {
    if i + 1 < n then i + 1 else 0
  }

  ghost predicate Linked(nexts: Fields, prevs: Fields, r: seq<Chunk>, i: int)
    requires 0 <= i < |r|
  {
    var j := After(i, |r|);
    r[i] in nexts && r[i] in prevs && r[j] in prevs && nexts[r[i]] == r[j] && prevs[r[j]] == r[i]
  }

  /** Going by next from r[0] leads through r and back to r[0], and previous leads the other way. */
  ghost predicate Ring(nexts: Fields, prevs: Fields, r: seq<Chunk>) {
    r != [] && Distinct(r) && forall i :: 0 <= i < |r| ==> Linked(nexts, prevs, r, i)
  }

  function Removed(s: seq<Chunk>, i: nat): (r: seq<Chunk>)
    requires i < |s|
  {
    s[..i] + s[i + 1..]
  }

  /** Linking a new chunk to the ring's head puts it right behind the head. */
  lemma Inserted(nexts: Fields, prevs: Fields, r: seq<Chunk>, c: Chunk)
    requires Ring(nexts, prevs, r) && c !in r
    ensures r[0] in nexts && nexts[r[0]] in r
    ensures Ring(nexts[c := nexts[r[0]]][r[0] := c], prevs[nexts[r[0]] := c][c := r[0]], [r[0], c] + r[1..])
  {
    assert Linked(nexts, prevs, r, 0);
    var nexts', prevs' := nexts[c := nexts[r[0]]][r[0] := c], prevs[nexts[r[0]] := c][c := r[0]];
    var r' := [r[0], c] + r[1..];
    forall i | 0 <= i < |r'| ensures Linked(nexts', prevs', r', i) {
      if i >= 1 {
        assert Linked(nexts, prevs, r, i - 1);
      }
    }
  }

  /** Unlinking takes a chunk out of the ring. */
  lemma Unlinked(nexts: Fields, prevs: Fields, r: seq<Chunk>, i: nat)
    requires Ring(nexts, prevs, r) && 0 < i < |r|
    ensures r[i] in nexts && r[i] in prevs && nexts[r[i]] in r && prevs[r[i]] in r && nexts[r[i]] != r[i]
    ensures Ring(nexts[prevs[r[i]] := nexts[r[i]]], prevs[nexts[r[i]] := prevs[r[i]]], Removed(r, i))
  {
    assert Linked(nexts, prevs, r, i) && Linked(nexts, prevs, r, i - 1);
    var nexts', prevs', r' := nexts[prevs[r[i]] := nexts[r[i]]], prevs[nexts[r[i]] := prevs[r[i]]], Removed(r, i);
    RemovedDistinct(r, i);
    forall j | 0 <= j < |r'| ensures Linked(nexts', prevs', r', j) {
      if j < i - 1 {
        assert Linked(nexts, prevs, r, j);
      } else if j >= i {
        assert Linked(nexts, prevs, r, j + 1);
      }
    }
  }

  lemma RemovedDistinct(r: seq<Chunk>, i: nat)
    requires Distinct(r) && i < |r|
    ensures Distinct(Removed(r, i)) && r[i] !in Removed(r, i) && forall c :: c in Removed(r, i) ==> c in r
  {
  }

  /** A ring does not notice changes to the links of other chunks. */
  lemma RingKept(nexts: Fields, prevs: Fields, nexts': Fields, prevs': Fields, r: seq<Chunk>)
    requires Ring(nexts, prevs, r)
    requires forall c :: c in r ==> (c in nexts ==> c in nexts' && nexts'[c] == nexts[c]) && (c in prevs ==> c in prevs' && prevs'[c] == prevs[c])
    ensures Ring(nexts', prevs', r)
  {
    forall i | 0 <= i < |r| ensures Linked(nexts', prevs', r, i) {
      assert Linked(nexts, prevs, r, i);
    }
  }

  lemma RingAt(nexts: Fields, prevs: Fields, r: seq<Chunk>, i: nat)
    requires Ring(nexts, prevs, r) && i < |r|
    ensures r[i] in nexts && r[i] in prevs && nexts[r[i]] == r[After(i, |r|)]
  {
    assert Linked(nexts, prevs, r, i);
  }
}
