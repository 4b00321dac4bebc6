/** The allocator over preallocated storage. It is an arena of chunks, each with a header in front, in
    one of two rings: the free chunks and those in use. A request takes the first free chunk of its
    exact size, or else splits the first one that is large enough. */
module Allocator {
  import opened AllocatorRings
  import opened AllocatorArena

  ghost function SetOf(s: seq<Chunk>): (r: set<Chunk>) {
    set c | c in s
  }

  /** s without c. */
  ghost function Without(s: seq<Chunk>, c: Chunk): (r: seq<Chunk>) {
    if s == [] then [] else if s[0] == c then s[1..] else [s[0]] + Without(s[1..], c)
  }

  lemma {:induction false} WithoutAt(s: seq<Chunk>, i: nat)
    requires Distinct(s) && i < |s|
    ensures Without(s, s[i]) == Removed(s, i)
  {
    if i > 0 {
      WithoutAt(s[1..], i - 1);
      assert Removed(s, i) == [s[0]] + Removed(s[1..], i - 1);
    }
  }

  /** The header at each chunk's address is that chunk's. */
  ghost predicate Headed(headers: map<int, Chunk>, order: seq<Chunk>) {
    && (forall c :: c in order ==> c.start in headers && headers[c.start] == c)
    && (forall a :: a in headers ==> headers[a] in order && headers[a].start == a)
  }

  /** Every chunk of the arena is in exactly one of the two rings. */
  ghost predicate Accounted(order: seq<Chunk>, free: seq<Chunk>, used: seq<Chunk>) {
    multiset(free) + multiset(used) == multiset(order)
  }

  class Storage {
    const freeList: Chunk
    const inUseList: Chunk
    var preallocated: bool
    var headers: map<int, Chunk>
    ghost var free: seq<Chunk>
    ghost var used: seq<Chunk>
    ghost var order: seq<Chunk>
    ghost var all: set<Chunk>
    ghost var from: int
    ghost var to: int

    ghost predicate Rings()
      reads this, all
    {
      freeList in all && inUseList in all && freeList != inUseList
        && TwoRings(Nexts(all), Prevs(all), [freeList] + free, [inUseList] + used)
    }

    ghost predicate Arena()
      reads this, all
    {
      && Tiles(order, SizeMap(all), from, to) && 0 < from && to <= WORD
      && Accounted(order, free, used) && Headed(headers, order)
    }

    ghost predicate Valid()
      reads this, all
    {
      && all == {freeList, inUseList} + SetOf(order) && Rings()
      && (if preallocated then Arena() else free == [] && used == [] && order == [])
    }

    constructor ()
      ensures Valid() && !preallocated && fresh(all)
    {
      freeList := new Chunk(0, 0);
      inUseList := new Chunk(0, 0);
      preallocated, headers := false, map[];
      free, used, order, from, to := [], [], [], 0, 0;
      new;
      all := {freeList, inUseList};
      assert Linked(Nexts(all), Prevs(all), [freeList], 0) && Linked(Nexts(all), Prevs(all), [inUseList], 0);
      assert [freeList] + [] == [freeList] && [inUseList] + [] == [inUseList];
    }

    /** Unlinks the i-th chunk of a ring. */
    method Unhook(c: Chunk, ghost wasFree: bool, ghost i: nat)
      requires Rings() && i < |if wasFree then free else used| && c == (if wasFree then free else used)[i]
      modifies this`free, this`used, all`next, all`previous
      ensures Rings() && c in all && c !in free && c !in used && c != freeList && c != inUseList
      ensures free == if wasFree then Removed(old(free), i) else old(free)
      ensures used == if wasFree then old(used) else Removed(old(used), i)
    {
      hide TwoRings, Nexts, Prevs, Removed;
      if wasFree {
        UnhookRings(Nexts(all), Prevs(all), freeList, free, inUseList, used, i);
      } else {
        TwoRingsSwap(Nexts(all), Prevs(all), [freeList] + free, [inUseList] + used);
        UnhookRings(Nexts(all), Prevs(all), inUseList, used, freeList, free, i);
      }
      LinksOf(all, c);
      c.Unlink(all);
      if wasFree {
        free := Removed(free, i);
      } else {
        used := Removed(used, i);
        TwoRingsSwap(Nexts(all), Prevs(all), [inUseList] + used, [freeList] + free);
      }
    }

    /** Links a chunk to a ring, right behind its head. */
    method Hook(c: Chunk, head: Chunk)
      requires Rings() && c in all && c !in free && c !in used && c != freeList && c != inUseList
        && head in {freeList, inUseList}
      modifies this`free, this`used, all`next, all`previous
      ensures Rings()
      ensures free == if head == freeList then [c] + old(free) else old(free)
      ensures used == if head == freeList then old(used) else [c] + old(used)
    {
      hide TwoRings, Nexts, Prevs;
      if head == freeList {
        HookRings(Nexts(all), Prevs(all), freeList, free, inUseList, used, c);
      } else {
        TwoRingsSwap(Nexts(all), Prevs(all), [freeList] + free, [inUseList] + used);
        HookRings(Nexts(all), Prevs(all), inUseList, used, freeList, free, c);
      }
      LinksOf(all, head);
      c.LinkTo(head, all);
      if head == freeList {
        free := [c] + free;
      } else {
        used := [c] + used;
        TwoRingsSwap(Nexts(all), Prevs(all), [inUseList] + used, [freeList] + free);
      }
    }

    /** The first free chunk of exactly this size. */
    method FindExact(r: int) returns (c: Chunk, ghost i: nat)
      requires Rings()
      ensures i <= |free| && c == (if i < |free| then free[i] else freeList)
        && forall j :: 0 <= j < i ==> free[j].size != r
      ensures i < |free| ==> c.size == r && c != freeList
    {
      hide TwoRings, Nexts, Prevs;
      NextOfHead(all, freeList, free, inUseList, used);
      c, i := freeList.next, 0;
      while c != freeList
        invariant i <= |free| && c == (if i < |free| then free[i] else freeList)
          && forall j :: 0 <= j < i ==> free[j].size != r
        invariant i < |free| ==> c in free
        decreases |free| - i
      {
        if c.size == r {
          return;
        }
        NextOf(all, freeList, free, inUseList, used, i);
        c := c.next;
        i := i + 1;
      }
    }

    /** The first free chunk that this size and a header fit into. */
    method FindFit(r: int) returns (c: Chunk, ghost i: nat)
      requires Rings()
      ensures i <= |free| && c == (if i < |free| then free[i] else freeList)
        && forall j :: 0 <= j < i ==> free[j].size < (r + HEADER) % WORD
      ensures i < |free| ==> c.size >= (r + HEADER) % WORD && c != freeList
    {
      hide TwoRings, Nexts, Prevs;
      NextOfHead(all, freeList, free, inUseList, used);
      c, i := freeList.next, 0;
      while c != freeList
        invariant i <= |free| && c == (if i < |free| then free[i] else freeList)
          && forall j :: 0 <= j < i ==> free[j].size < (r + HEADER) % WORD
        invariant i < |free| ==> c in free
        decreases |free| - i
      {
        if c.size >= (r + HEADER) % WORD {
          return;
        }
        NextOf(all, freeList, free, inUseList, used, i);
        c := c.next;
        i := i + 1;
      }
    }

    /** PreallocatedStorageInit: the arena becomes one free chunk. */
    method Init(size: nat, start: int)
      requires Valid() && !preallocated && 0 < start && start + size <= WORD
      modifies this, all
      ensures preallocated && |free| == 1 && free[0].start == start && free[0].size == (size - HEADER) % WORD
        && used == []
      ensures order == free && from == start && to == start + size
      ensures Valid() <==> size >= HEADER
    {
      hide TwoRings, Nexts, Prevs, Tiles, Accounted, Headed;
      var c := new Chunk(start, (size - HEADER) % WORD);
      LinkFirst(c);
      preallocated, headers := true, map[start := c];
      order, from, to := [c], start, start + size;
      if size >= HEADER {
        OneArena(SizeMap(all), c, start, to);
      } else {
        NoArena(SizeMap(all), c, start, to);
      }
    }

    /** The only chunk of the free list. */
    method LinkFirst(c: Chunk)
      requires Rings() && free == [] && used == [] && c !in all
      modifies this`free, this`all, freeList`next, freeList`previous, c`next, c`previous
      ensures Rings() && free == [c] && all == old(all) + {c}
    {
      hide TwoRings;
      MoreLinks(all, c, freeList, free, inUseList, used);
      all := all + {c};
      NextOfHead(all, freeList, free, inUseList, used);
      HookRings(Nexts(all), Prevs(all), freeList, free, inUseList, used, c);
      ghost var nexts: Fields, prevs: Fields := Nexts(all), Prevs(all);
      freeList.next, freeList.previous := c, c;
      c.next, c.previous := freeList, freeList;
      free := [c] + free;
      assert Nexts(all) == nexts[c := freeList][freeList := c];
      assert Prevs(all) == prevs[freeList := c][c := freeList];
    }

    /** A free chunk goes to the ring of those in use. */
    method Take(c: Chunk, ghost i: nat)
      requires Rings() && i < |free| && free[i] == c
      modifies this`free, this`used, all`next, all`previous
      ensures Rings() && c in all && c !in free && free == Removed(old(free), i) && used == [c] + old(used)
    {
      hide TwoRings, Nexts, Prevs, Removed;
      Unhook(c, true, i);
      Hook(c, inUseList);
    }

    /** A new chunk becomes the first free one. */
    method AddFree(c: Chunk)
      requires Rings() && c !in all
      modifies this`free, this`used, this`all, all`next, all`previous, c`next, c`previous
      ensures Rings() && free == [c] + old(free) && used == old(used) && all == old(all) + {c}
    {
      hide TwoRings, Nexts, Prevs;
      MoreLinks(all, c, freeList, free, inUseList, used);
      all := all + {c};
      Hook(c, freeList);
    }

    /** Cuts a chunk after r bytes; the rest gets a header and is the first free chunk. */
    method Cut(c: Chunk, r: int) returns (left: Chunk)
      requires Rings() && c in all
      modifies this`free, this`used, this`all, this`headers, c`size, all`next, all`previous
      ensures Rings() && fresh(left) && all == old(all) + {left} && free == [left] + old(free) && used == old(used)
      ensures c.size == r && headers == old(headers)[left.start := left]
      ensures left.start == (c.start + HEADER + r) % WORD && left.size == (old(c.size) - r - HEADER) % WORD
      ensures SizeMap(all) == old(SizeMap(all))[c := r][left := left.size]
    {
      hide TwoRings, Nexts, Prevs, SizeMap;
      ghost var sizes, before := SizeMap(all), all;
      SizeMapIs(all);
      left := new Chunk((c.start + HEADER + r) % WORD, (c.size - r - HEADER) % WORD);
      c.size := r;
      AddFree(left);
      headers := headers[left.start := left];
      SplitSizes(before, sizes, c, left);
    }

    /** The bytes of a chunk behind the first r become a free chunk of their own. */
    method Split(c: Chunk, r: int, ghost k: nat)
      requires Rings() && Arena() && all == {freeList, inUseList} + SetOf(order) && c !in free && c in all
      requires k < |order| && order[k] == c && 0 <= r < WORD && 0 <= c.size < WORD
      modifies this`free, this`used, this`order, this`all, this`headers, c`size, all`next, all`previous
      ensures used == old(used) && |free| == |old(free)| + 1 && free[1..] == old(free) && c.size == r && fresh(free[0])
      ensures free[0].start == (c.start + HEADER + r) % WORD && free[0].size == (old(c.size) - r - HEADER) % WORD
      ensures all == {freeList, inUseList} + SetOf(order) && Rings() && order == SplitIn(old(order), k, free[0])
      ensures Arena() <==> r + HEADER <= old(c.size)
    {
      hide TwoRings, Nexts, Prevs, Accounted, Headed, Tiles, SetOf, SizeMap, SplitIn;
      ghost var sizes, size := SizeMap(all), c.size;
      SizeMapIs(all);
      MembersIn(order, all, {freeList, inUseList});
      var left := Cut(c, r);
      SplitSet(order, k, left);
      if r + HEADER <= size {
        SplitArena(order, sizes, from, to, k, left, r, size);
        SplitAccounted(order, old(free), used, k, left);
        SplitHeaded(old(headers), order, k, left);
      } else {
        SplitBroken(order, sizes, from, to, k, left, r);
      }
      order := SplitIn(order, k, left);
    }

    method NewExact(c: Chunk, ghost i: nat) returns (p: int)
      requires Valid() && preallocated && i < |free| && free[i] == c
      modifies this`free, this`used, all`next, all`previous
      ensures Valid() && p == c.start + HEADER > 0 && used == [c] + old(used) && free == Removed(old(free), i)
    {
      hide TwoRings, Nexts, Prevs, Accounted, Headed, Removed;
      MovedToUsed(order, free, used, i);
      ghost var k := Place(order, SizeMap(all), from, to, free, used, c);
      Take(c, i);
      p := c.start + HEADER;
    }

    method NewSplit(c: Chunk, r: int, ghost i: nat) returns (p: int)
      requires Valid() && preallocated && i < |free| && free[i] == c && 0 <= r < WORD
      modifies this`free, this`used, this`order, this`all, this`headers, c`size, all`next, all`previous
      ensures p == c.start + HEADER > 0 && used == [c] + old(used) && c.size == r
      ensures |free| == |old(free)| && free[1..] == Removed(old(free), i) && fresh(free[0])
      ensures free[0].start == (p + r) % WORD && free[0].size == (old(c.size) - r - HEADER) % WORD
      ensures all == {freeList, inUseList} + SetOf(order) && Rings() && (Arena() <==> r + HEADER <= old(c.size))
    {
      hide TwoRings, Nexts, Prevs, Accounted, Headed;
      MovedToUsed(order, free, used, i);
      ghost var k := Place(order, SizeMap(all), from, to, free, used, c);
      Take(c, i);
      p := c.start + HEADER;
      Split(c, r, k);
    }

    /** PreallocatedStorageNew: what it does to the two rings and to the sizes. The first free chunk
        of the exact size is taken, else the first that passes the test in machine words is split,
        and then the arena is still divided exactly if the request is measurable. */
    method New(size: nat) returns (p: int)
      requires Valid() && preallocated && size < WORD
      modifies this`free, this`used, this`order, this`all, this`headers, all`size, all`next, all`previous
      ensures from == old(from) && to == old(to) && preallocated
      ensures
        var r, sizes := Rounded(size), old(SizesOf(free));
        var i := Choice(sizes, r);
        && (p == 0 <==> i == |sizes|)
        && (Valid() <==> i == |sizes| || sizes[i] == r || Measurable(size))
        && if i == |sizes| then
            free == old(free) && used == old(used) && order == old(order)
          else
            var c := old(free[i]);
            && p == c.start + HEADER && c.size == r && used == [c] + old(used) && Rings()
            && if sizes[i] == r then
                free == Removed(old(free), i) && order == old(order)
              else
                && |free| > 0 && fresh(free[0]) && free == [free[0]] + Removed(old(free), i)
                && free[0].start == (p + r) % WORD && free[0].size == (sizes[i] - r - HEADER) % WORD
      ensures p != 0 ==> used != [] && (used[0].size >= size <==> size <= WORD - POINTER_SIZE)
      ensures forall x :: x in old(all) && x.size != old(x.size) ==> x in old(free) && used == [x] + old(used)
    {
      hide TwoRings, Nexts, Prevs, Accounted, Headed, Removed, Tiles, SizesOf, FirstExact, FirstFit, Rounded;
      var r := Rounded(size);
      RoundedEnough(size);
      ghost var sizes := SizesOf(free);
      var c, i := FindExact(r);
      ExactIs(sizes, r, i);
      if c != freeList {
        p := NewExact(c, i);
        return;
      }
      c, i := FindFit(r);
      FitIs(sizes, r, i);
      InAll(all, freeList, free, inUseList, used);
      if c != freeList {
        ghost var k := Place(order, SizeMap(all), from, to, free, used, c);
        FitMeasures(size, c.size);
        p := NewSplit(c, r, i);
        return;
      }
      p := 0;
    }

    /** A chunk of either ring goes to the front of the free list. */
    method MoveToFree(c: Chunk, ghost wasFree: bool, ghost i: nat)
      requires Valid() && preallocated
      requires i < |if wasFree then free else used| && c == (if wasFree then free else used)[i]
      modifies this`free, this`used, all`next, all`previous
      ensures Valid() && order == old(order)
      ensures free == [c] + (if wasFree then Removed(old(free), i) else old(free))
      ensures used == (if wasFree then old(used) else Removed(old(used), i))
    {
      hide TwoRings, Nexts, Prevs, Accounted, Headed, Removed, Tiles, SizeMap;
      if wasFree {
        MovedToFront(order, free, used, i);
      } else {
        MovedToFree(order, free, used, i);
      }
      Unhook(c, wasFree, i);
      Hook(c, freeList);
    }

    /** PreallocatedStorageDelete: the chunk goes to the front of the free list, wherever it was. */
    method Delete(p: int)
      requires Valid() && preallocated && (p == 0 || p - HEADER in headers)
      modifies this`free, this`used, all`next, all`previous
      ensures Valid() && order == old(order)
      ensures if p == 0 then free == old(free) && used == old(used)
        else var c := headers[p - HEADER];
          free == [c] + Without(old(free), c) && used == Without(old(used), c) && (c in old(used) || c in old(free))
    {
      hide TwoRings, Nexts, Prevs, Accounted, Headed, Removed, Tiles, SizeMap, Without;
      if p == 0 {
        return;
      }
      var c := headers[p - HEADER];
      ghost var wasFree, i := Find(headers, order, free, used, p - HEADER);
      BothDistinct(Nexts(all), Prevs(all), freeList, free, inUseList, used);
      if wasFree {
        WithoutAt(free, i);
        WithoutNone(used, c);
      } else {
        WithoutAt(used, i);
        WithoutNone(free, c);
      }
      MoveToFree(c, wasFree, i);
    }
  }

  // ----- the arena through the operations --------------------------------------------------------------------------

  /** Where a free or used chunk is in the arena. */
  lemma Place(order: seq<Chunk>, sizes: Sizes, from: int, to: int, free: seq<Chunk>, used: seq<Chunk>, c: Chunk)
    returns (k: nat)
    requires Tiles(order, sizes, from, to) && 0 < from && to <= WORD && Accounted(order, free, used) && (c in free
      || c in used)
    ensures k < |order| && order[k] == c && c in sizes && 0 <= sizes[c] < WORD && 0 < c.start
  {
    MemberOf(order, free, used, c);
    k :| 0 <= k < |order| && order[k] == c;
    TilesWithin(order, sizes, from, to, k);
  }

  lemma Find(headers: map<int, Chunk>, order: seq<Chunk>, free: seq<Chunk>, used: seq<Chunk>, a: int)
    returns (wasFree: bool, i: nat)
    requires Headed(headers, order) && Accounted(order, free, used) && a in headers
    ensures i < |if wasFree then free else used| && (if wasFree then free else used)[i] == headers[a]
  {
    MemberOf(order, free, used, headers[a]);
    wasFree := headers[a] in free;
    i :| 0 <= i < |if wasFree then free else used| && (if wasFree then free else used)[i] == headers[a];
  }

  lemma BothDistinct(nexts: Fields, prevs: Fields, h: Chunk, s: seq<Chunk>, g: Chunk, t: seq<Chunk>)
    requires TwoRings(nexts, prevs, [h] + s, [g] + t)
    ensures Distinct(s) && Distinct(t) && forall c :: c in s ==> c !in t
  {
    var a, b := [h] + s, [g] + t;
    forall i, j | 0 <= i < j < |s| ensures s[i] != s[j] {
      assert a[i + 1] == s[i] && a[j + 1] == s[j];
    }
    forall i, j | 0 <= i < j < |t| ensures t[i] != t[j] {
      assert b[i + 1] == t[i] && b[j + 1] == t[j];
    }
    forall c | c in s ensures c !in t {
      assert c in a;
    }
  }

  lemma {:induction false} WithoutNone(s: seq<Chunk>, c: Chunk)
    requires c !in s
    ensures Without(s, c) == s
  {
    if s != [] {
      WithoutNone(s[1..], c);
    }
  }

  lemma MovedToUsed(order: seq<Chunk>, free: seq<Chunk>, used: seq<Chunk>, i: nat)
    requires Accounted(order, free, used) && i < |free|
    ensures Accounted(order, Removed(free, i), [free[i]] + used)
  {
    assert free == free[..i] + [free[i]] + free[i + 1..];
  }

  lemma MovedToFree(order: seq<Chunk>, free: seq<Chunk>, used: seq<Chunk>, i: nat)
    requires Accounted(order, free, used) && i < |used|
    ensures Accounted(order, [used[i]] + free, Removed(used, i))
  {
    assert used == used[..i] + [used[i]] + used[i + 1..];
  }

  lemma MovedToFront(order: seq<Chunk>, free: seq<Chunk>, used: seq<Chunk>, i: nat)
    requires Accounted(order, free, used) && i < |free|
    ensures Accounted(order, [free[i]] + Removed(free, i), used)
  {
    assert free == free[..i] + [free[i]] + free[i + 1..];
  }

  lemma MemberOf(order: seq<Chunk>, free: seq<Chunk>, used: seq<Chunk>, c: Chunk)
    requires Accounted(order, free, used)
    ensures c in order <==> c in free || c in used
  {
    assert c in order <==> multiset(order)[c] > 0;
    assert c in free <==> multiset(free)[c] > 0;
    assert c in used <==> multiset(used)[c] > 0;
  }

  lemma OneMore(a: multiset<Chunk>, b: multiset<Chunk>, f: multiset<Chunk>, u: multiset<Chunk>, l: multiset<Chunk>)
    requires f + u == a + b
    ensures (l + f) + u == (a + l) + b
  {
    forall c ensures ((l + f) + u)[c] == ((a + l) + b)[c] {
      assert (f + u)[c] == (a + b)[c];
    }
  }

  lemma SplitAccounted(order: seq<Chunk>, free: seq<Chunk>, used: seq<Chunk>, k: nat, left: Chunk)
    requires Accounted(order, free, used) && k < |order|
    ensures Accounted(SplitIn(order, k, left), [left] + free, used)
  {
    assert order == order[..k + 1] + order[k + 1..];
    assert multiset(order) == multiset(order[..k + 1]) + multiset(order[k + 1..]);
    assert multiset(SplitIn(order, k, left)) == multiset(order[..k + 1]) + multiset{left} + multiset(order[k + 1..]);
    assert multiset([left] + free) == multiset{left} + multiset(free);
    OneMore(multiset(order[..k + 1]), multiset(order[k + 1..]), multiset(free), multiset(used), multiset{left});
  }

  lemma OneArena(sizes: Sizes, c: Chunk, from: int, to: int)
    requires c in sizes && sizes[c] >= 0 && c.start == from && from + HEADER + sizes[c] == to
    ensures Tiles([c], sizes, from, to) && Accounted([c], [c], []) && Headed(map[from := c], [c])
  {
    assert Fills([c], sizes, 0, to);
  }

  lemma NoArena(sizes: Sizes, c: Chunk, from: int, to: int)
    requires c in sizes && sizes[c] >= 0 && to < from + HEADER
    ensures !Tiles([c], sizes, from, to)
  {
    assert !Fills([c], sizes, 0, to) || c.start != from;
  }

  lemma SplitSet(order: seq<Chunk>, k: nat, left: Chunk)
    requires k < |order|
    ensures SetOf(SplitIn(order, k, left)) == SetOf(order) + {left}
  {
    var order' := SplitIn(order, k, left);
    assert order == order[..k + 1] + order[k + 1..] && order'[k + 1] == left;
  }

  lemma SplitArena(order: seq<Chunk>, sizes: Sizes, from: int, to: int, k: nat, left: Chunk, r: int, size: int)
    requires Tiles(order, sizes, from, to) && 0 < from && to <= WORD && k < |order| && 0 <= r && left !in order
    requires order[k] in sizes && sizes[order[k]] == size >= r + HEADER
      && left.start == (order[k].start + HEADER + r) % WORD
    ensures left.start == order[k].start + HEADER + r
    ensures Tiles(SplitIn(order, k, left), sizes[order[k] := r][left := size - r - HEADER], from, to)
    ensures forall c :: c in order ==> c.start != left.start
  {
    hide Tiles;
    TilesWithin(order, sizes, from, to, k);
    TilesSplit(order, sizes, from, to, k, left, r);
    forall i | 0 <= i < |order| ensures order[i].start != left.start {
      if i < k {
        TilesApart(order, sizes, from, to, i, k);
      } else if i > k {
        TilesApart(order, sizes, from, to, k, i);
      }
    }
  }

  lemma MembersIn(order: seq<Chunk>, all: set<Chunk>, heads: set<Chunk>)
    requires all == heads + SetOf(order)
    ensures forall c :: c in order ==> c in all
  {
  }

  lemma SizeMapIs(all: set<Chunk>)
    ensures SizeMap(all).Keys == all && forall c :: c in all ==> SizeMap(all)[c] == c.size
  {
  }

  /** The sizes after chunk c was cut and the rest added. */
  lemma SplitSizes(all: set<Chunk>, sizes: Sizes, c: Chunk, left: Chunk)
    requires c in all && left !in all && sizes.Keys == all
    requires forall x :: x in all && x != c ==> x.size == sizes[x]
    ensures SizeMap(all + {left}) == sizes[c := c.size][left := left.size]
  {
  }

  /** Without room for the rest's header, no value of the rest's size divides the chunk. */
  lemma SplitBroken(order: seq<Chunk>, sizes: Sizes, from: int, to: int, k: nat, left: Chunk, r: int)
    requires Tiles(order, sizes, from, to) && to <= WORD && k < |order| && order[k] in sizes && left !in order
    requires 0 <= r && sizes[order[k]] < r + HEADER && left.size >= 0
    ensures !Tiles(SplitIn(order, k, left), sizes[order[k] := r][left := left.size], from, to)
  {
    var order', sizes' := SplitIn(order, k, left), sizes[order[k] := r][left := left.size];
    assert Fills(order, sizes, k, to);
    assert !(Fills(order', sizes', k, to) && Fills(order', sizes', k + 1, to));
  }

  /** A chunk that passes the test has room for the request and a header exactly if the request is
      measurable. */
  lemma FitMeasures(size: int, room: int)
    requires 0 <= size < WORD && room < WORD && room >= (Rounded(size) + HEADER) % WORD
    ensures Rounded(size) + HEADER <= room <==> Measurable(size)
  {
  }

  lemma MoreLinks(all: set<Chunk>, c: Chunk, h: Chunk, s: seq<Chunk>, g: Chunk, t: seq<Chunk>)
    requires TwoRings(Nexts(all), Prevs(all), [h] + s, [g] + t) && c !in all
    ensures TwoRings(Nexts(all + {c}), Prevs(all + {c}), [h] + s, [g] + t) && c !in [h] + s && c !in [g] + t
  {
    var a, b := [h] + s, [g] + t;
    RingsIn(Nexts(all), Prevs(all), a, b);
    RingKept(Nexts(all), Prevs(all), Nexts(all + {c}), Prevs(all + {c}), a);
    RingKept(Nexts(all), Prevs(all), Nexts(all + {c}), Prevs(all + {c}), b);
  }

  lemma SplitHeaded(headers: map<int, Chunk>, order: seq<Chunk>, k: nat, left: Chunk)
    requires Headed(headers, order) && k < |order| && forall c :: c in order ==> c.start != left.start
    ensures Headed(headers[left.start := left], SplitIn(order, k, left))
  {
    var order' := SplitIn(order, k, left);
    forall c ensures c in order' <==> c in order || c == left {
      assert order == order[..k + 1] + order[k + 1..];
      assert left == order'[k + 1];
    }
  }

  // ----- the rings through the operations --------------------------------------------------------------------------

  /** Going by next from a ring's head meets its chunks in order, and then the head. */
  lemma NextOfHead(all: set<Chunk>, h: Chunk, s: seq<Chunk>, g: Chunk, t: seq<Chunk>)
    requires TwoRings(Nexts(all), Prevs(all), [h] + s, [g] + t)
    ensures h.next == (if s == [] then h else s[0]) && h !in s
  {
    RingAt(Nexts(all), Prevs(all), [h] + s, 0);
    forall i | 0 <= i < |s| ensures s[i] != h {
      assert ([h] + s)[i + 1] == s[i] && ([h] + s)[0] == h;
    }
  }

  lemma NextOf(all: set<Chunk>, h: Chunk, s: seq<Chunk>, g: Chunk, t: seq<Chunk>, i: nat)
    requires TwoRings(Nexts(all), Prevs(all), [h] + s, [g] + t) && i < |s|
    ensures s[i].next == (if i + 1 < |s| then s[i + 1] else h)
  {
    RingAt(Nexts(all), Prevs(all), [h] + s, i + 1);
  }

  lemma UnhookRings(nexts: Fields, prevs: Fields, h: Chunk, s: seq<Chunk>, g: Chunk, t: seq<Chunk>, i: nat)
    requires TwoRings(nexts, prevs, [h] + s, [g] + t) && i < |s|
    ensures var c := s[i];
      && c in nexts && c in prevs && nexts[c] in nexts && prevs[c] in prevs && nexts[c] != c && c != h && c != g
      && TwoRings(nexts[prevs[c] := nexts[c]], prevs[nexts[c] := prevs[c]], [h] + Removed(s, i), [g] + t)
      && c !in Removed(s, i) && c !in t
  {
    hide TwoRings;
    var a := [h] + s;
    TakenOut(nexts, prevs, a, [g] + t, i + 1);
    RingsIn(nexts, prevs, a, [g] + t);
    assert Removed(a, i + 1) == [h] + Removed(s, i);
  }

  lemma HookRings(nexts: Fields, prevs: Fields, h: Chunk, s: seq<Chunk>, g: Chunk, t: seq<Chunk>, c: Chunk)
    requires TwoRings(nexts, prevs, [h] + s, [g] + t) && c !in s && c !in t && c != h && c != g
    ensures h in nexts && nexts[h] in nexts
    ensures TwoRings(nexts[c := nexts[h]][h := c], prevs[nexts[h] := c][c := h], [h] + ([c] + s), [g] + t)
  {
    hide TwoRings;
    var a := [h] + s;
    PutIn(nexts, prevs, a, [g] + t, c);
    RingsIn(nexts, prevs, a, [g] + t);
    assert [a[0], c] + a[1..] == [h] + ([c] + s);
  }

  lemma RingsIn(nexts: Fields, prevs: Fields, a: seq<Chunk>, b: seq<Chunk>)
    requires TwoRings(nexts, prevs, a, b)
    ensures forall c :: c in a || c in b ==> c in nexts && c in prevs
  {
    forall i | 0 <= i < |a| ensures a[i] in nexts && a[i] in prevs {
      RingAt(nexts, prevs, a, i);
    }
    forall i | 0 <= i < |b| ensures b[i] in nexts && b[i] in prevs {
      RingAt(nexts, prevs, b, i);
    }
  }

  lemma InAll(all: set<Chunk>, h: Chunk, s: seq<Chunk>, g: Chunk, t: seq<Chunk>)
    requires TwoRings(Nexts(all), Prevs(all), [h] + s, [g] + t)
    ensures forall c :: c in s || c in t ==> c in all
  {
    RingsIn(Nexts(all), Prevs(all), [h] + s, [g] + t);
    forall c | c in s || c in t ensures c in all {
      assert c in [h] + s || c in [g] + t;
    }
  }

  lemma LinksOf(all: set<Chunk>, c: Chunk)
    ensures forall x :: x in Nexts(all) <==> x in all
    ensures forall x :: x in Prevs(all) <==> x in all
    ensures c in all ==> Nexts(all)[c] == c.next && Prevs(all)[c] == c.previous
  {
  }

  // ----- which chunk a request gets --------------------------------------------------------------------------------

  /** The first free chunk of exactly the size, else the first that can be split. */
  ghost function Choice(sizes: seq<int>, r: int): (i: nat)
    ensures i <= |sizes|
    ensures r in sizes ==> i < |sizes| && sizes[i] == r && forall j :: 0 <= j < i ==> sizes[j] != r
    ensures r !in sizes && i < |sizes| ==> sizes[i] >= (r + HEADER) % WORD
    ensures r !in sizes ==> forall j :: 0 <= j < i ==> sizes[j] < (r + HEADER) % WORD
  {
    var e := FirstExact(sizes, r);
    if e < |sizes| then e else FirstFit(sizes, r)
  }

  ghost function FirstExact(sizes: seq<int>, r: int): (i: nat)
    ensures i <= |sizes| && (i < |sizes| ==> sizes[i] == r) && forall j :: 0 <= j < i ==> sizes[j] != r
  {
    if sizes == [] || sizes[0] == r then 0 else 1 + FirstExact(sizes[1..], r)
  }

  ghost function FirstFit(sizes: seq<int>, r: int): (i: nat)
    ensures i <= |sizes| && (i < |sizes| ==> sizes[i] >= (r + HEADER) % WORD)
    ensures forall j :: 0 <= j < i ==> sizes[j] < (r + HEADER) % WORD
  {
    if sizes == [] || sizes[0] >= (r + HEADER) % WORD then 0 else 1 + FirstFit(sizes[1..], r)
  }

  ghost function SizesOf(s: seq<Chunk>): (r: seq<int>)
    reads s
    ensures |r| == |s| && forall i :: 0 <= i < |s| ==> r[i] == s[i].size
  {
    if s == [] then [] else [s[0].size] + SizesOf(s[1..])
  }

  lemma ExactIs(sizes: seq<int>, r: int, i: nat)
    requires i <= |sizes| && (i < |sizes| ==> sizes[i] == r) && forall j :: 0 <= j < i ==> sizes[j] != r
    ensures FirstExact(sizes, r) == i
  {
  }

  lemma FitIs(sizes: seq<int>, r: int, i: nat)
    requires i <= |sizes| && (i < |sizes| ==> sizes[i] >= (r + HEADER) % WORD)
    requires forall j :: 0 <= j < i ==> sizes[j] < (r + HEADER) % WORD
    ensures FirstFit(sizes, r) == i
  {
  }
}
