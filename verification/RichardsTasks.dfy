/** Task control blocks and who has which packet. */
module RichardsTasks {
  import opened RichardsPackets

  // ----- states: bit 0 runnable, bit 1 suspended, bit 2 held ------------------------------------------------------

  const STATE_RUNNING := 0
  const STATE_RUNNABLE := 1
  const STATE_SUSPENDED := 2
  const STATE_HELD := 4
  const STATE_SUSPENDED_RUNNABLE := 3

  predicate IsRunnable(state: int) { state % 2 == 1 }

  predicate IsSuspended(state: int) { state / 2 % 2 == 1 }

  predicate IsHeld(state: int) { state / 4 % 2 == 1 }

  /** state | bit. */
  function With(state: int, bit: int): int
    requires bit != 0
  {
    if state / bit % 2 == 1 then state else state + bit
  }

  /** state & ~STATE_HELD. */
  function NotHeld(state: int): int {
    if IsHeld(state) then state - STATE_HELD else state
  }

  predicate IsHeldOrSuspended(state: int) {
    IsHeld(state) || state == STATE_SUSPENDED
  }

  /** The same on the bits of a state: a bit is set or cleared and the others stay, and a suspended
      task may go on if it is runnable. */
  lemma StateBits(state: int, bit: int)
    requires 0 <= state < 8 && bit in {STATE_RUNNABLE, STATE_SUSPENDED, STATE_HELD}
    ensures 0 <= With(state, bit) < 8 && With(state, bit) as bv3 == (state as bv3) | (bit as bv3)
    ensures 0 <= NotHeld(state) < 8 && NotHeld(state) as bv3 == (state as bv3) & !(STATE_HELD as bv3)
    ensures IsHeldOrSuspended(state) <==> IsHeld(state) || (IsSuspended(state) && !IsRunnable(state))
  {
    assert state == 0 || state == 1 || state == 2 || state == 3 || state == 4 || state == 5 || state == 6 || state == 7;
  }

  /** A task's own fields. */
  datatype Task =
    | Idle(v1: bv32, count: int)
    | Worker(target: int, letter: int)
    | Handler(works: Packet?, devices: Packet?)
    | Device(slot: Packet?)

  datatype Tcb = Tcb(id: int, priority: int, state: int, queue: Packet?, task: Task) {
    /** The runnable bit says whether there are packets, a suspended device has none in hand, an idle task none at all.
        */
    ghost predicate Consistent() {
      && 0 <= state < 8 && (IsRunnable(state) <==> queue != null)
      && (task.Device? && IsSuspended(state) ==> task.slot == null)
      && (task.Idle? ==> queue == null)
    }
  }

  // ----- who has which packet --------------------------------------------------------------------------------------

  /** The packets of a task: its queue, and what it has in hand. */
  datatype Lists = Lists(queue: seq<Packet>, first: seq<Packet>, second: seq<Packet>) {
    ghost function All(): (m: multiset<Packet>) {
      multiset(queue) + multiset(first) + multiset(second)
    }
  }

  /** A handler keeps the work packets apart from the others. */
  ghost predicate Sorted(works: seq<Packet>, devices: seq<Packet>) {
    (forall p :: p in works ==> p.kind == KIND_WORK) && (forall p :: p in devices ==> p.kind != KIND_WORK)
  }

  ghost predicate TaskHolds(t: Tcb, l: Lists, links: Fields) {
    Chain(links, t.queue, l.queue) &&
    match t.task
    case Idle(_, _) => l.first == [] && l.second == []
    case Worker(_, _) => l.first == [] && l.second == []
    case Handler(works, devices) => Chain(links, works, l.first) && Chain(links, devices, l.second)
      && Sorted(l.first, l.second)
    case Device(slot) => l.second == [] && l.first == if slot == null then [] else [slot]
  }

  ghost predicate AllHold(tcbs: seq<Tcb>, ls: seq<Lists>, links: Fields) {
    |tcbs| == |ls| && forall k :: 0 <= k < |tcbs| ==> TaskHolds(tcbs[k], ls[k], links)
  }

  ghost function Total(ls: seq<Lists>): (m: multiset<Packet>) {
    if ls == [] then multiset{} else Total(ls[..|ls| - 1]) + ls[|ls| - 1].All()
  }

  /** Every packet is in exactly one place: with a task, or on its way. */
  ghost predicate Conserved(ls: seq<Lists>, onItsWay: multiset<Packet>, packets: set<Packet>) {
    Total(ls) + onItsWay == multiset(packets)
  }

  lemma Exchanged(t: multiset<Packet>, a: multiset<Packet>, b: multiset<Packet>, c: multiset<Packet>)
    requires a <= t
    ensures a <= t + c && (t - a + b) + c == (t + c) - a + b
  {
  }

  lemma LastExchanged(t: multiset<Packet>, a: multiset<Packet>, b: multiset<Packet>)
    ensures a <= t + a && t + b == (t + a) - a + b
  {
  }

  lemma {:induction false} TotalUpdate(ls: seq<Lists>, k: nat, l: Lists)
    requires k < |ls|
    ensures ls[k].All() <= Total(ls) && Total(ls[k := l]) == Total(ls) - ls[k].All() + l.All()
    decreases |ls|
  {
    hide Lists.All;
    var n := |ls| - 1;
    if k < n {
      TotalUpdate(ls[..n], k, l);
      assert ls[k := l][..n] == ls[..n][k := l];
      Exchanged(Total(ls[..n]), ls[k].All(), l.All(), ls[n].All());
    } else {
      assert ls[k := l][..n] == ls[..n];
      LastExchanged(Total(ls[..n]), ls[k].All(), l.All());
    }
  }

  lemma BothWithin(t: multiset<Packet>, a: multiset<Packet>, b: multiset<Packet>, c: multiset<Packet>)
    ensures a + b <= t ==> a + b <= t + c
    ensures a <= t ==> a + c <= t + c
  {
  }

  lemma {:induction false} TotalTwo(ls: seq<Lists>, j: nat, k: nat)
    requires j < k < |ls|
    ensures ls[j].All() + ls[k].All() <= Total(ls)
    decreases |ls|
  {
    hide Lists.All;
    var n := |ls| - 1;
    BothWithin(Total(ls[..n]), ls[j].All(), ls[k].All(), ls[n].All());
    if k < n {
      TotalTwo(ls[..n], j, k);
    } else {
      TotalUpdate(ls[..n], j, ls[j]);
      assert ls[..n][j] == ls[j];
    }
  }

  /** A packet of one task is nowhere else, and only once there. */
  lemma OnlyHere(ls: seq<Lists>, onItsWay: multiset<Packet>, packets: set<Packet>, k: nat, x: Packet)
    requires Conserved(ls, onItsWay, packets) && k < |ls| && x in ls[k].All()
    ensures ls[k].All()[x] == 1 && x in packets && x !in onItsWay
      && forall j :: 0 <= j < |ls| && j != k ==> x !in ls[j].All()
  {
    TotalUpdate(ls, k, ls[k]);
    assert multiset(packets)[x] <= 1;
    assert Total(ls)[x] + onItsWay[x] == multiset(packets)[x];
    forall j | 0 <= j < |ls| && j != k ensures x !in ls[j].All() {
      if j < k {
        TotalTwo(ls, j, k);
      } else {
        TotalTwo(ls, k, j);
      }
      var two := ls[j].All() + ls[k].All();
      assert two[x] <= Total(ls)[x];
    }
  }

  /** A packet on its way is with no task. */
  lemma OnTheWay(ls: seq<Lists>, onItsWay: multiset<Packet>, packets: set<Packet>, x: Packet)
    requires Conserved(ls, onItsWay, packets) && x in onItsWay
    ensures x in packets && forall j :: 0 <= j < |ls| ==> x !in ls[j].All()
  {
    assert multiset(packets)[x] <= 1 && Total(ls)[x] + onItsWay[x] == multiset(packets)[x];
    forall j | 0 <= j < |ls| ensures x !in ls[j].All() {
      TotalUpdate(ls, j, ls[j]);
      assert ls[j].All()[x] <= Total(ls)[x];
    }
  }

  lemma {:induction false} SomewhereIn(ls: seq<Lists>, x: Packet) returns (k: nat)
    requires x in Total(ls)
    ensures k < |ls| && x in ls[k].All()
    decreases |ls|
  {
    hide Lists.All;
    k := |ls| - 1;
    if x !in ls[k].All() {
      assert x in Total(ls[..k]);
      k := SomewhereIn(ls[..k], x);
    }
  }

  /** While none is on its way, every packet is once in one list of one task, and nowhere else. */
  lemma InOnePlace(ls: seq<Lists>, packets: set<Packet>, x: Packet) returns (k: nat)
    requires Conserved(ls, multiset{}, packets) && x in packets
    ensures k < |ls| && multiset(ls[k].queue)[x] + multiset(ls[k].first)[x] + multiset(ls[k].second)[x] == 1
    ensures forall j :: 0 <= j < |ls| && j != k ==> x !in ls[j].queue && x !in ls[j].first && x !in ls[j].second
  {
    assert x in multiset(packets) && x in Total(ls);
    k := SomewhereIn(ls, x);
    OnlyHere(ls, multiset{}, packets, k, x);
    forall j | 0 <= j < |ls| && j != k ensures x !in ls[j].queue && x !in ls[j].first && x !in ls[j].second {
      assert x !in ls[j].All();
    }
  }

  lemma OnceOnly(l: Lists, x: Packet)
    requires l.All()[x] <= 1
    ensures x in l.queue ==> x !in l.first && x !in l.second
    ensures x in l.first ==> x !in l.queue && x !in l.second
    ensures x in l.second ==> x !in l.queue && x !in l.first
  {
    assert x in l.queue <==> multiset(l.queue)[x] > 0;
    assert x in l.first <==> multiset(l.first)[x] > 0;
    assert x in l.second <==> multiset(l.second)[x] > 0;
  }

  lemma {:induction false} OnceDistinct(s: seq<Packet>)
    requires forall x :: x in s ==> multiset(s)[x] == 1
    ensures Distinct(s)
    decreases |s|
  {
    if s != [] {
      var n := |s| - 1;
      assert s == s[..n] + [s[n]];
      assert multiset(s) == multiset(s[..n]) + multiset{s[n]};
      assert s[n] in s;
      forall x | x in s[..n] ensures multiset(s[..n])[x] == 1 {
        assert x in s;
        assert multiset(s[..n])[x] > 0;
      }
      OnceDistinct(s[..n]);
      forall i | 0 <= i < n ensures s[i] != s[n] {
        assert s[..n][i] in s[..n];
        assert multiset(s[..n])[s[i]] > 0;
      }
    }
  }

  /** The lists of a task have no packet twice. */
  lemma ListsDistinct(ls: seq<Lists>, onItsWay: multiset<Packet>, packets: set<Packet>, k: nat)
    requires Conserved(ls, onItsWay, packets) && k < |ls|
    ensures Distinct(ls[k].queue) && Distinct(ls[k].first) && Distinct(ls[k].second)
    ensures forall x :: x in ls[k].All() ==> x in packets
  {
    var l := ls[k];
    forall x | x in l.All() ensures l.All()[x] == 1 && x in packets {
      OnlyHere(ls, onItsWay, packets, k, x);
    }
    forall x | x in l.queue ensures multiset(l.queue)[x] == 1 {
      assert x in l.All() && multiset(l.queue)[x] <= l.All()[x];
    }
    forall x | x in l.first ensures multiset(l.first)[x] == 1 {
      assert x in l.All() && multiset(l.first)[x] <= l.All()[x];
    }
    forall x | x in l.second ensures multiset(l.second)[x] == 1 {
      assert x in l.All() && multiset(l.second)[x] <= l.All()[x];
    }
    OnceDistinct(l.queue);
    OnceDistinct(l.first);
    OnceDistinct(l.second);
  }
}
