/** The scheduler: which task runs next, and how tasks are held, released, suspended and woken by a
    packet. Every task with a higher priority than the one that comes next is held or suspended without
    packets, whatever is done. */
module RichardsScheduler {
  import opened RichardsPackets
  import opened RichardsTasks
  import opened RichardsMoves

  const ID_IDLE := 0
  const ID_WORKER := 1
  const ID_HANDLER_A := 2
  const ID_HANDLER_B := 3
  const ID_DEVICE_A := 4
  const ID_DEVICE_B := 5

  /** The tasks behind the one at k, which all have a higher priority, wait. */
  predicate Quiet(tcbs: seq<Tcb>, k: int) {
    -1 <= k < |tcbs| && forall j :: k < j < |tcbs| ==> IsHeldOrSuspended(tcbs[j].state)
  }

  /** Each task has a higher priority than those added before it. */
  predicate Rising(tcbs: seq<Tcb>) {
    forall i, j :: 0 <= i < j < |tcbs| ==> tcbs[i].priority < tcbs[j].priority
  }

  predicate SameTasks(tcbs: seq<Tcb>, tcbs': seq<Tcb>) {
    |tcbs'| == |tcbs| && forall k :: 0 <= k < |tcbs| ==> SameTask(tcbs[k], tcbs'[k])
  }

  predicate SameTask(t: Tcb, t': Tcb) {
    t'.id == t.id && t'.priority == t.priority && t'.task.Idle? == t.task.Idle?
  }

  ghost predicate AllConsistent(tcbs: seq<Tcb>) {
    forall k :: 0 <= k < |tcbs| ==> tcbs[k].Consistent()
  }

  /** blocks finds each task by its identity. */
  ghost predicate Indexed(tcbs: seq<Tcb>, blocks: map<int, nat>) {
    && (forall id :: id in blocks ==> blocks[id] < |tcbs| && tcbs[blocks[id]].id == id)
    && (forall k :: 0 <= k < |tcbs| ==> tcbs[k].id in blocks && blocks[tcbs[k].id] == k)
  }

  /** There is a task with this identity that takes packets. */
  predicate Takes(tcbs: seq<Tcb>, blocks: map<int, nat>, id: int) {
    id in blocks && blocks[id] < |tcbs| && !tcbs[blocks[id]].task.Idle?
  }

  /** The identities that idle and worker tasks know. */
  predicate Connected(tcbs: seq<Tcb>, blocks: map<int, nat>) {
    Takes(tcbs, blocks, ID_HANDLER_A) && Takes(tcbs, blocks, ID_HANDLER_B) && ID_DEVICE_A in blocks
      && ID_DEVICE_B in blocks
  }

  ghost predicate Addressed(packets: set<Packet>, tcbs: seq<Tcb>, blocks: map<int, nat>)
    reads packets`id
  {
    forall p :: p in packets ==> Takes(tcbs, blocks, p.id)
  }

  /** The counter of a work packet is within its data. */
  ghost predicate Counted(packets: set<Packet>)
    reads packets`a1, packets`a2
  {
    forall p :: p in packets ==> |p.a2| == DATA_SIZE && (p.kind == KIND_WORK ==> 0 <= p.a1 <= DATA_SIZE)
  }

  /** Everything the tables say, while the packets of onItsWay are with no task. */
  ghost predicate Tables(tcbs: seq<Tcb>, blocks: map<int, nat>, lists: seq<Lists>, links: Fields, packets: set<Packet>,
    onItsWay: multiset<Packet>) {
    && AllHold(tcbs, lists, links) && Conserved(lists, onItsWay, packets)
    && AllConsistent(tcbs) && Indexed(tcbs, blocks)
  }

  /** The tables once a packet was put at the end of the queue of the task at t. */
  function Queued(tcbs: seq<Tcb>, t: nat, head: Packet): (r: seq<Tcb>)
    requires t < |tcbs|
  {
    tcbs[t := tcbs[t].(queue := head, state := if tcbs[t].queue == null then With(tcbs[t].state, STATE_RUNNABLE)
      else tcbs[t].state)]
  }

  ghost function Behind(lists: seq<Lists>, t: nat, p: Packet): (r: seq<Lists>)
    requires t < |lists|
  {
    lists[t := lists[t].(queue := lists[t].queue + [p])]
  }

  /** The task at k had p put behind the queue of the task at t, and r is next: t if it has just become ready and is
      more urgent. */
  ghost predicate Handed(tcbs: seq<Tcb>, lists: seq<Lists>, tcbs': seq<Tcb>, lists': seq<Lists>, t: nat, p: Packet,
    k: nat, r: int) {
    && |lists| == |tcbs| == |tcbs'| && t < |tcbs| && k < |tcbs| && lists' == Behind(lists, t, p)
    && tcbs'[t].queue != null && tcbs' == Queued(tcbs, t, tcbs'[t].queue)
    && r == if tcbs[t].queue == null && tcbs[t].priority > tcbs[k].priority then t else k
  }

  lemma LinkCut(tcbs: seq<Tcb>, ls: seq<Lists>, links: Fields, packets: set<Packet>, p: Packet)
    requires AllHold(tcbs, ls, links) && Conserved(ls, multiset{p}, packets)
    ensures AllHold(tcbs, ls, links[p := null])
  {
    hide TaskHolds, Conserved, Lists.All;
    forall k | 0 <= k < |tcbs| ensures TaskHolds(tcbs[k], ls[k], links[p := null]) {
      forall q | q in ls[k].All() ensures q != p {
        OnTheWay(ls, multiset{p}, packets, p);
      }
      HoldsKept(tcbs[k], ls[k], links, links[p := null], multiset{p});
    }
  }

  lemma WithRunnable(state: int)
    requires 0 <= state < 8
    ensures var s := With(state, STATE_RUNNABLE);
      0 <= s < 8 && IsRunnable(s) && IsSuspended(s) == IsSuspended(state) && IsHeld(s) == IsHeld(state)
  {
  }

  lemma QueuedConsistent(tcbs: seq<Tcb>, blocks: map<int, nat>, t: nat, head: Packet)
    requires AllConsistent(tcbs) && Indexed(tcbs, blocks) && t < |tcbs| && !tcbs[t].task.Idle?
    ensures AllConsistent(Queued(tcbs, t, head)) && Indexed(Queued(tcbs, t, head), blocks)
      && SameTasks(tcbs, Queued(tcbs, t, head))
  {
    WithRunnable(tcbs[t].state);
  }

  /** A task that gets a packet and has a higher priority than the current one is next; the tasks above it still wait.
      */
  lemma QueuedQuiet(tcbs: seq<Tcb>, t: nat, head: Packet, k: nat)
    requires AllConsistent(tcbs) && Rising(tcbs) && Quiet(tcbs, k) && t < |tcbs| && k < |tcbs|
    ensures Quiet(Queued(tcbs, t, head), if tcbs[t].queue == null && tcbs[t].priority > tcbs[k].priority then t else k)
  {
    WithRunnable(tcbs[t].state);
    assert tcbs[t].Consistent();
    if t > k && tcbs[t].queue != null {
      assert IsHeldOrSuspended(tcbs[t].state);
    }
  }

  class Scheduler {
    var queueCount: int
    var holdCount: int
    var blocks: map<int, nat>
    var tcbs: seq<Tcb>
    var currentTcb: int
    var currentId: int
    ghost var lists: seq<Lists>
    ghost var packets: set<Packet>

    ghost predicate Sound(onItsWay: multiset<Packet>)
      reads this, packets
    {
      && Tables(tcbs, blocks, lists, Links(packets), packets, onItsWay)
      && Addressed(packets, tcbs, blocks) && Counted(packets)
    }

    /** A task of this scheduler is at work: those above it wait. */
    ghost predicate AtWork()
      reads this
    {
      0 <= currentTcb < |tcbs| && Quiet(tcbs, currentTcb) && Rising(tcbs)
    }

    constructor ()
      ensures tcbs == [] && lists == [] && Sound(multiset{}) && packets == {} && blocks == map[]
      ensures queueCount == 0 && holdCount == 0
    {
      queueCount, holdCount, blocks, tcbs, currentTcb, currentId := 0, 0, map[], [], -1, -1;
      lists, packets := [], {};
    }

    /** TaskControlBlock.checkPriorityAdd */
    method CheckPriorityAdd(t: nat, p: Packet) returns (r: int)
      requires Tables(tcbs, blocks, lists, Links(packets), packets, multiset{p}) && AtWork() && p in packets
        && p.link == null
      requires t < |tcbs| && !tcbs[t].task.Idle?
      modifies this`tcbs, this`lists, packets`link
      ensures Tables(tcbs, blocks, lists, Links(packets), packets, multiset{}) && SameTasks(old(tcbs), tcbs)
        && Quiet(tcbs, r)
      ensures Handed(old(tcbs), old(lists), tcbs, lists, t, p, currentTcb, r)
    {
      hide AllHold, Conserved, AllConsistent, Indexed, Quiet, Links, Rising, SameTasks, Chain, Distinct;
      var next := if tcbs[t].queue == null && tcbs[t].priority > tcbs[currentTcb].priority then t else currentTcb;
      ghost var links0 := Links(packets);
      QueueLinked(tcbs, lists, links0, packets, t, p);
      ghost var s := lists[t].queue;
      LinkAt(packets, p);
      var head: Packet := p;
      if tcbs[t].queue == null {
        ChainOne(links0, p);
        Joins(links0, links0, s, p);
      } else {
        head := AddTo(p, tcbs[t].queue, s, packets);
      }
      JoinsOne(s, p);
      QueueJoined(tcbs, lists, links0, Links(packets), packets, t, p, head, Queued(tcbs, t, head)[t].state);
      QueuedConsistent(tcbs, blocks, t, head);
      QueuedQuiet(tcbs, t, head, currentTcb);
      tcbs := Queued(tcbs, t, head);
      lists := Behind(lists, t, p);
      r := next;
    }

    /** Scheduler.queue: a packet whose identity no task has is not delivered. */
    method Queue(p: Packet) returns (r: int)
      requires Tables(tcbs, blocks, lists, Links(packets), packets, multiset{p}) && AtWork() && Counted(packets)
        && Takes(tcbs, blocks, currentId)
      requires Addressed(packets - {p}, tcbs, blocks) && (p.id in blocks ==> Takes(tcbs, blocks, p.id))
      modifies this`tcbs, this`lists, this`queueCount, packets`link, p`id
      ensures old(p.id) !in blocks ==> r == -1 && p.id == old(p.id) && tcbs == old(tcbs) && lists == old(lists) && queueCount == old(queueCount)
      ensures old(p.id) in blocks ==>
        && Sound(multiset{}) && SameTasks(old(tcbs), tcbs) && Quiet(tcbs, r) && p.id == currentId
          && queueCount == old(queueCount) + 1
        && Handed(old(tcbs), old(lists), tcbs, lists, blocks[old(p.id)], p, currentTcb, r)
    {
      hide AllHold, Conserved, AllConsistent, Indexed, Quiet, Links, Rising, SameTasks, Handed, Addressed, Counted;
      if p.id !in blocks {
        return -1;
      }
      var t := blocks[p.id];
      queueCount := queueCount + 1;
      InPackets(lists, packets, p);
      LinkCut(tcbs, lists, Links(packets), packets, p);
      SetLink(p, null, packets);
      p.id := currentId;
      AddressedNow(packets, p, tcbs, blocks);
      ghost var tcbs0 := tcbs;
      r := CheckPriorityAdd(t, p);
      AddressedKept(packets, tcbs0, tcbs, blocks);
    }

    /** Scheduler.release */
    method Release(id: int) returns (r: int)
      requires Sound(multiset{}) && AtWork()
      modifies this`tcbs
      ensures id !in blocks ==> r == -1 && tcbs == old(tcbs)
      ensures id in blocks ==>
        && Sound(multiset{}) && SameTasks(old(tcbs), tcbs) && Quiet(tcbs, r)
        && tcbs == Released(old(tcbs), blocks[id])
        && r == if tcbs[blocks[id]].priority > tcbs[currentTcb].priority then blocks[id] else currentTcb
    {
      hide AllHold, Conserved, AllConsistent, Indexed, Quiet, Links, Rising, SameTasks, Addressed, Counted;
      if id !in blocks {
        return -1;
      }
      InBlocks(tcbs, blocks, id);
      var t := blocks[id];
      ReleasedKeeps(tcbs, blocks, lists, Links(packets), t);
      ReleasedQuiet(tcbs, t, currentTcb);
      ghost var tcbs0 := tcbs;
      tcbs := Released(tcbs, t);
      AddressedKept(packets, tcbs0, tcbs, blocks);
      r := if tcbs[t].priority > tcbs[currentTcb].priority then t else currentTcb;
    }

    /** Scheduler.holdCurrent */
    method HoldCurrent() returns (r: int)
      requires Sound(multiset{}) && AtWork()
      modifies this`tcbs, this`holdCount
      ensures Sound(multiset{}) && SameTasks(old(tcbs), tcbs) && Quiet(tcbs, r)
      ensures tcbs == Marked(old(tcbs), currentTcb, STATE_HELD) && r == currentTcb - 1
        && holdCount == old(holdCount) + 1
    {
      hide AllHold, Conserved, AllConsistent, Indexed, Quiet, Links, Rising, SameTasks, Addressed, Counted;
      HeldKeeps(tcbs, blocks, lists, Links(packets), currentTcb);
      HeldQuiet(tcbs, currentTcb);
      holdCount := holdCount + 1;
      ghost var tcbs0 := tcbs;
      tcbs := Marked(tcbs, currentTcb, STATE_HELD);
      AddressedKept(packets, tcbs0, tcbs, blocks);
      r := currentTcb - 1;
    }

    /** Scheduler.suspendCurrent */
    method SuspendCurrent() returns (r: int)
      requires Sound(multiset{}) && AtWork() && (tcbs[currentTcb].task.Device? ==> tcbs[currentTcb].task.slot == null)
      modifies this`tcbs
      ensures Sound(multiset{}) && SameTasks(old(tcbs), tcbs) && Quiet(tcbs, r)
      ensures tcbs == Marked(old(tcbs), currentTcb, STATE_SUSPENDED) && r == currentTcb
    {
      hide AllHold, Conserved, AllConsistent, Indexed, Quiet, Links, Rising, SameTasks, Addressed, Counted;
      SuspendedKeeps(tcbs, blocks, lists, Links(packets), currentTcb);
      ghost var tcbs0 := tcbs;
      tcbs := Marked(tcbs, currentTcb, STATE_SUSPENDED);
      AddressedKept(packets, tcbs0, tcbs, blocks);
      r := currentTcb;
    }
  }

  function Released(tcbs: seq<Tcb>, t: nat): (r: seq<Tcb>)
    requires t < |tcbs|
  {
    tcbs[t := tcbs[t].(state := NotHeld(tcbs[t].state))]
  }

  function Marked(tcbs: seq<Tcb>, t: nat, bit: int): (r: seq<Tcb>)
    requires t < |tcbs| && bit != 0
  {
    tcbs[t := tcbs[t].(state := With(tcbs[t].state, bit))]
  }

  lemma InBlocks(tcbs: seq<Tcb>, blocks: map<int, nat>, id: int)
    requires Indexed(tcbs, blocks) && id in blocks
    ensures blocks[id] < |tcbs| && tcbs[blocks[id]].id == id
  {
  }

  /** Another state for the task at t, as far as the packets are concerned. */
  lemma StateKeeps(tcbs: seq<Tcb>, blocks: map<int, nat>, lists: seq<Lists>, links: Fields, t: nat, state: int)
    requires AllHold(tcbs, lists, links) && AllConsistent(tcbs) && Indexed(tcbs, blocks) && t < |tcbs|
    requires 0 <= state < 8 && IsRunnable(state) == IsRunnable(tcbs[t].state)
    requires IsSuspended(state) && !IsSuspended(tcbs[t].state) ==> tcbs[t].task.Device? ==> tcbs[t].task.slot == null
    ensures var tcbs' := tcbs[t := tcbs[t].(state := state)];
      AllHold(tcbs', lists, links) && AllConsistent(tcbs') && Indexed(tcbs', blocks) && SameTasks(tcbs, tcbs')
  {
    hide Chain;
    assert tcbs[t].Consistent();
  }

  lemma ReleasedKeeps(tcbs: seq<Tcb>, blocks: map<int, nat>, lists: seq<Lists>, links: Fields, t: nat)
    requires AllHold(tcbs, lists, links) && AllConsistent(tcbs) && Indexed(tcbs, blocks) && t < |tcbs|
    ensures var tcbs' := Released(tcbs, t);
      AllHold(tcbs', lists, links) && AllConsistent(tcbs') && Indexed(tcbs', blocks) && SameTasks(tcbs, tcbs')
  {
    hide AllHold, Indexed, SameTasks;
    assert tcbs[t].Consistent();
    StateKeeps(tcbs, blocks, lists, links, t, NotHeld(tcbs[t].state));
  }

  lemma HeldKeeps(tcbs: seq<Tcb>, blocks: map<int, nat>, lists: seq<Lists>, links: Fields, t: nat)
    requires AllHold(tcbs, lists, links) && AllConsistent(tcbs) && Indexed(tcbs, blocks) && t < |tcbs|
    ensures var tcbs' := Marked(tcbs, t, STATE_HELD);
      AllHold(tcbs', lists, links) && AllConsistent(tcbs') && Indexed(tcbs', blocks) && SameTasks(tcbs, tcbs')
  {
    hide AllHold, Indexed, SameTasks;
    assert tcbs[t].Consistent();
    StateKeeps(tcbs, blocks, lists, links, t, With(tcbs[t].state, STATE_HELD));
  }

  lemma SuspendedKeeps(tcbs: seq<Tcb>, blocks: map<int, nat>, lists: seq<Lists>, links: Fields, t: nat)
    requires AllHold(tcbs, lists, links) && AllConsistent(tcbs) && Indexed(tcbs, blocks) && Quiet(tcbs, t) && t < |tcbs|
    requires tcbs[t].task.Device? ==> tcbs[t].task.slot == null
    ensures var tcbs' := Marked(tcbs, t, STATE_SUSPENDED);
      AllHold(tcbs', lists, links) && AllConsistent(tcbs') && Indexed(tcbs', blocks) && SameTasks(tcbs, tcbs')
        && Quiet(tcbs', t)
  {
    hide AllHold, Indexed, SameTasks;
    assert tcbs[t].Consistent();
    StateKeeps(tcbs, blocks, lists, links, t, With(tcbs[t].state, STATE_SUSPENDED));
  }

  lemma ReleasedQuiet(tcbs: seq<Tcb>, t: nat, k: nat)
    requires Rising(tcbs) && Quiet(tcbs, k) && t < |tcbs| && k < |tcbs|
    ensures Quiet(Released(tcbs, t), if tcbs[t].priority > tcbs[k].priority then t else k)
  {
  }

  lemma HeldQuiet(tcbs: seq<Tcb>, k: nat)
    requires AllConsistent(tcbs) && Quiet(tcbs, k) && k < |tcbs|
    ensures Quiet(Marked(tcbs, k, STATE_HELD), k - 1)
  {
    assert tcbs[k].Consistent();
  }

  lemma InPackets(ls: seq<Lists>, packets: set<Packet>, p: Packet)
    requires Conserved(ls, multiset{p}, packets)
    ensures p in packets
  {
    OnTheWay(ls, multiset{p}, packets, p);
  }

  lemma AddressedNow(packets: set<Packet>, p: Packet, tcbs: seq<Tcb>, blocks: map<int, nat>)
    requires Addressed(packets - {p}, tcbs, blocks) && Takes(tcbs, blocks, p.id)
    ensures Addressed(packets, tcbs, blocks)
  {
  }

  lemma AddressedKept(packets: set<Packet>, tcbs: seq<Tcb>, tcbs': seq<Tcb>, blocks: map<int, nat>)
    requires Addressed(packets, tcbs, blocks) && SameTasks(tcbs, tcbs')
    ensures Addressed(packets, tcbs', blocks)
  {
  }

  lemma QueueLinked(tcbs: seq<Tcb>, ls: seq<Lists>, links: Fields, packets: set<Packet>, t: nat, p: Packet)
    requires AllHold(tcbs, ls, links) && Conserved(ls, multiset{p}, packets) && t < |tcbs|
    ensures |ls| == |tcbs| && p in packets
    ensures var s := ls[t].queue;
      && Chain(links, tcbs[t].queue, s) && Distinct(s) && p !in s && (tcbs[t].queue == null <==> s == [])
      && forall x :: x in s ==> x in packets
  {
    hide Conserved;
    ListsDistinct(ls, multiset{p}, packets, t);
    OnTheWay(ls, multiset{p}, packets, p);
    assert TaskHolds(tcbs[t], ls[t], links);
    forall x | x in ls[t].queue ensures x in ls[t].All() {
    }
  }

  lemma Joins(links: Fields, links': Fields, s: seq<Packet>, p: Packet)
    requires p in links && links[p] == null && s == [] && links' == links
    ensures Appended(links, links', s, p)
  {
    assert links[p := null] == links;
  }

  lemma JoinsOne(s: seq<Packet>, p: Packet)
    ensures s == [] ==> s + [p] == [p]
  {
  }
}
