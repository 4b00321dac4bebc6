/** Runs of the scheduler. */
module RichardsSchedule {
  import opened RichardsPackets
  import opened RichardsTasks
  import opened RichardsMoves
  import opened RichardsScheduler
  import opened RichardsRuns
  import opened RichardsEnding

  predicate Ready(t: Tcb) {
    !IsHeldOrSuspended(t.state)
  }

  /** The task at k is ready, and no ready task has a higher priority. */
  predicate MostUrgent(tcbs: seq<Tcb>, k: int) {
    0 <= k < |tcbs| && Ready(tcbs[k])
      && forall j :: 0 <= j < |tcbs| && Ready(tcbs[j]) ==> tcbs[j].priority <= tcbs[k].priority
  }

  lemma QuietMostUrgent(tcbs: seq<Tcb>, k: int)
    requires Quiet(tcbs, k) && Rising(tcbs) && 0 <= k && Ready(tcbs[k])
    ensures MostUrgent(tcbs, k)
  {
  }

  /** TaskControlBlock.run, its first part: a suspended task that has packets gets the first one. */
  method TakePacket(s: Scheduler) returns (packet: Packet?)
    requires s.Sound(multiset{}) && s.AtWork() && Ready(s.tcbs[s.currentTcb])
    modifies s`tcbs, s`lists
    ensures s.Sound(OnItsWay(packet)) && Running(s) && SameTasks(old(s.tcbs), s.tcbs)
    ensures var k, t := s.currentTcb, s.tcbs[s.currentTcb];
      && t.task == old(s.tcbs[s.currentTcb].task) && (t.task.Idle? ==> packet == null)
      && (packet != null && t.task.Device? ==> t.task.slot == null)
      && if old(s.tcbs[s.currentTcb].state) == STATE_SUSPENDED_RUNNABLE then
          && old(s.lists[s.currentTcb].queue) != [] && packet == old(s.lists[s.currentTcb].queue[0])
          && s.lists == old(s.lists)[k := old(s.lists[s.currentTcb]).(queue := old(s.lists[s.currentTcb].queue[1..]))]
          && s.tcbs == old(s.tcbs)[k := t]
        else
          packet == null && s.tcbs == old(s.tcbs) && s.lists == old(s.lists)
    ensures Took(old(Now(s)), Now(s), s.currentTcb, packet)
  {
    hide Quiet, Rising, Addressed, Counted, Conserved, Links, Chain, SameTasks, Took, Ids, Counts;
    var k := s.currentTcb;
    var t := s.tcbs[k];
    ghost var x := Now(s);
    assert t.Consistent();
    if t.state == STATE_SUSPENDED_RUNNABLE {
      packet := t.queue;
      QueuePopped(s.tcbs, s.lists, Links(s.packets), s.packets, k);
      InPackets(s.lists[k := s.lists[k].(queue := s.lists[k].queue[1..])], s.packets, packet);
      LinkAt(s.packets, packet);
      t := t.(queue := packet.link);
      t := t.(state := if t.queue == null then STATE_RUNNING else STATE_RUNNABLE);
      PoppedKeeps(s.tcbs, s.blocks, k, t);
      SameTasksRising(s.tcbs, s.tcbs[k := t]);
      ghost var tcbs0 := s.tcbs;
      s.lists := s.lists[k := s.lists[k].(queue := s.lists[k].queue[1..])];
      s.tcbs := s.tcbs[k := t];
      AddressedKept(s.packets, tcbs0, s.tcbs, s.blocks);
    } else {
      packet := null;
      SameTasksSelf(s.tcbs);
    }
    NowTook(x, Now(s), k, packet);
  }

  lemma NowTook(x: Look, y: Look, k: nat, packet: Packet?)
    requires |x.tcbs| == |x.lists| && k < |x.tcbs| && y.ids == x.ids && y.counts == x.counts && Ready(x.tcbs[k])
    requires 0 <= x.tcbs[k].state < 8
    requires
      if x.tcbs[k].state == STATE_SUSPENDED_RUNNABLE then
        && x.lists[k].queue != [] && packet == x.lists[k].queue[0] && |y.tcbs| == |x.tcbs|
        && y.lists == x.lists[k := x.lists[k].(queue := x.lists[k].queue[1..])] && y.tcbs == x.tcbs[k := y.tcbs[k]]
        && y.tcbs[k].task == x.tcbs[k].task && y.tcbs[k].state in {STATE_RUNNING, STATE_RUNNABLE}
      else packet == null && y == x
    ensures Took(x, y, k, packet)
  {
  }

  lemma PoppedKeeps(tcbs: seq<Tcb>, blocks: map<int, nat>, k: nat, t: Tcb)
    requires AllConsistent(tcbs) && Indexed(tcbs, blocks) && Quiet(tcbs, k) && k < |tcbs|
    requires !tcbs[k].task.Idle? && t == tcbs[k].(queue := t.queue, state := if t.queue == null then STATE_RUNNING
      else STATE_RUNNABLE)
    ensures var tcbs' := tcbs[k := t];
      AllConsistent(tcbs') && Indexed(tcbs', blocks) && SameTasks(tcbs, tcbs') && Quiet(tcbs', k)
  {
  }

  /** Whatever a task can have in hand is known to the scheduler. */
  lemma Known(tcbs: seq<Tcb>, ls: seq<Lists>, links: Fields, packets: set<Packet>, packet: Packet?, k: nat)
    requires AllHold(tcbs, ls, links) && Conserved(ls, OnItsWay(packet), packets) && k < |tcbs|
    ensures Maybe(packet) <= packets && (tcbs[k].task.Device? ==> Maybe(tcbs[k].task.slot) <= packets)
    ensures Heads(InHand(ls[k], packet)) <= packets
  {
    hide Conserved, Chain;
    ListsDistinct(ls, OnItsWay(packet), packets, k);
    assert TaskHolds(tcbs[k], ls[k], links);
    if packet != null {
      OnTheWay(ls, OnItsWay(packet), packets, packet);
    }
    forall x | x in ls[k].first || x in ls[k].second ensures x in packets {
      assert x in ls[k].All();
    }
  }

  /** What a task does brings the run of the scheduler nearer to its end. */
  ghost predicate Nearer(x: Look, y: Look, blocks: map<int, nat>) {
    |x.lists| == |x.tcbs| && (Wired(x, blocks) ==> Wired(y, blocks) && RankOf(x).Falls(RankOf(y)))
  }

  method RunIdle(s: Scheduler, ghost x: Look) returns (r: int)
    requires s.Sound(multiset{}) && s.AtWork() && s.tcbs[s.currentTcb].task.Idle? && Connected(s.tcbs, s.blocks)
    requires x == Now(s) && !IsHeld(s.tcbs[s.currentTcb].state)
    modifies s`tcbs, s`holdCount
    ensures s.Sound(multiset{}) && SameTasks(old(s.tcbs), s.tcbs) && Quiet(s.tcbs, r) && Nearer(x, Now(s), s.blocks)
  {
    hide Quiet, Rising, Addressed, Counted, Conserved, Links, AllHold, AllConsistent, SameTasks, Indexed, Wired, RankOf,
      Connected, Ids, Counts;
    ghost var k := s.currentTcb;
    OwnEntry(s.tcbs, s.blocks, k);
    HoldSizes(s.tcbs, s.lists, Links(s.packets));
    WakesConnected(s.tcbs, s.blocks, s.tcbs[k].task);
    InBlocks(s.tcbs, s.blocks, IdleWakes(s.tcbs[k].task));
    r := IdleRun(s);
    if Wired(x, s.blocks) {
      IdleEnds(x, Now(s), s.blocks, k);
    }
  }

  lemma HoldSizes(tcbs: seq<Tcb>, lists: seq<Lists>, links: Fields)
    requires AllHold(tcbs, lists, links)
    ensures |lists| == |tcbs|
  {
    hide TaskHolds;
  }

  lemma WakesConnected(tcbs: seq<Tcb>, blocks: map<int, nat>, t: Task)
    requires Connected(tcbs, blocks) && t.Idle?
    ensures IdleWakes(t) in blocks
  {
  }

  /** The tables before the task at k took its packet. */
  ghost predicate Began(s: Scheduler, x: Look, links: Fields, packet: Packet?)
    reads s, s.packets
  {
    && Tables(x.tcbs, s.blocks, x.lists, links, s.packets, multiset{}) && Took(x, Now(s), s.currentTcb, packet)
    && s.currentId == x.tcbs[s.currentTcb].id
  }

  method RunDevice(s: Scheduler, packet: Packet?, ghost x: Look, ghost links: Fields) returns (r: int)
    requires s.Sound(OnItsWay(packet)) && Running(s) && Takes(s.tcbs, s.blocks, s.currentId)
    requires s.tcbs[s.currentTcb].task.Device? && (packet != null ==> s.tcbs[s.currentTcb].task.slot == null)
    requires Began(s, x, links, packet)
    modifies s`tcbs, s`lists, s`queueCount, s`holdCount, s.packets`link, Maybe(s.tcbs[s.currentTcb].task.slot)`id
    ensures s.Sound(multiset{}) && SameTasks(old(s.tcbs), s.tcbs) && Quiet(s.tcbs, r) && Nearer(x, Now(s), s.blocks)
  {
    hide Quiet, Rising, Addressed, Counted, Conserved, Links, AllHold, AllConsistent, SameTasks, Indexed, Wired, RankOf,
      Handed;
    ghost var k, x1 := s.currentTcb, Now(s);
    SlotKnown(s.tcbs, s.lists, Links(s.packets), s.packets, packet, k);
    r := DeviceRun(s, packet);
    if Wired(x, s.blocks) {
      DeviceEnds(x, x1, Now(s), s.blocks, links, s.packets, k, packet, r);
    }
  }

  lemma SlotKnown(tcbs: seq<Tcb>, ls: seq<Lists>, links: Fields, packets: set<Packet>, packet: Packet?, k: nat)
    requires AllHold(tcbs, ls, links) && Conserved(ls, OnItsWay(packet), packets) && k < |tcbs| && tcbs[k].task.Device?
    ensures Maybe(tcbs[k].task.slot) <= packets
  {
    Known(tcbs, ls, links, packets, packet, k);
  }

  method RunWorker(s: Scheduler, packet: Packet?, ghost x: Look, ghost links: Fields) returns (r: int)
    requires s.Sound(OnItsWay(packet)) && Running(s) && Takes(s.tcbs, s.blocks, s.currentId)
    requires s.tcbs[s.currentTcb].task.Worker? && Connected(s.tcbs, s.blocks)
    requires Began(s, x, links, packet)
    modifies s`tcbs, s`lists, s`queueCount, s.packets`link, Maybe(packet)`id, Maybe(packet)`a1, Maybe(packet)`a2
    ensures s.Sound(multiset{}) && SameTasks(old(s.tcbs), s.tcbs) && Quiet(s.tcbs, r) && Nearer(x, Now(s), s.blocks)
  {
    hide Quiet, Rising, Addressed, Counted, Conserved, Links, AllHold, AllConsistent, SameTasks, Indexed, Wired, RankOf,
      Handed, LetterAfter, Connected;
    ghost var k, x1, t := s.currentTcb, Now(s), s.tcbs[s.currentTcb].task;
    PacketKnown(s.lists, s.packets, packet);
    r := WorkerRun(s, packet);
    if Wired(x, s.blocks) {
      WorkerEnds(x, x1, Now(s), s.blocks, links, s.packets, k, packet,
        Worker(Other(t.target), LetterAfter(t.letter, DATA_SIZE)), r);
    }
  }

  lemma PacketKnown(ls: seq<Lists>, packets: set<Packet>, packet: Packet?)
    requires Conserved(ls, OnItsWay(packet), packets)
    ensures Maybe(packet) <= packets
  {
    if packet != null {
      OnTheWay(ls, OnItsWay(packet), packets, packet);
    }
  }

  method RunHandler(s: Scheduler, packet: Packet?, ghost x: Look, ghost links: Fields) returns (r: int)
    requires s.Sound(OnItsWay(packet)) && Running(s) && Takes(s.tcbs, s.blocks, s.currentId)
    requires s.tcbs[s.currentTcb].task.Handler?
    requires Began(s, x, links, packet)
    modifies s`tcbs, s`lists, s`queueCount, s.packets`link
    modifies Heads(InHand(s.lists[s.currentTcb], packet))`id, Heads(InHand(s.lists[s.currentTcb], packet))`a1
    ensures s.Sound(multiset{}) && SameTasks(old(s.tcbs), s.tcbs) && Quiet(s.tcbs, r) && Nearer(x, Now(s), s.blocks)
  {
    hide Quiet, Rising, Addressed, Counted, Conserved, Links, AllHold, AllConsistent, SameTasks, Indexed, Wired, RankOf,
      Handed, InHand;
    ghost var k, x1 := s.currentTcb, Now(s);
    ghost var l := InHand(s.lists[k], packet);
    ghost var move := Move(l);
    ghost var v := if move == 0 then null else Leaving(l, move);
    HandSorted(s.tcbs, s.lists, Links(s.packets), k, packet);
    HeadsKnownHere(s.tcbs, s.lists, Links(s.packets), s.packets, k, packet);
    r := HandlerRun(s, packet);
    if Wired(x, s.blocks) {
      if move != 0 {
        ServedLeaves(x, x1, Now(s), s.blocks, k, l, move, v, r);
      }
      HandlerEnds(x, x1, Now(s), s.blocks, links, s.packets, k, packet, l, move, v, r);
    }
  }

  lemma ServedLeaves(x: Look, x1: Look, y: Look, blocks: map<int, nat>, k: nat, l: Lists, move: int, v: Packet, r: int)
    requires move in {1, 2} && k < |x1.tcbs| == |x1.lists| == |y.tcbs| && k < |x.tcbs| == |x.lists| && v in x1.ids
      && x1.ids == x.ids
    requires Served(x1.tcbs, x1.lists[k := l], y.tcbs, y.lists, blocks, k, move, x1.ids[v], r)
    requires (move == 1 ==> l.second != []) && (move == 2 ==> l.first != []) && v == Leaving(l, move)
    requires y.tcbs[k].task.Handler? && Indexed(x.tcbs, blocks) && Readdressed(x, y, v, x.tcbs[k].id)
    ensures Leaves(x, x1, y, blocks, k, blocks[x.ids[v]], l, y.tcbs[k].task, move == 2, v, r)
  {
    hide Handed, Readdressed;
    assert x1.lists[k := l][k := Without(l, move == 2)] == x1.lists[k := Without(l, move == 2)];
  }

  lemma HeadsKnownHere(tcbs: seq<Tcb>, ls: seq<Lists>, links: Fields, packets: set<Packet>, k: nat, packet: Packet?)
    requires AllHold(tcbs, ls, links) && Conserved(ls, OnItsWay(packet), packets) && k < |tcbs|
    ensures k < |ls| && Heads(InHand(ls[k], packet)) <= packets
  {
    Known(tcbs, ls, links, packets, packet, k);
  }

  /** TaskControlBlock.run */
  method Run(s: Scheduler) returns (r: int)
    requires s.Sound(multiset{}) && s.AtWork() && Ready(s.tcbs[s.currentTcb]) && Connected(s.tcbs, s.blocks)
    requires s.currentId == s.tcbs[s.currentTcb].id
    modifies s`tcbs, s`lists, s`queueCount, s`holdCount, s.packets
    ensures s.Sound(multiset{}) && SameTasks(old(s.tcbs), s.tcbs) && Quiet(s.tcbs, r)
    ensures Nearer(old(Now(s)), Now(s), s.blocks)
  {
    hide Quiet, Rising, Addressed, Counted, Conserved, Links, AllHold, AllConsistent, SameTasks, Indexed, InHand, Heads,
      Nearer;
    ghost var tcbs0, x, links := s.tcbs, Now(s), Links(s.packets);
    var packet := TakePacket(s);
    ghost var tcbs1 := s.tcbs;
    ConnectedStill(tcbs0, tcbs1, s.blocks);
    OwnBlock(tcbs0, tcbs1, s.blocks, s.currentTcb);
    Known(tcbs1, s.lists, Links(s.packets), s.packets, packet, s.currentTcb);
    var task := s.tcbs[s.currentTcb].task;
    if task.Idle? {
      r := RunIdle(s, x);
    } else if task.Device? {
      r := RunDevice(s, packet, x, links);
    } else if task.Worker? {
      r := RunWorker(s, packet, x, links);
    } else {
      r := RunHandler(s, packet, x, links);
    }
    SameTasksTwice(tcbs0, tcbs1, s.tcbs);
  }

  lemma ConnectedStill(tcbs: seq<Tcb>, tcbs': seq<Tcb>, blocks: map<int, nat>)
    requires SameTasks(tcbs, tcbs') && Connected(tcbs, blocks)
    ensures Connected(tcbs', blocks)
  {
  }

  lemma OwnBlock(tcbs: seq<Tcb>, tcbs': seq<Tcb>, blocks: map<int, nat>, k: nat)
    requires Indexed(tcbs, blocks) && k < |tcbs| && SameTasks(tcbs, tcbs')
    ensures k < |tcbs'| && (!tcbs'[k].task.Idle? ==> Takes(tcbs', blocks, tcbs[k].id))
  {
  }

  /** A scheduler at work, between two steps. */
  ghost predicate Going(s: Scheduler)
    reads s, s.packets
  {
    s.Sound(multiset{}) && Rising(s.tcbs) && Connected(s.tcbs, s.blocks) && Quiet(s.tcbs, s.currentTcb)
  }

  /** One turn of the loop of Scheduler.schedule. A task that is run is the most urgent one that is ready. */
  method Step(s: Scheduler)
    requires Going(s) && s.currentTcb >= 0
    modifies s`tcbs, s`lists, s`queueCount, s`holdCount, s`currentTcb, s`currentId, s.packets
    ensures Going(s) && SameTasks(old(s.tcbs), s.tcbs)
    ensures if old(Ready(s.tcbs[s.currentTcb])) then
        MostUrgent(old(s.tcbs), old(s.currentTcb)) && s.currentId == old(s.tcbs[s.currentTcb].id)
      else
        s.tcbs == old(s.tcbs) && s.lists == old(s.lists) && s.currentTcb == old(s.currentTcb) - 1
    ensures if old(Ready(s.tcbs[s.currentTcb])) then Nearer(old(Now(s)), Now(s), s.blocks) else Now(s) == old(Now(s))
  {
    hide Rising, Addressed, Counted, Conserved, Links, AllHold, AllConsistent, SameTasks, Connected, Indexed,
      MostUrgent, Nearer;
    var k := s.currentTcb;
    ghost var tcbs0 := s.tcbs;
    if IsHeldOrSuspended(s.tcbs[k].state) {
      PastQuiet(s.tcbs, k);
      SameTasksSelf(s.tcbs);
      s.currentTcb := k - 1;
    } else {
      QuietMostUrgent(s.tcbs, k);
      s.currentId := s.tcbs[k].id;
      var next := Run(s);
      s.currentTcb := next;
      ConnectedStill(tcbs0, s.tcbs, s.blocks);
      SameTasksRising(tcbs0, s.tcbs);
    }
  }

  lemma PastQuiet(tcbs: seq<Tcb>, k: nat)
    requires Quiet(tcbs, k) && IsHeldOrSuspended(tcbs[k].state)
    ensures Quiet(tcbs, k - 1)
  {
  }

  /** Scheduler.schedule: with tasks wired like the benchmark's, the loop ends, and then no task is ready. */
  method Schedule(s: Scheduler)
    requires s.Sound(multiset{}) && Rising(s.tcbs) && Connected(s.tcbs, s.blocks) && Wired(Now(s), s.blocks)
    modifies s`tcbs, s`lists, s`queueCount, s`holdCount, s`currentTcb, s`currentId, s.packets
    ensures Going(s) && SameTasks(old(s.tcbs), s.tcbs) && Wired(Now(s), s.blocks)
    ensures forall k :: 0 <= k < |s.tcbs| ==> !Ready(s.tcbs[k])
  {
    hide Rising, Addressed, Counted, Conserved, Links, AllHold, AllConsistent, SameTasks, Connected, Indexed, Wired,
      RankOf;
    s.currentTcb := |s.tcbs| - 1;
    ghost var tcbs0 := s.tcbs;
    SameTasksSelf(s.tcbs);
    WiredSizes(Now(s), s.blocks);
    while s.currentTcb >= 0
      invariant Going(s) && SameTasks(tcbs0, s.tcbs)
      invariant |s.lists| == |s.tcbs| && Wired(Now(s), s.blocks)
      decreases RankOf(Now(s)).chances, RankOf(Now(s)).returning, RankOf(Now(s)).working, RankOf(Now(s)).waking,
        s.currentTcb + 1
    {
      ghost var tcbs1 := s.tcbs;
      Step(s);
      SameTasksTwice(tcbs0, tcbs1, s.tcbs);
      WiredSizes(Now(s), s.blocks);
    }
  }

  lemma WiredSizes(x: Look, blocks: map<int, nat>)
    requires Wired(x, blocks)
    ensures |x.lists| == |x.tcbs|
  {
  }
}
