/** What each kind of task does when it is run: the idle task wakes devices in turn, a device keeps a
    packet while it is held, the worker fills packets for the handlers, and a handler passes their data
    on one by one. */
module RichardsRuns {
  import opened RichardsPackets
  import opened RichardsTasks
  import opened RichardsMoves
  import opened RichardsScheduler

  ghost function Maybe(p: Packet?): (r: set<Packet>) {
    if p == null then {} else {p}
  }

  ghost function OnItsWay(p: Packet?): (m: multiset<Packet>) {
    if p == null then multiset{} else multiset{p}
  }

  function WithTask(tcbs: seq<Tcb>, k: nat, task: Task): (r: seq<Tcb>)
    requires k < |tcbs|
  {
    tcbs[k := tcbs[k].(task := task)]
  }

  /** The current task, which is neither suspended nor held. */
  ghost predicate Running(s: Scheduler)
    reads s
  {
    s.AtWork() && s.tcbs[s.currentTcb].state in {STATE_RUNNING, STATE_RUNNABLE}
  }

  lemma TaskChanged(tcbs: seq<Tcb>, blocks: map<int, nat>, k: nat, task: Task)
    requires AllConsistent(tcbs) && Indexed(tcbs, blocks) && Quiet(tcbs, k) && k < |tcbs|
    requires tcbs[k].task.Idle? == task.Idle? && (task.Device? && IsSuspended(tcbs[k].state) ==> task.slot == null)
    ensures var tcbs' := WithTask(tcbs, k, task);
      AllConsistent(tcbs') && Indexed(tcbs', blocks) && SameTasks(tcbs, tcbs') && Quiet(tcbs', k)
  {
    assert tcbs[k].Consistent();
  }

  lemma SameTasksRising(tcbs: seq<Tcb>, tcbs': seq<Tcb>)
    requires SameTasks(tcbs, tcbs') && Rising(tcbs)
    ensures Rising(tcbs')
  {
  }

  lemma SameTasksSelf(a: seq<Tcb>)
    ensures SameTasks(a, a)
  {
  }

  lemma SameTasksTwice(a: seq<Tcb>, b: seq<Tcb>, c: seq<Tcb>)
    requires SameTasks(a, b) && SameTasks(b, c)
    ensures SameTasks(a, c)
  {
  }

  // ----- idle tasks ------------------------------------------------------------------------------------------------

  /** One run counts down and steps the shift register that picks the devices. */
  function IdleNext(t: Task): (r: Task)
    requires t.Idle?
  {
    if t.count == 1 then t.(count := 0)
    else if t.v1 & 1 == 0 then Idle(t.v1 >> 1, t.count - 1)
    else Idle((t.v1 >> 1) ^ 0xD008, t.count - 1)
  }

  function IdleWakes(t: Task): (id: int)
    requires t.Idle?
  {
    if t.v1 & 1 == 0 then ID_DEVICE_A else ID_DEVICE_B
  }

  /** Within 16 bits the register can be stepped back: its highest bit says which device was woken
      and if the taps at bits 3, 12, 14 and 15 were turned over. It never comes to zero. */
  lemma RegisterBack(t: Task)
    requires t.Idle? && t.count != 1 && t.v1 <= 0xFFFF
    ensures
      var v := IdleNext(t).v1;
      && v <= 0xFFFF && IdleNext(t).count == t.count - 1 && (t.v1 != 0 ==> v != 0)
      && (IdleWakes(t) == ID_DEVICE_A ==> v < 0x8000 && t.v1 == v << 1)
      && (IdleWakes(t) != ID_DEVICE_A ==> IdleWakes(t) == ID_DEVICE_B && v >= 0x8000 && t.v1 == ((v ^ 0xD008) << 1) | 1)
  {
  }

  method IdleStep(s: Scheduler, task: Task)
    requires s.Sound(multiset{}) && s.AtWork() && s.tcbs[s.currentTcb].task.Idle? && task.Idle?
    modifies s`tcbs
    ensures s.Sound(multiset{}) && s.AtWork() && SameTasks(old(s.tcbs), s.tcbs)
      && s.tcbs == WithTask(old(s.tcbs), s.currentTcb, task)
  {
    hide AllConsistent, Indexed, Quiet, SameTasks, Rising, Addressed, Counted, Conserved, Links;
    TaskChanged(s.tcbs, s.blocks, s.currentTcb, task);
    IdleHolds(s.tcbs, s.lists, Links(s.packets), s.currentTcb, task);
    SameTasksRising(s.tcbs, WithTask(s.tcbs, s.currentTcb, task));
    ghost var tcbs0 := s.tcbs;
    s.tcbs := WithTask(s.tcbs, s.currentTcb, task);
    AddressedKept(s.packets, tcbs0, s.tcbs, s.blocks);
  }

  lemma IdleHolds(tcbs: seq<Tcb>, lists: seq<Lists>, links: Fields, k: nat, task: Task)
    requires AllHold(tcbs, lists, links) && k < |tcbs| && tcbs[k].task.Idle? && task.Idle?
    ensures AllHold(WithTask(tcbs, k, task), lists, links)
  {
    hide Chain;
  }

  /** IdleTask.run: the idle task either stops for good or wakes a device. */
  method IdleRun(s: Scheduler) returns (r: int)
    requires s.Sound(multiset{}) && s.AtWork() && s.tcbs[s.currentTcb].task.Idle? && Connected(s.tcbs, s.blocks)
    modifies s`tcbs, s`holdCount
    ensures s.Sound(multiset{}) && SameTasks(old(s.tcbs), s.tcbs) && Quiet(s.tcbs, r)
    ensures var k, t := s.currentTcb, old(s.tcbs[s.currentTcb].task);
      var stepped := WithTask(old(s.tcbs), k, IdleNext(t));
      if t.count == 1 then
        s.tcbs == Marked(stepped, k, STATE_HELD) && r == k - 1 && s.holdCount == old(s.holdCount) + 1
      else
        var d := s.blocks[IdleWakes(t)];
        && s.holdCount == old(s.holdCount) && d < |s.tcbs| && s.tcbs == Released(stepped, d)
        && r == if s.tcbs[d].priority > s.tcbs[k].priority then d else k
  {
    hide AllConsistent, Indexed, Quiet, SameTasks, Rising, Addressed, Counted, Conserved, Links, AllHold;
    var k := s.currentTcb;
    var t := s.tcbs[k].task;
    InBlocks(s.tcbs, s.blocks, IdleWakes(t));
    ghost var tcbs0 := s.tcbs;
    var task := t.(count := t.count - 1);
    if task.count != 0 {
      task := task.(v1 := if t.v1 & 1 == 0 then t.v1 >> 1 else (t.v1 >> 1) ^ 0xD008);
    }
    IdleStep(s, task);
    ghost var tcbs1 := s.tcbs;
    if task.count == 0 {
      r := s.HoldCurrent();
    } else if t.v1 & 1 == 0 {
      r := s.Release(ID_DEVICE_A);
    } else {
      r := s.Release(ID_DEVICE_B);
    }
    SameTasksTwice(tcbs0, tcbs1, s.tcbs);
  }

  // ----- devices ---------------------------------------------------------------------------------------------------

  /** A device puts a packet into its empty slot. */
  method FillSlot(s: Scheduler, p: Packet)
    requires s.Sound(multiset{p}) && Running(s) && s.tcbs[s.currentTcb].task == Device(null)
    modifies s`tcbs, s`lists
    ensures s.Sound(multiset{}) && s.AtWork() && SameTasks(old(s.tcbs), s.tcbs)
    ensures s.tcbs == WithTask(old(s.tcbs), s.currentTcb, Device(p))
    ensures s.lists == old(s.lists)[s.currentTcb := old(s.lists[s.currentTcb]).(first := [p])]
  {
    hide AllConsistent, Indexed, Quiet, SameTasks, Rising, Addressed, Counted, Conserved, Links;
    var k := s.currentTcb;
    TaskChanged(s.tcbs, s.blocks, k, Device(p));
    SlotFilled(s.tcbs, s.lists, Links(s.packets), s.packets, k, p);
    SameTasksRising(s.tcbs, WithTask(s.tcbs, k, Device(p)));
    ghost var tcbs0 := s.tcbs;
    s.tcbs := WithTask(s.tcbs, k, Device(p));
    s.lists := s.lists[k := s.lists[k].(first := [p])];
    AddressedKept(s.packets, tcbs0, s.tcbs, s.blocks);
  }

  method EmptySlot(s: Scheduler) returns (v: Packet)
    requires s.Sound(multiset{}) && s.AtWork() && s.tcbs[s.currentTcb].task.Device?
      && s.tcbs[s.currentTcb].task.slot != null
    modifies s`tcbs, s`lists
    ensures v == old(s.tcbs[s.currentTcb].task.slot) && s.Sound(multiset{v}) && s.AtWork()
      && SameTasks(old(s.tcbs), s.tcbs)
    ensures s.tcbs == WithTask(old(s.tcbs), s.currentTcb, Device(null))
    ensures s.lists == old(s.lists)[s.currentTcb := old(s.lists[s.currentTcb]).(first := [])]
  {
    hide AllConsistent, Indexed, Quiet, SameTasks, Rising, Addressed, Counted, Conserved, Links;
    var k := s.currentTcb;
    v := s.tcbs[k].task.slot;
    TaskChanged(s.tcbs, s.blocks, k, Device(null));
    SlotEmptied(s.tcbs, s.lists, Links(s.packets), s.packets, k);
    SameTasksRising(s.tcbs, WithTask(s.tcbs, k, Device(null)));
    ghost var tcbs0 := s.tcbs;
    s.tcbs := WithTask(s.tcbs, k, Device(null));
    s.lists := s.lists[k := s.lists[k].(first := [])];
    AddressedKept(s.packets, tcbs0, s.tcbs, s.blocks);
  }

  lemma AddressOf(packets: set<Packet>, ls: seq<Lists>, tcbs: seq<Tcb>, blocks: map<int, nat>, v: Packet)
    requires Addressed(packets, tcbs, blocks) && Conserved(ls, multiset{v}, packets)
    ensures v in packets && Takes(tcbs, blocks, v.id) && Addressed(packets - {v}, tcbs, blocks)
  {
    InPackets(ls, packets, v);
  }

  /** Sends a packet that is on its way to the task it names. */
  method Send(s: Scheduler, v: Packet) returns (r: int)
    requires s.Sound(multiset{v}) && s.AtWork() && Takes(s.tcbs, s.blocks, s.currentId)
    modifies s`tcbs, s`lists, s`queueCount, s.packets`link, v`id
    ensures s.Sound(multiset{}) && SameTasks(old(s.tcbs), s.tcbs) && Quiet(s.tcbs, r)
    ensures v.id == s.currentId && s.queueCount == old(s.queueCount) + 1 && old(v.id) in s.blocks
    ensures Handed(old(s.tcbs), old(s.lists), s.tcbs, s.lists, s.blocks[old(v.id)], v, s.currentTcb, r)
  {
    hide AllConsistent, Indexed, Quiet, SameTasks, Rising, Addressed, Counted, Conserved, Links, AllHold, Handed;
    AddressOf(s.packets, s.lists, s.tcbs, s.blocks, v);
    r := s.Queue(v);
  }

  /** DeviceTask.run: a packet is kept while the device is held; released without one, the device passes its packet on.
      */
  method DeviceRun(s: Scheduler, packet: Packet?) returns (r: int)
    requires s.Sound(OnItsWay(packet)) && Running(s) && Takes(s.tcbs, s.blocks, s.currentId)
    requires s.tcbs[s.currentTcb].task.Device? && (packet != null ==> s.tcbs[s.currentTcb].task.slot == null)
    modifies s`tcbs, s`lists, s`queueCount, s`holdCount, s.packets`link, Maybe(s.tcbs[s.currentTcb].task.slot)`id
    ensures s.Sound(multiset{}) && SameTasks(old(s.tcbs), s.tcbs) && Quiet(s.tcbs, r)
    ensures var k, slot := s.currentTcb, old(s.tcbs[s.currentTcb].task.slot);
      if packet != null then
        && s.tcbs == Marked(WithTask(old(s.tcbs), k, Device(packet)), k, STATE_HELD) && r == k - 1
        && s.lists == old(s.lists)[k := old(s.lists[k]).(first := [packet])]
      else if slot == null then
        s.tcbs == Marked(old(s.tcbs), k, STATE_SUSPENDED) && s.lists == old(s.lists) && r == k
      else
        && old(slot.id) in s.blocks && slot.id == s.currentId
        && Handed(WithTask(old(s.tcbs), k, Device(null)), old(s.lists)[k := old(s.lists[k]).(first := [])], s.tcbs,
          s.lists, s.blocks[old(slot.id)], slot, k, r)
  {
    hide AllConsistent, Indexed, Quiet, SameTasks, Rising, Addressed, Counted, Conserved, Links, AllHold, Handed;
    ghost var tcbs0 := s.tcbs;
    var k := s.currentTcb;
    if packet == null {
      if s.tcbs[k].task.slot == null {
        r := s.SuspendCurrent();
      } else {
        var v := EmptySlot(s);
        ghost var tcbs1 := s.tcbs;
        TakesStill(tcbs0, tcbs1, s.blocks, s.currentId);
        r := Send(s, v);
        SameTasksTwice(tcbs0, tcbs1, s.tcbs);
      }
    } else {
      FillSlot(s, packet);
      ghost var tcbs1 := s.tcbs;
      r := s.HoldCurrent();
      SameTasksTwice(tcbs0, tcbs1, s.tcbs);
    }
  }

  lemma TakesStill(tcbs: seq<Tcb>, tcbs': seq<Tcb>, blocks: map<int, nat>, id: int)
    requires SameTasks(tcbs, tcbs') && Takes(tcbs, blocks, id)
    ensures Takes(tcbs', blocks, id)
  {
  }

  // ----- workers ---------------------------------------------------------------------------------------------------

  function NextLetter(v: int): (r: int) {
    if v + 1 > 26 then 1 else v + 1
  }

  function LetterAfter(v: int, n: nat): (r: int) {
    if n == 0 then v else NextLetter(LetterAfter(v, n - 1))
  }

  /** The letters go round from 1 to 26. */
  lemma {:induction false} LettersGoRound(v: int, n: nat)
    requires 0 <= v <= 26 && n > 0
    ensures LetterAfter(v, n) == (v + n - 1) % 26 + 1
  {
    if n > 1 {
      LettersGoRound(v, n - 1);
    }
  }

  method FillData(p: Packet, v: int) returns (r: int)
    requires |p.a2| == DATA_SIZE
    modifies p`a2
    ensures |p.a2| == DATA_SIZE && forall i :: 0 <= i < DATA_SIZE ==> p.a2[i] == LetterAfter(v, i + 1)
    ensures r == LetterAfter(v, DATA_SIZE)
  {
    r := v;
    for i := 0 to DATA_SIZE
      invariant |p.a2| == DATA_SIZE && r == LetterAfter(v, i)
      invariant forall j :: 0 <= j < i ==> p.a2[j] == LetterAfter(v, j + 1)
    {
      r := r + 1;
      if r > 26 {
        r := 1;
      }
      p.a2 := p.a2[i := r];
    }
  }

  function Other(target: int): (r: int)
    ensures r != target && (r == ID_HANDLER_A || r == ID_HANDLER_B)
  {
    if target == ID_HANDLER_A then ID_HANDLER_B else ID_HANDLER_A
  }

  lemma CountedNow(packets: set<Packet>, p: Packet)
    requires Counted(packets - {p}) && p.a1 == 0 && |p.a2| == DATA_SIZE
    ensures Counted(packets)
  {
  }

  lemma CountedRest(packets: set<Packet>, p: Packet)
    requires Counted(packets) && p in packets
    ensures Counted(packets - {p}) && |p.a2| == DATA_SIZE
  {
  }

  lemma WorkerHolds(tcbs: seq<Tcb>, lists: seq<Lists>, links: Fields, k: nat, task: Task)
    requires AllHold(tcbs, lists, links) && k < |tcbs| && tcbs[k].task.Worker? && task.Worker?
    ensures AllHold(WithTask(tcbs, k, task), lists, links)
  {
    hide Chain;
  }

  /** The packet is filled and addressed to the other handler. */
  method Fill(s: Scheduler, p: Packet)
    requires s.Sound(multiset{p}) && s.AtWork() && s.tcbs[s.currentTcb].task.Worker? && Connected(s.tcbs, s.blocks)
    modifies s`tcbs, p`id, p`a1, p`a2
    ensures s.Sound(multiset{p}) && s.AtWork() && SameTasks(old(s.tcbs), s.tcbs)
    ensures var t := old(s.tcbs[s.currentTcb].task);
      && s.tcbs == WithTask(old(s.tcbs), s.currentTcb, Worker(Other(t.target), LetterAfter(t.letter, DATA_SIZE)))
      && p.id == Other(t.target) && p.a1 == 0
      && |p.a2| == DATA_SIZE && forall i :: 0 <= i < DATA_SIZE ==> p.a2[i] == LetterAfter(t.letter, i + 1)
  {
    hide AllConsistent, Indexed, Quiet, SameTasks, Rising, Addressed, Counted, Conserved, Links, AllHold, LetterAfter;
    var k := s.currentTcb;
    var t := s.tcbs[k].task;
    AddressOf(s.packets, s.lists, s.tcbs, s.blocks, p);
    CountedRest(s.packets, p);
    var target := if t.target == ID_HANDLER_A then ID_HANDLER_B else ID_HANDLER_A;
    p.id, p.a1 := target, 0;
    var letter := FillData(p, t.letter);
    CountedNow(s.packets, p);
    AddressedNow(s.packets, p, s.tcbs, s.blocks);
    TaskChanged(s.tcbs, s.blocks, k, Worker(target, letter));
    WorkerHolds(s.tcbs, s.lists, Links(s.packets), k, Worker(target, letter));
    SameTasksRising(s.tcbs, WithTask(s.tcbs, k, Worker(target, letter)));
    ghost var tcbs0 := s.tcbs;
    s.tcbs := WithTask(s.tcbs, k, Worker(target, letter));
    AddressedKept(s.packets, tcbs0, s.tcbs, s.blocks);
  }

  /** WorkerTask.run: the worker fills each packet with the next letters and sends it to the handlers in turn. */
  method WorkerRun(s: Scheduler, packet: Packet?) returns (r: int)
    requires s.Sound(OnItsWay(packet)) && Running(s) && Takes(s.tcbs, s.blocks, s.currentId)
    requires s.tcbs[s.currentTcb].task.Worker? && Connected(s.tcbs, s.blocks)
    modifies s`tcbs, s`lists, s`queueCount, s.packets`link, Maybe(packet)`id, Maybe(packet)`a1, Maybe(packet)`a2
    ensures s.Sound(multiset{}) && SameTasks(old(s.tcbs), s.tcbs) && Quiet(s.tcbs, r)
    ensures var k, t := s.currentTcb, old(s.tcbs[s.currentTcb].task);
      if packet == null then
        s.tcbs == Marked(old(s.tcbs), k, STATE_SUSPENDED) && s.lists == old(s.lists) && r == k
      else
        && packet.a1 == 0 && |packet.a2| == DATA_SIZE
          && (forall i :: 0 <= i < DATA_SIZE ==> packet.a2[i] == LetterAfter(t.letter, i + 1))
        && packet.id == s.currentId && Other(t.target) in s.blocks
        && Handed(WithTask(old(s.tcbs), k, Worker(Other(t.target), LetterAfter(t.letter, DATA_SIZE))), old(s.lists),
          s.tcbs, s.lists, s.blocks[Other(t.target)], packet, k, r)
  {
    hide AllConsistent, Indexed, Quiet, SameTasks, Rising, Addressed, Counted, Conserved, Links, AllHold, Handed,
      LetterAfter;
    ghost var tcbs0 := s.tcbs;
    if packet == null {
      r := s.SuspendCurrent();
    } else {
      Fill(s, packet);
      ghost var tcbs1 := s.tcbs;
      TakesStill(tcbs0, tcbs1, s.blocks, s.currentId);
      r := Send(s, packet);
      SameTasksTwice(tcbs0, tcbs1, s.tcbs);
    }
  }

  // ----- handlers --------------------------------------------------------------------------------------------------

  /** What a handler has once it has put a packet with the others. */
  ghost function InHand(l: Lists, packet: Packet?): (r: Lists) {
    if packet == null then l
    else if packet.kind == KIND_WORK then l.(first := l.first + [packet])
    else l.(second := l.second + [packet])
  }

  lemma HandLinked(tcbs: seq<Tcb>, ls: seq<Lists>, links: Fields, packets: set<Packet>, k: nat, p: Packet)
    requires AllHold(tcbs, ls, links) && Conserved(ls, multiset{p}, packets) && k < |tcbs| && tcbs[k].task.Handler?
    ensures |ls| == |tcbs| && p in packets
    ensures var s := ls[k].first;
      Chain(links, tcbs[k].task.works, s) && Distinct(s) && p !in s && forall x :: x in s ==> x in packets
    ensures var s := ls[k].second;
      Chain(links, tcbs[k].task.devices, s) && Distinct(s) && p !in s && forall x :: x in s ==> x in packets
  {
    hide Conserved;
    ListsDistinct(ls, multiset{p}, packets, k);
    OnTheWay(ls, multiset{p}, packets, p);
    assert TaskHolds(tcbs[k], ls[k], links);
    forall x | x in ls[k].first || x in ls[k].second ensures x in ls[k].All() {
    }
  }

  method TakeInHand(s: Scheduler, p: Packet)
    requires s.Sound(multiset{p}) && s.AtWork() && s.tcbs[s.currentTcb].task.Handler?
    modifies s`tcbs, s`lists, s.packets`link
    ensures s.Sound(multiset{}) && s.AtWork() && SameTasks(old(s.tcbs), s.tcbs) && s.tcbs[s.currentTcb].task.Handler?
    ensures s.tcbs == WithTask(old(s.tcbs), s.currentTcb, s.tcbs[s.currentTcb].task)
    ensures s.lists == old(s.lists)[s.currentTcb := InHand(old(s.lists[s.currentTcb]), p)]
  {
    hide AllConsistent, Indexed, Quiet, SameTasks, Rising, Addressed, Counted, Conserved, Links, AllHold, Chain,
      Distinct;
    var k := s.currentTcb;
    var t := s.tcbs[k].task;
    ghost var links0 := Links(s.packets);
    HandLinked(s.tcbs, s.lists, links0, s.packets, k, p);
    if p.kind == KIND_WORK {
      var head := AddTo(p, t.works, s.lists[k].first, s.packets);
      HandlerTakes(s.tcbs, s.lists, links0, Links(s.packets), s.packets, k, p, head, true);
      t := t.(works := head);
    } else {
      var head := AddTo(p, t.devices, s.lists[k].second, s.packets);
      HandlerTakes(s.tcbs, s.lists, links0, Links(s.packets), s.packets, k, p, head, false);
      t := t.(devices := head);
    }
    TaskChanged(s.tcbs, s.blocks, k, t);
    SameTasksRising(s.tcbs, WithTask(s.tcbs, k, t));
    ghost var tcbs0 := s.tcbs;
    s.tcbs := WithTask(s.tcbs, k, t);
    s.lists := s.lists[k := InHand(s.lists[k], p)];
    AddressedKept(s.packets, tcbs0, s.tcbs, s.blocks);
  }

  /** The first work packet, or the first device packet, leaves the hand. */
  method Give(s: Scheduler, work: bool) returns (v: Packet)
    requires s.Sound(multiset{}) && s.AtWork() && s.tcbs[s.currentTcb].task.Handler?
    requires (if work then s.tcbs[s.currentTcb].task.works else s.tcbs[s.currentTcb].task.devices) != null
    modifies s`tcbs, s`lists
    ensures s.Sound(multiset{v}) && s.AtWork() && SameTasks(old(s.tcbs), s.tcbs) && s.tcbs[s.currentTcb].task.Handler?
    ensures s.tcbs == WithTask(old(s.tcbs), s.currentTcb, s.tcbs[s.currentTcb].task)
    ensures v == if work then old(s.tcbs[s.currentTcb].task.works) else old(s.tcbs[s.currentTcb].task.devices)
    ensures var l := old(s.lists[s.currentTcb]);
      && (if work then l.first else l.second) != [] && v == (if work then l.first else l.second)[0]
      && s.lists == old(s.lists)[s.currentTcb := Without(l, work)]
  {
    hide AllConsistent, Indexed, Quiet, SameTasks, Rising, Addressed, Counted, Conserved, Links, Chain, TaskHolds;
    var k := s.currentTcb;
    var t := s.tcbs[k].task;
    v := if work then t.works else t.devices;
    HandlerGives(s.tcbs, s.lists, Links(s.packets), s.packets, k, work);
    HandHeads(s.tcbs, s.lists, Links(s.packets), k);
    InPackets(s.lists[k := Without(s.lists[k], work)], s.packets, v);
    LinkAt(s.packets, v);
    t := if work then t.(works := v.link) else t.(devices := v.link);
    TaskChanged(s.tcbs, s.blocks, k, t);
    SameTasksRising(s.tcbs, WithTask(s.tcbs, k, t));
    ghost var tcbs0 := s.tcbs;
    s.lists := s.lists[k := Without(s.lists[k], work)];
    s.tcbs := WithTask(s.tcbs, k, t);
    AddressedKept(s.packets, tcbs0, s.tcbs, s.blocks);
  }

  ghost function Without(l: Lists, work: bool): (r: Lists)
    requires (if work then l.first else l.second) != []
  {
    if work then l.(first := l.first[1..]) else l.(second := l.second[1..])
  }

  lemma HandHeads(tcbs: seq<Tcb>, ls: seq<Lists>, links: Fields, k: nat)
    requires AllHold(tcbs, ls, links) && k < |tcbs| && tcbs[k].task.Handler?
    ensures tcbs[k].task.works == First(ls[k].first) && tcbs[k].task.devices == First(ls[k].second)
  {
    assert TaskHolds(tcbs[k], ls[k], links);
  }

  ghost function Heads(l: Lists): (r: set<Packet>) {
    Maybe(First(l.first)) + Maybe(First(l.second))
  }

  lemma HeadsKnown(tcbs: seq<Tcb>, ls: seq<Lists>, links: Fields, packets: set<Packet>, k: nat)
    requires AllHold(tcbs, ls, links) && Conserved(ls, multiset{}, packets) && k < |tcbs| && tcbs[k].task.Handler?
    ensures ls[k].first != [] ==> ls[k].first[0] in packets && ls[k].first[0].kind == KIND_WORK
    ensures ls[k].second != [] ==> ls[k].second[0] in packets && ls[k].second[0].kind != KIND_WORK
  {
    hide Conserved, Chain;
    ListsDistinct(ls, multiset{}, packets, k);
    assert TaskHolds(tcbs[k], ls[k], links);
    forall x | x in ls[k].first || x in ls[k].second ensures x in ls[k].All() {
    }
  }

  /** The next datum goes from a work packet to a device packet. */
  method PassDatum(w: Packet, v: Packet, ghost packets: set<Packet>)
    requires Counted(packets) && w in packets && v in packets && w.kind == KIND_WORK && v.kind != KIND_WORK
      && w.a1 < DATA_SIZE
    modifies w`a1, v`a1
    ensures Counted(packets) && 0 <= old(w.a1) < |w.a2| && v.a1 == w.a2[old(w.a1)] && w.a1 == old(w.a1) + 1
  {
    var count := w.a1;
    v.a1 := w.a2[count];
    w.a1 := count + 1;
  }

  /** The packet that leaves a handler's hand. */
  ghost function Leaving(l: Lists, move: int): (v: Packet)
    requires (move == 1 ==> l.second != []) && (move == 2 ==> l.first != []) && move in {1, 2}
  {
    if move == 1 then l.second[0] else l.first[0]
  }

  /** A handler with l in hand made this move: it waits, or a packet went from its hand to the task with this identity.
      */
  ghost predicate Served(tcbs: seq<Tcb>, lists: seq<Lists>, tcbs': seq<Tcb>, lists': seq<Lists>, blocks: map<int, nat>,
    k: nat, move: int, id: int, r: int) {
    && |lists| == |tcbs| == |tcbs'| && k < |tcbs|
    && if move == 0 then
        r == k && lists' == lists && tcbs' == Marked(WithTask(tcbs, k, tcbs'[k].task), k, STATE_SUSPENDED)
      else
        && move in {1, 2} && (if move == 2 then lists[k].first else lists[k].second) != [] && id in blocks
        && Handed(WithTask(tcbs, k, tcbs'[k].task), lists[k := Without(lists[k], move == 2)], tcbs', lists', blocks[id],
          Leaving(lists[k], move), k, r)
  }

  lemma ServedBefore(tcbs: seq<Tcb>, tcbs1: seq<Tcb>, lists: seq<Lists>, tcbs': seq<Tcb>, lists': seq<Lists>,
    blocks: map<int, nat>, k: nat, move: int, id: int, r: int)
    requires k < |tcbs| == |tcbs1| && tcbs1 == WithTask(tcbs, k, tcbs1[k].task)
      && Served(tcbs1, lists, tcbs', lists', blocks, k, move, id, r)
    ensures Served(tcbs, lists, tcbs', lists', blocks, k, move, id, r)
  {
    hide Handed;
    assert WithTask(tcbs1, k, tcbs'[k].task) == WithTask(tcbs, k, tcbs'[k].task);
  }

  /** A packet leaves the hand and goes to the task it names. */
  method GiveAndSend(s: Scheduler, work: bool) returns (r: int)
    requires s.Sound(multiset{}) && s.AtWork() && Takes(s.tcbs, s.blocks, s.currentId)
      && s.tcbs[s.currentTcb].task.Handler?
    requires (if work then s.tcbs[s.currentTcb].task.works else s.tcbs[s.currentTcb].task.devices) != null
    modifies s`tcbs, s`lists, s`queueCount, s.packets`link
    modifies Maybe(if work then s.tcbs[s.currentTcb].task.works else s.tcbs[s.currentTcb].task.devices)`id
    ensures s.Sound(multiset{}) && SameTasks(old(s.tcbs), s.tcbs) && Quiet(s.tcbs, r)
    ensures var l := old(s.lists[s.currentTcb]); (if work then l.first else l.second) != []
    ensures var v := Leaving(old(s.lists[s.currentTcb]), if work then 2 else 1);
      && v == old(if work then s.tcbs[s.currentTcb].task.works else s.tcbs[s.currentTcb].task.devices)
        && v.id == s.currentId
      && Served(old(s.tcbs), old(s.lists), s.tcbs, s.lists, s.blocks, s.currentTcb, if work then 2 else 1, old(v.id), r)
    ensures s.currentTcb < |s.tcbs| && s.tcbs[s.currentTcb].task.Handler?
  {
    hide AllConsistent, Indexed, Quiet, SameTasks, Rising, Addressed, Counted, Conserved, Links, TaskHolds, Handed,
      Served;
    ghost var tcbs0, lists0 := s.tcbs, s.lists;
    var v := Give(s, work);
    ghost var tcbs1, id := s.tcbs, v.id;
    TakesStill(tcbs0, tcbs1, s.blocks, s.currentId);
    r := Send(s, v);
    SameTasksTwice(tcbs0, tcbs1, s.tcbs);
    NowServed(tcbs0, tcbs1, lists0, s.tcbs, s.lists, s.blocks, s.currentTcb, work, id, r);
  }

  lemma NowServed(tcbs: seq<Tcb>, tcbs1: seq<Tcb>, lists: seq<Lists>, tcbs': seq<Tcb>, lists': seq<Lists>,
    blocks: map<int, nat>, k: nat, work: bool, id: int, r: int)
    requires |lists| == |tcbs| == |tcbs1| && k < |tcbs| && tcbs1 == WithTask(tcbs, k, tcbs1[k].task) && id in blocks
    requires (if work then lists[k].first else lists[k].second) != []
    requires Handed(tcbs1, lists[k := Without(lists[k], work)], tcbs', lists', blocks[id],
                    Leaving(lists[k], if work then 2 else 1), k, r)
    ensures |tcbs'| == |tcbs| && tcbs'[k].task == tcbs1[k].task
    ensures Served(tcbs, lists, tcbs', lists', blocks, k, if work then 2 else 1, id, r)
  {
    assert tcbs'[k].task == tcbs1[k].task;
  }

  /** What a handler with l in hand does next: it waits (0), passes a datum on with a device packet (1), or returns a
      finished work packet (2). */
  ghost function Move(l: Lists): (m: int)
    reads Maybe(First(l.first))`a1
    ensures m in {0, 1, 2}
    ensures m == 2 <==> l.first != [] && l.first[0].a1 >= DATA_SIZE
    ensures m == 1 <==> l.first != [] && l.first[0].a1 < DATA_SIZE && l.second != []
  {
    if l.first == [] then 0 else if l.first[0].a1 >= DATA_SIZE then 2 else if l.second != [] then 1 else 0
  }

  method HandlerServe(s: Scheduler) returns (r: int)
    requires s.Sound(multiset{}) && s.AtWork() && Takes(s.tcbs, s.blocks, s.currentId)
    requires s.tcbs[s.currentTcb].task.Handler?
    modifies s`tcbs, s`lists, s`queueCount, s.packets`link
    modifies Heads(s.lists[s.currentTcb])`id, Heads(s.lists[s.currentTcb])`a1
    ensures s.Sound(multiset{}) && SameTasks(old(s.tcbs), s.tcbs) && Quiet(s.tcbs, r)
    ensures var l := old(s.lists[s.currentTcb]); var move := old(Move(l));
      && Served(old(s.tcbs), old(s.lists), s.tcbs, s.lists, s.blocks, s.currentTcb, move, if move == 0 then 0
        else old(Leaving(l, move).id), r)
      && (move == 1 ==> DatumPassed(l.first[0], l.second[0], old(l.first[0].a1)) && l.first[0].a1 == old(l.first[0].a1) + 1)
      && (move != 0 ==> Leaving(l, move).id == s.currentId)
      && (forall p :: p in s.packets && (move != 0 ==> p != Leaving(l, move)) ==> p.id == old(p.id))
      && (move != 1 ==> forall p :: p in s.packets ==> p.a1 == old(p.a1))
    ensures s.currentTcb < |s.tcbs| && s.tcbs[s.currentTcb].task.Handler?
  {
    hide AllConsistent, Indexed, Quiet, SameTasks, Rising, Addressed, Counted, Conserved, Links, TaskHolds, Handed,
      Served;
    var k := s.currentTcb;
    var t := s.tcbs[k].task;
    HandHeads(s.tcbs, s.lists, Links(s.packets), k);
    HeadsKnown(s.tcbs, s.lists, Links(s.packets), s.packets, k);
    if t.works != null {
      var count := t.works.a1;
      if count < DATA_SIZE {
        if t.devices != null {
          PassDatum(t.works, t.devices, s.packets);
          r := GiveAndSend(s, false);
          return;
        }
      } else {
        r := GiveAndSend(s, true);
        return;
      }
    }
    r := s.SuspendCurrent();
    NowWaits(old(s.tcbs), s.tcbs, s.lists, s.blocks, k, r);
  }

  ghost predicate DatumPassed(w: Packet, v: Packet, count: int)
    reads v`a1, w`a2
  {
    0 <= count < |w.a2| && v.a1 == w.a2[count]
  }

  lemma NowWaits(tcbs: seq<Tcb>, tcbs': seq<Tcb>, lists: seq<Lists>, blocks: map<int, nat>, k: nat, r: int)
    requires |lists| == |tcbs| && k < |tcbs| && r == k && tcbs' == Marked(tcbs, k, STATE_SUSPENDED)
    ensures forall id :: Served(tcbs, lists, tcbs', lists, blocks, k, 0, id, r)
  {
    assert WithTask(tcbs, k, tcbs'[k].task) == tcbs;
  }

  /** HandlerTask.run: the packet goes to the others in hand, and then the handler makes its move. */
  method HandlerRun(s: Scheduler, packet: Packet?) returns (r: int)
    requires s.Sound(OnItsWay(packet)) && Running(s) && Takes(s.tcbs, s.blocks, s.currentId)
    requires s.tcbs[s.currentTcb].task.Handler?
    modifies s`tcbs, s`lists, s`queueCount, s.packets`link
    modifies Heads(InHand(s.lists[s.currentTcb], packet))`id, Heads(InHand(s.lists[s.currentTcb], packet))`a1
    ensures s.Sound(multiset{}) && SameTasks(old(s.tcbs), s.tcbs) && Quiet(s.tcbs, r)
    ensures var k, l := s.currentTcb, InHand(old(s.lists[s.currentTcb]), packet); var move := old(Move(l));
      && Served(old(s.tcbs), old(s.lists)[k := l], s.tcbs, s.lists, s.blocks, k, move, if move == 0 then 0
        else old(Leaving(l, move).id), r)
      && (move == 1 ==> DatumPassed(l.first[0], l.second[0], old(l.first[0].a1)) && l.first[0].a1 == old(l.first[0].a1) + 1)
      && (move != 0 ==> Leaving(l, move).id == s.currentId)
      && (forall p :: p in s.packets && (move != 0 ==> p != Leaving(l, move)) ==> p.id == old(p.id))
      && (move != 1 ==> forall p :: p in s.packets ==> p.a1 == old(p.a1))
    ensures s.currentTcb < |s.tcbs| && s.tcbs[s.currentTcb].task.Handler?
  {
    hide AllConsistent, Indexed, Quiet, SameTasks, Rising, Addressed, Counted, Conserved, Links, TaskHolds, Handed,
      Served;
    ghost var tcbs0, k := s.tcbs, s.currentTcb;
    if packet != null {
      TakeInHand(s, packet);
      TakesStill(tcbs0, s.tcbs, s.blocks, s.currentId);
    } else {
      SameTasksSelf(s.tcbs);
      assert s.lists[k := s.lists[k]] == s.lists && WithTask(s.tcbs, k, s.tcbs[k].task) == s.tcbs;
    }
    ghost var tcbs1, lists1 := s.tcbs, s.lists;
    r := HandlerServe(s);
    ghost var l := lists1[k];
    ServedBefore(tcbs0, tcbs1, lists1, s.tcbs, s.lists, s.blocks, k, old(Move(l)), if old(Move(l)) == 0 then 0
      else old(Leaving(l, Move(l)).id), r);
    SameTasksTwice(tcbs0, tcbs1, s.tcbs);
  }
}
