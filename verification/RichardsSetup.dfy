/** Setting up a scheduler: a task is added with packets that no other task has, and the tasks of the
    benchmark are added in the order of their priorities. What is set up is what the scheduler's runs
    ask for. */
module RichardsSetup {
  import opened RichardsPackets
  import opened RichardsTasks
  import opened RichardsMoves
  import opened RichardsScheduler
  import opened RichardsRuns
  import opened RichardsEnding
  import opened RichardsSchedule

  const COUNT := 1000

  ghost function SetOf(s: seq<Packet>): (r: set<Packet>) {
    set p | p in s
  }

  /** A task as it is made, with nothing in hand. */
  predicate IsNew(task: Task, queue: Packet?) {
    match task
    case Idle(_, _) => queue == null
    case Worker(_, _) => true
    case Handler(works, devices) => works == null && devices == null
    case Device(slot) => slot == null
  }

  function NewTcb(id: int, priority: int, queue: Packet?, task: Task): (t: Tcb) {
    Tcb(id, priority, if queue == null then STATE_SUSPENDED else STATE_SUSPENDED_RUNNABLE, queue, task)
  }

  lemma SetOfTwice(s: seq<Packet>)
    requires Distinct(s)
    ensures multiset(SetOf(s)) == multiset(s)
  {
    if s == [] {
    } else {
      var n := |s| - 1;
      assert s == s[..n] + [s[n]];
      SetOfTwice(s[..n]);
      assert SetOf(s) == SetOf(s[..n]) + {s[n]};
      assert s[n] !in SetOf(s[..n]);
    }
  }

  lemma TotalMore(ls: seq<Lists>, l: Lists)
    ensures Total(ls + [l]) == Total(ls) + l.All()
  {
    assert (ls + [l])[..|ls|] == ls;
  }

  lemma ConservedMore(ls: seq<Lists>, packets: set<Packet>, s: seq<Packet>)
    requires Conserved(ls, multiset{}, packets) && Distinct(s) && SetOf(s) !! packets
    ensures Conserved(ls + [Lists(s, [], [])], multiset{}, packets + SetOf(s))
  {
    hide SetOf;
    TotalMore(ls, Lists(s, [], []));
    SetOfTwice(s);
    assert multiset(packets + SetOf(s)) == multiset(packets) + multiset(SetOf(s));
  }

  lemma AllHoldMore(tcbs: seq<Tcb>, ls: seq<Lists>, links: Fields, links': Fields, t: Tcb, s: seq<Packet>)
    requires AllHold(tcbs, ls, links) && (forall p :: p in links ==> p in links' && links'[p] == links[p])
    requires Chain(links', t.queue, s) && IsNew(t.task, t.queue)
    ensures AllHold(tcbs + [t], ls + [Lists(s, [], [])], links')
  {
    hide Chain;
    NoneChained(links');
    forall k | 0 <= k < |tcbs| ensures TaskHolds(tcbs[k], ls[k], links') {
      HoldsKept(tcbs[k], ls[k], links, links', multiset{});
    }
  }

  lemma NoneChained(links: Fields)
    ensures Chain(links, null, [])
  {
  }

  lemma IndexedMore(tcbs: seq<Tcb>, blocks: map<int, nat>, t: Tcb)
    requires AllConsistent(tcbs) && Indexed(tcbs, blocks) && t.Consistent() && t.id !in blocks
    ensures AllConsistent(tcbs + [t]) && Indexed(tcbs + [t], blocks[t.id := |tcbs|])
  {
  }

  /** A list of packets, starting with queue. */
  ghost predicate IsQueue(queue: Packet?, ps: seq<Packet>)
    reads ps
  {
    Distinct(ps) && Chain(Links(SetOf(ps)), queue, ps)
  }

  /** Scheduler.addTask, for a task whose identity is new and whose packets s no other task has. */
  method AddTask(s: Scheduler, id: int, priority: int, queue: Packet?, task: Task, ghost ps: seq<Packet>)
    requires Tables(s.tcbs, s.blocks, s.lists, Links(s.packets), s.packets, multiset{}) && id !in s.blocks
    requires IsQueue(queue, ps) && SetOf(ps) !! s.packets && IsNew(task, queue)
    modifies s
    ensures Tables(s.tcbs, s.blocks, s.lists, Links(s.packets), s.packets, multiset{})
    ensures s.tcbs == old(s.tcbs) + [NewTcb(id, priority, queue, task)] && s.lists == old(s.lists) + [Lists(ps, [], [])]
    ensures s.packets == old(s.packets) + SetOf(ps) && s.blocks == old(s.blocks)[id := |old(s.tcbs)|]
    ensures s.currentTcb == |old(s.tcbs)| && s.queueCount == old(s.queueCount) && s.holdCount == old(s.holdCount)
  {
    hide Distinct, Conserved, Chain, AllHold, AllConsistent, Indexed;
    var tcb := NewTcb(id, priority, queue, task);
    ghost var links, links' := Links(s.packets), Links(s.packets + SetOf(ps));
    ConservedMore(s.lists, s.packets, ps);
    LinkedMore(Links(SetOf(ps)), links', queue, ps);
    AllHoldMore(s.tcbs, s.lists, links, links', tcb, ps);
    NewConsistent(tcb);
    IndexedMore(s.tcbs, s.blocks, tcb);
    s.blocks := s.blocks[id := |s.tcbs|];
    s.currentTcb := |s.tcbs|;
    s.tcbs, s.lists := s.tcbs + [tcb], s.lists + [Lists(ps, [], [])];
    s.packets := s.packets + SetOf(ps);
  }

  lemma LinkedMore(links: Fields, links': Fields, head: Packet?, s: seq<Packet>)
    requires Chain(links, head, s) && forall p :: p in links ==> p in links' && links'[p] == links[p]
    ensures Chain(links', head, s)
  {
    ChainKept(links, links', head, s);
  }

  lemma NewConsistent(t: Tcb)
    requires t == NewTcb(t.id, t.priority, t.queue, t.task) && IsNew(t.task, t.queue)
    ensures t.Consistent()
  {
  }

  /** Marking a task as running keeps its record consistent exactly when it has no packets. */
  lemma RunningConsistent(t: Tcb)
    requires t.Consistent()
    ensures t.(state := STATE_RUNNING).Consistent() <==> t.queue == null
  {
  }

  /** Scheduler.addIdleTask: the idle task runs at once. */
  method AddIdleTask(s: Scheduler, id: int, priority: int, count: int)
    requires Tables(s.tcbs, s.blocks, s.lists, Links(s.packets), s.packets, multiset{}) && id !in s.blocks
    modifies s
    ensures Tables(s.tcbs, s.blocks, s.lists, Links(s.packets), s.packets, multiset{})
    ensures s.tcbs == old(s.tcbs) + [Tcb(id, priority, STATE_RUNNING, null, Idle(1, count))]
      && s.lists == old(s.lists) + [Lists([], [], [])]
    ensures s.packets == old(s.packets) && s.blocks == old(s.blocks)[id := |old(s.tcbs)|]
    ensures s.queueCount == old(s.queueCount) && s.holdCount == old(s.holdCount)
  {
    hide Distinct, Conserved, Chain, AllHold, AllConsistent, Indexed;
    NoneChained(Links({}));
    NoneDistinct();
    AddTask(s, id, priority, null, Idle(1, count), []);
    RunningKeeps(s.tcbs, s.blocks, s.lists, Links(s.packets), s.currentTcb);
    s.tcbs := s.tcbs[s.currentTcb := s.tcbs[s.currentTcb].(state := STATE_RUNNING)];
  }

  lemma NoneDistinct()
    ensures Distinct([]) && SetOf([]) == {}
  {
  }

  lemma RunningKeeps(tcbs: seq<Tcb>, blocks: map<int, nat>, lists: seq<Lists>, links: Fields, k: nat)
    requires AllHold(tcbs, lists, links) && AllConsistent(tcbs) && Indexed(tcbs, blocks) && k < |tcbs|
      && tcbs[k].queue == null
    ensures var tcbs' := tcbs[k := tcbs[k].(state := STATE_RUNNING)];
      AllHold(tcbs', lists, links) && AllConsistent(tcbs') && Indexed(tcbs', blocks)
  {
    hide AllHold, Indexed;
    assert tcbs[k].Consistent();
    StateKeeps(tcbs, blocks, lists, links, k, STATE_RUNNING);
  }

  // ----- the benchmark ---------------------------------------------------------------------------------------------

  /** Packets as they are made, for one task. */
  ghost predicate Made(ps: seq<Packet>, id: int, kind: int)
    reads ps
  {
    forall p :: p in ps ==> p.id == id && p.kind == kind && p.a1 == 0 && |p.a2| == DATA_SIZE
  }

  lemma NoQueue()
    ensures IsQueue(null, []) && SetOf([]) == {} && forall id, kind :: Made([], id, kind)
  {
    NoneChained(Links({}));
  }

  lemma Longer(links: Fields, links': Fields, queue: Packet?, ps: seq<Packet>, p: Packet)
    requires Distinct(ps) && Chain(links, queue, ps) && p !in ps && p in links' && links'[p] == queue
    requires forall q :: q in links ==> q in links' && links'[q] == links[q]
    ensures Distinct([p] + ps) && Chain(links', p, [p] + ps)
  {
    var s := [p] + ps;
    assert s[1..] == ps;
    forall i | 0 <= i < |s| ensures Linked(links', s, i) {
      if i > 0 {
        assert Linked(links, ps, i - 1) && s[i + 1..] == ps[i..];
      }
    }
  }

  /** One more packet, in front of a queue. */
  method Prepend(queue: Packet?, id: int, kind: int, ghost ps: seq<Packet>) returns (p: Packet)
    requires IsQueue(queue, ps) && Made(ps, id, kind)
    ensures fresh(p) && IsQueue(p, [p] + ps) && Made([p] + ps, id, kind)
  {
    hide Distinct, Chain;
    p := new Packet(queue, id, kind);
    Longer(Links(SetOf(ps)), Links(SetOf([p] + ps)), queue, ps, p);
  }

  method WorkerPackets() returns (queue: Packet, ghost ps: seq<Packet>)
    ensures IsQueue(queue, ps) && Made(ps, ID_WORKER, KIND_WORK) && |ps| == 2 && fresh(SetOf(ps))
  {
    hide IsQueue, Made;
    NoQueue();
    queue := Prepend(null, ID_WORKER, KIND_WORK, []);
    ps := [queue] + [];
    queue := Prepend(queue, ID_WORKER, KIND_WORK, ps);
    ps := [queue] + ps;
  }

  method DevicePackets(id: int) returns (queue: Packet, ghost ps: seq<Packet>)
    ensures IsQueue(queue, ps) && Made(ps, id, KIND_DEVICE) && |ps| == 3 && fresh(SetOf(ps))
  {
    hide IsQueue, Made;
    NoQueue();
    queue := Prepend(null, id, KIND_DEVICE, []);
    ps := [queue] + [];
    queue := Prepend(queue, id, KIND_DEVICE, ps);
    ps := [queue] + ps;
    queue := Prepend(queue, id, KIND_DEVICE, ps);
    ps := [queue] + ps;
  }

  method AddWorkerTask(s: Scheduler) returns (queue: Packet, ghost w: seq<Packet>)
    requires Tables(s.tcbs, s.blocks, s.lists, Links(s.packets), s.packets, multiset{}) && ID_WORKER !in s.blocks
    modifies s
    ensures Tables(s.tcbs, s.blocks, s.lists, Links(s.packets), s.packets, multiset{})
    ensures s.tcbs == old(s.tcbs) + [NewTcb(ID_WORKER, 1000, queue, Worker(ID_HANDLER_A, 0))]
      && s.blocks == old(s.blocks)[ID_WORKER := |old(s.tcbs)|] && s.lists == old(s.lists) + [Lists(w, [], [])]
    ensures s.packets == old(s.packets) + SetOf(w) && Made(w, ID_WORKER, KIND_WORK) && fresh(SetOf(w))
  {
    hide Tables, Made, SetOf, IsQueue, Distinct;
    queue, w := WorkerPackets();
    AddTask(s, ID_WORKER, 1000, queue, Worker(ID_HANDLER_A, 0), w);
  }

  method AddHandlerTask(s: Scheduler, id: int, priority: int, device: int) returns (queue: Packet, ghost w: seq<Packet>)
    requires Tables(s.tcbs, s.blocks, s.lists, Links(s.packets), s.packets, multiset{}) && id !in s.blocks
    modifies s
    ensures Tables(s.tcbs, s.blocks, s.lists, Links(s.packets), s.packets, multiset{})
    ensures s.tcbs == old(s.tcbs) + [NewTcb(id, priority, queue, Handler(null, null))]
      && s.blocks == old(s.blocks)[id := |old(s.tcbs)|] && s.lists == old(s.lists) + [Lists(w, [], [])]
    ensures s.packets == old(s.packets) + SetOf(w) && Made(w, device, KIND_DEVICE) && fresh(SetOf(w))
  {
    hide Tables, Made, SetOf, IsQueue, Distinct;
    queue, w := DevicePackets(device);
    AddTask(s, id, priority, queue, Handler(null, null), w);
  }

  method AddDeviceTasks(s: Scheduler)
    requires Tables(s.tcbs, s.blocks, s.lists, Links(s.packets), s.packets, multiset{}) && ID_DEVICE_A !in s.blocks
      && ID_DEVICE_B !in s.blocks
    modifies s
    ensures Tables(s.tcbs, s.blocks, s.lists, Links(s.packets), s.packets, multiset{})
    ensures s.tcbs == old(s.tcbs) +
              [NewTcb(ID_DEVICE_A, 4000, null, Device(null)), NewTcb(ID_DEVICE_B, 5000, null, Device(null))]
    ensures s.blocks == old(s.blocks)[ID_DEVICE_A := |old(s.tcbs)|][ID_DEVICE_B := |old(s.tcbs)| + 1]
      && s.packets == old(s.packets)
    ensures s.lists == old(s.lists) + [Lists([], [], [])] + [Lists([], [], [])]
  {
    hide Tables, Made, SetOf, IsQueue, Distinct;
    NoQueue();
    AddTask(s, ID_DEVICE_A, 4000, null, Device(null), []);
    AddTask(s, ID_DEVICE_B, 5000, null, Device(null), []);
  }

  method StartScheduler() returns (s: Scheduler)
    ensures fresh(s) && s.packets == {} && Tables(s.tcbs, s.blocks, s.lists, Links(s.packets), s.packets, multiset{})
    ensures s.tcbs == [] + [Tcb(ID_IDLE, 0, STATE_RUNNING, null, Idle(1, COUNT))] && s.blocks == map[][ID_IDLE := 0]
    ensures s.lists == [] + [Lists([], [], [])]
  {
    hide Tables;
    s := new Scheduler();
    assert Tables(s.tcbs, s.blocks, s.lists, Links(s.packets), s.packets, multiset{});
    AddIdleTask(s, ID_IDLE, 0, COUNT);
  }

  /** The tasks that start with something to do. */
  method StartTasks() returns (s: Scheduler, q1: Packet, q2: Packet, q3: Packet, ghost w: seq<Packet>,
    ghost a: seq<Packet>, ghost b: seq<Packet>)
    ensures fresh(s) && fresh(s.packets) && s.packets == SetOf(w) + SetOf(a) + SetOf(b)
    ensures Tables(s.tcbs, s.blocks, s.lists, Links(s.packets), s.packets, multiset{})
    ensures Made(w, ID_WORKER, KIND_WORK) && Made(a, ID_DEVICE_A, KIND_DEVICE) && Made(b, ID_DEVICE_B, KIND_DEVICE)
    ensures s.tcbs == [] + [Tcb(ID_IDLE, 0, STATE_RUNNING, null, Idle(1, COUNT))]
              + [NewTcb(ID_WORKER, 1000, q1, Worker(ID_HANDLER_A, 0))]
              + [NewTcb(ID_HANDLER_A, 2000, q2, Handler(null, null))]
              + [NewTcb(ID_HANDLER_B, 3000, q3, Handler(null, null))]
    ensures s.blocks == map[][ID_IDLE := 0][ID_WORKER := 1][ID_HANDLER_A := 2][ID_HANDLER_B := 3]
    ensures s.lists == [] + [Lists([], [], [])] + [Lists(w, [], [])] + [Lists(a, [], [])] + [Lists(b, [], [])]
  {
    hide Tables, Made, SetOf, IsQueue, Distinct, NewTcb, Links;
    s := StartScheduler();
    q1, w := AddWorkerTask(s);
    q2, a := AddHandlerTask(s, ID_HANDLER_A, 2000, ID_DEVICE_A);
    q3, b := AddHandlerTask(s, ID_HANDLER_B, 3000, ID_DEVICE_B);
  }

  /** The six tasks of the benchmark, with two packets for the worker and three for each handler. */
  method SetUp() returns (s: Scheduler, ghost w: seq<Packet>, ghost a: seq<Packet>, ghost b: seq<Packet>)
    ensures fresh(s) && fresh(s.packets) && s.packets == SetOf(w) + SetOf(a) + SetOf(b)
    ensures Tables(s.tcbs, s.blocks, s.lists, Links(s.packets), s.packets, multiset{})
    ensures Made(w, ID_WORKER, KIND_WORK) && Made(a, ID_DEVICE_A, KIND_DEVICE) && Made(b, ID_DEVICE_B, KIND_DEVICE)
    ensures Benchmark(s.tcbs, s.blocks) && StartLists(s.lists, w, a, b)
  {
    hide Tables, Made, SetOf, IsQueue, Distinct, Benchmark, NewTcb, Links;
    var q1, q2, q3;
    s, q1, q2, q3, w, a, b := StartTasks();
    AddDeviceTasks(s);
    TheBenchmark(s.tcbs, s.blocks, q1, q2, q3);
  }

  lemma TheBenchmark(tcbs: seq<Tcb>, blocks: map<int, nat>, q1: Packet, q2: Packet, q3: Packet)
    requires tcbs == [] + [Tcb(ID_IDLE, 0, STATE_RUNNING, null, Idle(1, COUNT))]
               + [NewTcb(ID_WORKER, 1000, q1, Worker(ID_HANDLER_A, 0))]
               + [NewTcb(ID_HANDLER_A, 2000, q2, Handler(null, null))]
               + [NewTcb(ID_HANDLER_B, 3000, q3, Handler(null, null))]
               + [NewTcb(ID_DEVICE_A, 4000, null, Device(null)), NewTcb(ID_DEVICE_B, 5000, null, Device(null))]
    requires blocks == map[][ID_IDLE := 0][ID_WORKER := 1][ID_HANDLER_A := 2][ID_HANDLER_B := 3]
                         [ID_DEVICE_A := 4][ID_DEVICE_B := 5]
    ensures Benchmark(tcbs, blocks)
  {
  }

  /** The packets are in the queues of the worker and the handlers. */
  ghost predicate StartLists(lists: seq<Lists>, w: seq<Packet>, a: seq<Packet>, b: seq<Packet>) {
    lists == [Lists([], [], []), Lists(w, [], []), Lists(a, [], []), Lists(b, [], []),
              Lists([], [], []), Lists([], [], [])]
  }

  predicate Benchmark(tcbs: seq<Tcb>, blocks: map<int, nat>) {
    && |tcbs| == 6 && (forall id :: 0 <= id < 6 ==> id in blocks && blocks[id] == id)
    && tcbs[0].task.Idle? && tcbs[0].task.count == COUNT && tcbs[1].task.Worker?
      && tcbs[2].task.Handler? && tcbs[3].task.Handler?
      && tcbs[4].task.Device? && tcbs[5].task.Device?
    && forall k :: 0 <= k < 6 ==> tcbs[k].id == k && tcbs[k].priority == 1000 * k
  }

  lemma MadeSound(w: seq<Packet>, a: seq<Packet>, b: seq<Packet>, tcbs: seq<Tcb>, blocks: map<int, nat>)
    requires Made(w, ID_WORKER, KIND_WORK) && Made(a, ID_DEVICE_A, KIND_DEVICE) && Made(b, ID_DEVICE_B, KIND_DEVICE)
      && Benchmark(tcbs, blocks)
    ensures var packets := SetOf(w) + SetOf(a) + SetOf(b); Addressed(packets, tcbs, blocks) && Counted(packets)
    ensures Rising(tcbs) && Connected(tcbs, blocks)
  {
    assert forall id :: 0 <= id < 6 ==> id in blocks && blocks[id] == id;
    assert ID_WORKER in blocks && ID_DEVICE_A in blocks && ID_DEVICE_B in blocks && ID_HANDLER_A in blocks
      && ID_HANDLER_B in blocks;
  }

  lemma MadeWired(x: Look, w: seq<Packet>, a: seq<Packet>, b: seq<Packet>, blocks: map<int, nat>)
    requires Benchmark(x.tcbs, blocks) && StartLists(x.lists, w, a, b) && x.ids == Ids(SetOf(w) + SetOf(a) + SetOf(b))
    requires Made(w, ID_WORKER, KIND_WORK) && Made(a, ID_DEVICE_A, KIND_DEVICE) && Made(b, ID_DEVICE_B, KIND_DEVICE)
    ensures Wired(x, blocks)
  {
    hide Lists.All;
    assert ID_WORKER in blocks && ID_DEVICE_A in blocks && ID_DEVICE_B in blocks && ID_HANDLER_A in blocks
      && ID_HANDLER_B in blocks;
    forall k | 0 <= k < 6 ensures FitsAt(x, blocks, k) {
      forall p | p in x.lists[k].All() ensures p in x.ids && Fits(x.tcbs, blocks, x.tcbs[k].task, p, x.ids[p]) {
        InAll(x.lists[k], p);
      }
    }
  }

  /** runRichards: the run comes to an end. */
  method RunRichards() returns (s: Scheduler)
    ensures Going(s)
    ensures forall k :: 0 <= k < |s.tcbs| ==> !Ready(s.tcbs[k])
  {
    hide Addressed, Counted, Rising, Connected, Tables, Benchmark, Made, SetOf, Quiet, Wired, StartLists, Ids;
    ghost var w, a, b;
    s, w, a, b := SetUp();
    MadeSound(w, a, b, s.tcbs, s.blocks);
    MadeWired(Now(s), w, a, b, s.blocks);
    Schedule(s);
  }
}
