/** Why the loop of the scheduler comes to an end: every run lowers a rank. */
module RichardsEnding {
  // Each run of a task lowers the first of four numbers that it does not leave as it is: what the idle task and the
  // devices can still do before they are held, the device packets that handlers have or are to get, the work packets
  // that have to go to a handler, and the packets in queues with the tasks that are not suspended.

  import opened RichardsPackets
  import opened RichardsTasks
  import opened RichardsMoves
  import opened RichardsScheduler
  import opened RichardsRuns

  // ----- who sends packets to whom ----------------------------------------------------------------------------------

  function KindOf(t: Task): (k: int) {
    match t
    case Idle(_, _) => ID_IDLE
    case Worker(_, _) => ID_WORKER
    case Handler(_, _) => ID_HANDLER_A
    case Device(_) => ID_DEVICE_A
  }

  /** The task with this identity is of this kind. */
  ghost predicate Names(tcbs: seq<Tcb>, blocks: map<int, nat>, id: int, kind: int) {
    id in blocks && blocks[id] < |tcbs| && KindOf(tcbs[blocks[id]].task) == kind
  }

  ghost predicate SameKinds(tcbs: seq<Tcb>, tcbs': seq<Tcb>) {
    |tcbs'| == |tcbs| && forall k :: 0 <= k < |tcbs| ==> KindOf(tcbs'[k].task) == KindOf(tcbs[k].task)
  }

  /** Workers have work packets; in a handler, work packets name a worker and device packets a device; devices have
      device packets that name a handler. */
  ghost predicate Fits(tcbs: seq<Tcb>, blocks: map<int, nat>, t: Task, p: Packet, id: int) {
    match t
    case Idle(_, _) => true
    case Worker(_, _) => p.kind == KIND_WORK
    case Handler(_, _) => Names(tcbs, blocks, id, if p.kind == KIND_WORK then ID_WORKER else ID_DEVICE_A)
    case Device(_) => p.kind != KIND_WORK && Names(tcbs, blocks, id, ID_HANDLER_A)
  }

  /** What the tasks have, and the addresses and counters of the packets. */
  datatype Look = Look(tcbs: seq<Tcb>, lists: seq<Lists>, ids: map<Packet, int>, counts: map<Packet, int>)

  ghost predicate FitsAt(x: Look, blocks: map<int, nat>, k: int)
    requires 0 <= k < |x.tcbs| == |x.lists|
  {
    forall p :: p in x.lists[k].All() ==> p in x.ids && Fits(x.tcbs, blocks, x.tcbs[k].task, p, x.ids[p])
  }

  /** An idle task that is not held has counts left. */
  ghost predicate IdleCounts(tcbs: seq<Tcb>) {
    forall k :: 0 <= k < |tcbs| && tcbs[k].task.Idle? ==> IsHeld(tcbs[k].state) || tcbs[k].task.count >= 1
  }

  ghost predicate Wired(x: Look, blocks: map<int, nat>) {
    && |x.lists| == |x.tcbs|
    && Names(x.tcbs, blocks, ID_HANDLER_A, ID_HANDLER_A) && Names(x.tcbs, blocks, ID_HANDLER_B, ID_HANDLER_A)
    && Takes(x.tcbs, blocks, ID_DEVICE_A) && Takes(x.tcbs, blocks, ID_DEVICE_B)
    && IdleCounts(x.tcbs)
    && (forall k :: 0 <= k < |x.tcbs| ==> FitsAt(x, blocks, k))
  }

  ghost function Ids(packets: set<Packet>): (r: map<Packet, int>)
    reads packets`id
  {
    map p | p in packets :: p.id
  }

  ghost function Counts(packets: set<Packet>): (r: map<Packet, int>)
    reads packets`a1
  {
    map p | p in packets :: p.a1
  }

  // ----- sums -------------------------------------------------------------------------------------------------------

  ghost function Sum(s: seq<nat>): (r: nat) {
    if s == [] then 0 else Sum(s[..|s| - 1]) + s[|s| - 1]
  }

  lemma {:induction false} SumUpdate(s: seq<nat>, k: nat, v: nat)
    requires k < |s|
    ensures Sum(s[k := v]) == Sum(s) - s[k] + v
    decreases |s|
  {
    var n := |s| - 1;
    if k < n {
      assert s[k := v][..n] == s[..n][k := v];
      SumUpdate(s[..n], k, v);
    } else {
      assert s[k := v][..n] == s[..n];
    }
  }

  lemma SumOne(s: seq<nat>, s': seq<nat>, k: nat)
    requires |s| == |s'| && k < |s| && forall j :: 0 <= j < |s| && j != k ==> s'[j] == s[j]
    ensures Sum(s') == Sum(s) - s[k] + s'[k]
  {
    assert s' == s[k := s'[k]];
    SumUpdate(s, k, s'[k]);
  }

  lemma SumTwo(s: seq<nat>, s': seq<nat>, k: nat, t: nat)
    requires |s| == |s'| && k < |s| && t < |s| && k != t
    requires forall j :: 0 <= j < |s| && j != k && j != t ==> s'[j] == s[j]
    ensures Sum(s') == Sum(s) - s[k] + s'[k] - s[t] + s'[t]
  {
    var m := s[k := s'[k]];
    SumUpdate(s, k, s'[k]);
    SumOne(m, s', t);
  }

  // ----- the four numbers -------------------------------------------------------------------------------------------

  /** How many packets of s are not work. */
  ghost function Devices(s: seq<Packet>): (n: nat) {
    if s == [] then 0 else Devices(s[..|s| - 1]) + if s[|s| - 1].kind == KIND_WORK then 0 else 1
  }

  /** How many work packets of s have all their data passed on. */
  ghost function Passed(s: seq<Packet>, counts: map<Packet, int>): (n: nat) {
    if s == [] then 0 else Passed(s[..|s| - 1], counts) + if IsPassed(s[|s| - 1], counts) then 1 else 0
  }

  ghost predicate IsPassed(p: Packet, counts: map<Packet, int>) {
    p.kind == KIND_WORK && p in counts && counts[p] >= DATA_SIZE
  }

  ghost function Chances(t: Tcb): (n: nat) {
    if IsHeld(t.state) then 0
    else match t.task
      case Idle(_, count) => if count < 0 then 0 else 2 * count
      case Device(_) => 1
      case _ => 0
  }

  ghost function Returning(t: Tcb, l: Lists): (n: nat) {
    match t.task
    case Handler(_, _) => |l.second| + Devices(l.queue)
    case Device(_) => 2 * |l.first|
    case _ => 0
  }

  ghost function Working(t: Tcb, l: Lists, counts: map<Packet, int>): (n: nat) {
    match t.task
    case Worker(_, _) => |l.queue|
    case Handler(_, _) => 2 * (Passed(l.first, counts) + Passed(l.queue, counts))
    case _ => 0
  }

  ghost function Waking(t: Tcb, l: Lists): (n: nat) {
    2 * |l.queue| + if IsSuspended(t.state) then 0 else 1
  }

  ghost function AllChances(tcbs: seq<Tcb>): (s: seq<nat>)
    ensures |s| == |tcbs|
  {
    seq(|tcbs|, k requires 0 <= k < |tcbs| => Chances(tcbs[k]))
  }

  ghost function AllReturning(tcbs: seq<Tcb>, lists: seq<Lists>): (s: seq<nat>)
    requires |lists| == |tcbs|
    ensures |s| == |tcbs|
  {
    seq(|tcbs|, k requires 0 <= k < |tcbs| => Returning(tcbs[k], lists[k]))
  }

  ghost function AllWorking(tcbs: seq<Tcb>, lists: seq<Lists>, counts: map<Packet, int>): (s: seq<nat>)
    requires |lists| == |tcbs|
    ensures |s| == |tcbs|
  {
    seq(|tcbs|, k requires 0 <= k < |tcbs| => Working(tcbs[k], lists[k], counts))
  }

  ghost function AllWaking(tcbs: seq<Tcb>, lists: seq<Lists>): (s: seq<nat>)
    requires |lists| == |tcbs|
    ensures |s| == |tcbs|
  {
    seq(|tcbs|, k requires 0 <= k < |tcbs| => Waking(tcbs[k], lists[k]))
  }

  /** The four numbers. */
  datatype Rank = Rank(chances: nat, returning: nat, working: nat, waking: nat) {
    /** The first number that is not the same is lower. */
    predicate Falls(r: Rank) {
      || r.chances < chances
      || (r.chances == chances && (
          || r.returning < returning
          || (r.returning == returning && (
              || r.working < working
              || (r.working == working && r.waking < waking)))))
    }
  }

  ghost function RankOf(x: Look): (r: Rank)
    requires |x.lists| == |x.tcbs|
  {
    Rank(Sum(AllChances(x.tcbs)), Sum(AllReturning(x.tcbs, x.lists)), Sum(AllWorking(x.tcbs, x.lists, x.counts)),
         Sum(AllWaking(x.tcbs, x.lists)))
  }

  // ----- what keeps the wiring --------------------------------------------------------------------------------------

  lemma FitsStill(tcbs: seq<Tcb>, tcbs': seq<Tcb>, blocks: map<int, nat>, t: Task, t': Task, p: Packet, id: int)
    requires SameKinds(tcbs, tcbs') && KindOf(t) == KindOf(t')
    ensures Fits(tcbs, blocks, t, p, id) <==> Fits(tcbs', blocks, t', p, id)
  {
  }

  /** p was with the task at k before, with the same address, or it fits now. */
  ghost predicate Explained(x: Look, y: Look, blocks: map<int, nat>, k: int, p: Packet)
    requires 0 <= k < |x.tcbs| == |x.lists| == |y.tcbs|
  {
    p in y.ids &&
    ((p in x.lists[k].All() && p in x.ids && y.ids[p] == x.ids[p]) || Fits(y.tcbs, blocks, y.tcbs[k].task, p, y.ids[p]))
  }

  lemma WiredStill(x: Look, y: Look, blocks: map<int, nat>)
    requires Wired(x, blocks) && SameKinds(x.tcbs, y.tcbs) && |y.lists| == |y.tcbs| && IdleCounts(y.tcbs)
    requires forall k, p :: 0 <= k < |y.tcbs| && p in y.lists[k].All() ==> Explained(x, y, blocks, k, p)
    ensures Wired(y, blocks)
  {
    hide Fits, Lists.All;
    forall k | 0 <= k < |y.tcbs| ensures FitsAt(y, blocks, k) {
      forall p | p in y.lists[k].All() ensures p in y.ids && Fits(y.tcbs, blocks, y.tcbs[k].task, p, y.ids[p]) {
        assert Explained(x, y, blocks, k, p) && FitsAt(x, blocks, k);
        FitsStill(x.tcbs, y.tcbs, blocks, x.tcbs[k].task, y.tcbs[k].task, p, y.ids[p]);
      }
    }
  }

  lemma WiredSameLists(x: Look, y: Look, blocks: map<int, nat>)
    requires Wired(x, blocks) && SameKinds(x.tcbs, y.tcbs) && IdleCounts(y.tcbs)
    requires y.lists == x.lists && y.ids == x.ids
    ensures Wired(y, blocks)
  {
    hide Fits, Lists.All, SameKinds, IdleCounts;
    assert |y.tcbs| == |x.tcbs| by { assert SameKinds(x.tcbs, y.tcbs); KindsLength(x.tcbs, y.tcbs); }
    forall k, p | 0 <= k < |y.tcbs| && p in y.lists[k].All() ensures Explained(x, y, blocks, k, p) {
      assert FitsAt(x, blocks, k);
    }
    WiredStill(x, y, blocks);
  }

  lemma KindsLength(tcbs: seq<Tcb>, tcbs': seq<Tcb>)
    requires SameKinds(tcbs, tcbs')
    ensures |tcbs'| == |tcbs|
  {
  }

  // ----- changes at two tasks ---------------------------------------------------------------------------------------

  /** Only the tasks at k and t have changed. */
  ghost predicate Others(x: Look, y: Look, k: int, t: int) {
    && |x.tcbs| == |x.lists| == |y.tcbs| == |y.lists| && 0 <= k < |x.tcbs| && 0 <= t < |x.tcbs|
    && forall j :: 0 <= j < |x.tcbs| && j != k && j != t ==> y.tcbs[j] == x.tcbs[j] && y.lists[j] == x.lists[j]
  }

  /** What the task at t adds to a change, if it is another one. */
  function Extra(k: int, t: int, before: int, after: int): int {
    if t == k then 0 else after - before
  }

  lemma SumOthers(s: seq<nat>, s': seq<nat>, k: nat, t: nat)
    requires |s| == |s'| && k < |s| && t < |s|
    requires forall j :: 0 <= j < |s| && j != k && j != t ==> s'[j] == s[j]
    ensures Sum(s') == Sum(s) - s[k] + s'[k] + Extra(k, t, s[t], s'[t])
  {
    if k == t {
      SumOne(s, s', k);
    } else {
      SumTwo(s, s', k, t);
    }
  }

  lemma ChancesChange(x: Look, y: Look, k: nat, t: nat)
    requires Others(x, y, k, t)
    ensures RankOf(y).chances == RankOf(x).chances - Chances(x.tcbs[k]) + Chances(y.tcbs[k])
              + Extra(k, t, Chances(x.tcbs[t]), Chances(y.tcbs[t]))
  {
    SumOthers(AllChances(x.tcbs), AllChances(y.tcbs), k, t);
  }

  lemma ReturningChange(x: Look, y: Look, k: nat, t: nat)
    requires Others(x, y, k, t)
    ensures RankOf(y).returning ==
              RankOf(x).returning - Returning(x.tcbs[k], x.lists[k]) + Returning(y.tcbs[k], y.lists[k])
              + Extra(k, t, Returning(x.tcbs[t], x.lists[t]), Returning(y.tcbs[t], y.lists[t]))
  {
    SumOthers(AllReturning(x.tcbs, x.lists), AllReturning(y.tcbs, y.lists), k, t);
  }

  /** No list of a task elsewhere has a packet whose counter has changed. */
  ghost predicate CountsSame(x: Look, y: Look, k: int, t: int)
    requires Others(x, y, k, t)
  {
    forall j :: 0 <= j < |x.tcbs| && j != k && j != t ==>
      Working(x.tcbs[j], x.lists[j], y.counts) == Working(x.tcbs[j], x.lists[j], x.counts)
  }

  lemma WorkingChange(x: Look, y: Look, k: nat, t: nat)
    requires Others(x, y, k, t) && CountsSame(x, y, k, t)
    ensures RankOf(y).working ==
              RankOf(x).working - Working(x.tcbs[k], x.lists[k], x.counts) + Working(y.tcbs[k], y.lists[k], y.counts)
              + Extra(k, t, Working(x.tcbs[t], x.lists[t], x.counts), Working(y.tcbs[t], y.lists[t], y.counts))
  {
    SumOthers(AllWorking(x.tcbs, x.lists, x.counts), AllWorking(y.tcbs, y.lists, y.counts), k, t);
  }

  lemma WakingChange(x: Look, y: Look, k: nat, t: nat)
    requires Others(x, y, k, t)
    ensures RankOf(y).waking == RankOf(x).waking - Waking(x.tcbs[k], x.lists[k]) + Waking(y.tcbs[k], y.lists[k])
              + Extra(k, t, Waking(x.tcbs[t], x.lists[t]), Waking(y.tcbs[t], y.lists[t]))
  {
    SumOthers(AllWaking(x.tcbs, x.lists), AllWaking(y.tcbs, y.lists), k, t);
  }

  // ----- idle tasks -------------------------------------------------------------------------------------------------

  /** A task has taken its first packet, or has none to take. */
  ghost predicate Took(x: Look, y: Look, k: int, packet: Packet?) {
    && |x.tcbs| == |x.lists| && 0 <= k < |x.tcbs| && y.ids == x.ids && y.counts == x.counts
    && !IsHeld(x.tcbs[k].state)
    && if packet == null then y == x && !IsSuspended(x.tcbs[k].state)
       else
         && x.lists[k].queue != [] && packet == x.lists[k].queue[0] && IsSuspended(x.tcbs[k].state)
         && y.lists == x.lists[k := x.lists[k].(queue := x.lists[k].queue[1..])]
         && |y.tcbs| == |x.tcbs| && y.tcbs == x.tcbs[k := y.tcbs[k]] && y.tcbs[k].task == x.tcbs[k].task
         && y.tcbs[k].state in {STATE_RUNNING, STATE_RUNNABLE}
  }

  lemma IdleEnds(x: Look, y: Look, blocks: map<int, nat>, k: nat)
    requires Wired(x, blocks) && k < |x.tcbs| && x.tcbs[k].task.Idle? && !IsHeld(x.tcbs[k].state)
      && x.tcbs[k].state >= 0
    requires y.lists == x.lists && y.ids == x.ids && y.counts == x.counts
    requires var t := x.tcbs[k].task; var stepped := WithTask(x.tcbs, k, IdleNext(t));
      if t.count == 1 then y.tcbs == Marked(stepped, k, STATE_HELD)
      else
        && IdleWakes(t) in blocks && blocks[IdleWakes(t)] < |x.tcbs|
        && y.tcbs == Released(stepped, blocks[IdleWakes(t)])
    ensures Wired(y, blocks) && RankOf(x).Falls(RankOf(y))
  {
    hide Fits, Sum, Lists.All;
    var t := x.tcbs[k].task;
    var d := if t.count == 1 then k else blocks[IdleWakes(t)];
    assert SameKinds(x.tcbs, y.tcbs);
    WiredSameLists(x, y, blocks);
    ChancesChange(x, y, k, d);
  }

  // ----- suspending -------------------------------------------------------------------------------------------------

  lemma SuspendedBits(state: int)
    requires 0 <= state < 8 && !IsSuspended(state)
    ensures IsSuspended(With(state, STATE_SUSPENDED)) && IsHeld(With(state, STATE_SUSPENDED)) == IsHeld(state)
  {
  }

  /** A task without a packet in hand waits for one. */
  lemma SuspendEnds(x: Look, y: Look, blocks: map<int, nat>, k: nat)
    requires Wired(x, blocks) && k < |x.tcbs| && !x.tcbs[k].task.Idle? && 0 <= x.tcbs[k].state < 8
    requires !IsSuspended(x.tcbs[k].state) && y.tcbs == Marked(x.tcbs, k, STATE_SUSPENDED)
    requires y.lists == x.lists && y.ids == x.ids && y.counts == x.counts
    ensures Wired(y, blocks) && RankOf(x).Falls(RankOf(y))
  {
    hide Fits, Sum, Lists.All, IsSuspended, IsHeld, With;
    SuspendedBits(x.tcbs[k].state);
    WiredSameLists(x, y, blocks);
    ChancesChange(x, y, k, k);
    ReturningChange(x, y, k, k);
    WorkingChange(x, y, k, k);
    WakingChange(x, y, k, k);
  }

  // ----- devices ----------------------------------------------------------------------------------------------------

  lemma InAll(l: Lists, p: Packet)
    ensures p in l.All() <==> p in l.queue || p in l.first || p in l.second
  {
  }

  lemma RestOf(s: seq<Packet>, p: Packet)
    requires s != []
    ensures p in s <==> p == s[0] || p in s[1..]
  {
    assert s == [s[0]] + s[1..];
  }

  /** A device with a packet is held. */
  lemma DeviceTakes(x: Look, x1: Look, y: Look, blocks: map<int, nat>, k: nat, packet: Packet)
    requires Wired(x, blocks) && Took(x, x1, k, packet) && x.tcbs[k].task.Device?
    requires y.tcbs == Marked(WithTask(x1.tcbs, k, Device(packet)), k, STATE_HELD)
    requires y.lists == x1.lists[k := x1.lists[k].(first := [packet])] && y.ids == x.ids && y.counts == x.counts
    ensures Wired(y, blocks) && RankOf(x).Falls(RankOf(y))
  {
    hide Fits, Sum, Lists.All;
    assert SameKinds(x.tcbs, y.tcbs) && IdleCounts(y.tcbs);
    forall j, p | 0 <= j < |y.tcbs| && p in y.lists[j].All() ensures Explained(x, y, blocks, j, p) {
      InAll(y.lists[j], p);
      InAll(x.lists[j], p);
      RestOf(x.lists[k].queue, p);
      assert FitsAt(x, blocks, j);
    }
    WiredStill(x, y, blocks);
    ChancesChange(x, y, k, k);
  }

  // ----- sending ----------------------------------------------------------------------------------------------------

  /** v has left the task at k, and nothing else has changed hands. */
  ghost predicate LeftWithout(x: Look, z: seq<Lists>) {
    |z| == |x.lists| && forall j, p :: 0 <= j < |z| && p in z[j].All() ==> p in x.lists[j].All()
  }

  ghost predicate Readdressed(x: Look, y: Look, v: Packet, id: int) {
    && v in y.ids && y.ids[v] == id
    && forall p :: p in x.ids && p != v ==> p in y.ids && y.ids[p] == x.ids[p]
  }

  lemma SentWired(x: Look, z: seq<Lists>, y: Look, blocks: map<int, nat>, t: nat, v: Packet, id: int,
    packets: set<Packet>)
    requires Wired(x, blocks) && SameKinds(x.tcbs, y.tcbs) && IdleCounts(y.tcbs) && LeftWithout(x, z)
    requires t < |z| && y.lists == Behind(z, t, v) && Readdressed(x, y, v, id)
    requires Conserved(y.lists, multiset{}, packets)
    requires Fits(x.tcbs, blocks, x.tcbs[t].task, v, id)
    ensures Wired(y, blocks)
  {
    hide Fits, Lists.All, Conserved, IdleCounts, Names;
    KindsLength(x.tcbs, y.tcbs);
    FitsStill(x.tcbs, y.tcbs, blocks, x.tcbs[t].task, y.tcbs[t].task, v, id);
    InAll(y.lists[t], v);
    OnlyHere(y.lists, multiset{}, packets, t, v);
    forall j, p | 0 <= j < |y.tcbs| && p in y.lists[j].All() ensures Explained(x, y, blocks, j, p) {
      InAll(y.lists[j], p);
      InAll(z[j], p);
      assert FitsAt(x, blocks, j);
    }
    WiredStill(x, y, blocks);
  }

  /** What a packet put behind the queue of the task at t leaves of it. */
  lemma QueuedBits(tcbs: seq<Tcb>, t: nat, head: Packet)
    requires t < |tcbs| && 0 <= tcbs[t].state < 8
    ensures var t' := Queued(tcbs, t, head)[t];
      && t'.task == tcbs[t].task
      && IsHeld(t'.state) == IsHeld(tcbs[t].state) && IsSuspended(t'.state) == IsSuspended(tcbs[t].state)
  {
    WithRunnable(tcbs[t].state);
  }

  lemma DevicesNext(s: seq<Packet>, p: Packet)
    ensures Devices(s + [p]) == Devices(s) + if p.kind == KIND_WORK then 0 else 1
  {
    assert (s + [p])[..|s + [p]| - 1] == s;
  }

  lemma PassedNext(s: seq<Packet>, p: Packet, counts: map<Packet, int>)
    ensures Passed(s + [p], counts) == Passed(s, counts) + if IsPassed(p, counts) then 1 else 0
  {
    assert (s + [p])[..|s + [p]| - 1] == s;
  }

  /** A released device returns its packet to a handler. */
  lemma DeviceSends(x: Look, y: Look, blocks: map<int, nat>, k: nat, t: nat, v: Packet, r: int, packets: set<Packet>)
    requires Wired(x, blocks) && k < |x.tcbs| && x.tcbs[k].task.Device? && x.lists[k].first == [v]
    requires v in x.ids && x.ids[v] in blocks && t == blocks[x.ids[v]]
    requires x.tcbs[k].id in blocks && blocks[x.tcbs[k].id] == k
    requires Handed(WithTask(x.tcbs, k, Device(null)), x.lists[k := x.lists[k].(first := [])], y.tcbs, y.lists,
                    t, v, k, r)
    requires Readdressed(x, y, v, x.tcbs[k].id) && Conserved(y.lists, multiset{}, packets) && AllConsistent(x.tcbs)
    ensures Wired(y, blocks) && RankOf(x).Falls(RankOf(y))
  {
    hide Sum, Lists.All, Conserved, Readdressed;
    var z := x.lists[k := x.lists[k].(first := [])];
    InAll(x.lists[k], v);
    assert FitsAt(x, blocks, k) && x.tcbs[t].task.Handler?;
    forall j, p | 0 <= j < |z| && p in z[j].All() ensures p in x.lists[j].All() {
      InAll(z[j], p);
      InAll(x.lists[j], p);
    }
    assert x.tcbs[t].Consistent();
    QueuedBits(WithTask(x.tcbs, k, Device(null)), t, y.tcbs[t].queue);
    SentWired(x, z, y, blocks, t, v, x.tcbs[k].id, packets);
    DevicesNext(x.lists[t].queue, v);
    ChancesChange(x, y, k, t);
    ReturningChange(x, y, k, t);
  }

  // ----- workers ----------------------------------------------------------------------------------------------------

  /** Only the counter of v may have changed. */
  ghost predicate Recounted(x: Look, y: Look, v: Packet) {
    y.counts.Keys == x.counts.Keys && forall p :: p in x.counts && p != v ==> y.counts[p] == x.counts[p]
  }

  lemma {:induction false} PassedSame(s: seq<Packet>, x: Look, y: Look, v: Packet)
    requires Recounted(x, y, v) && v !in s
    ensures Passed(s, y.counts) == Passed(s, x.counts)
    decreases |s|
  {
    if s != [] {
      var n := |s| - 1;
      assert s[n] in s && forall p :: p in s[..n] ==> p in s;
      PassedSame(s[..n], x, y, v);
    }
  }

  lemma WorkingSame(x: Look, y: Look, v: Packet, t: Tcb, l: Lists)
    requires Recounted(x, y, v) && v !in l.All()
    ensures Working(t, l, y.counts) == Working(t, l, x.counts)
  {
    InAll(l, v);
    PassedSame(l.first, x, y, v);
    PassedSame(l.queue, x, y, v);
  }

  /** The worker sends its packet to a handler, with all its data still to be passed on. */
  lemma WorkerSends(x: Look, x1: Look, y: Look, blocks: map<int, nat>, k: nat, t: nat, v: Packet, w: Task, handler: int,
    r: int, packets: set<Packet>)
    requires Wired(x, blocks) && Took(x, x1, k, v) && x.tcbs[k].task.Worker? && w.Worker?
    requires Names(x.tcbs, blocks, handler, ID_HANDLER_A) && t == blocks[handler]
      && x.tcbs[k].id in blocks && blocks[x.tcbs[k].id] == k
    requires Handed(WithTask(x1.tcbs, k, w), x1.lists, y.tcbs, y.lists, t, v, k, r)
    requires Readdressed(x, y, v, x.tcbs[k].id) && Recounted(x, y, v) && v in y.counts && y.counts[v] < DATA_SIZE
    requires Conserved(x.lists, multiset{}, packets) && Conserved(y.lists, multiset{}, packets) && AllConsistent(x.tcbs)
    ensures Wired(y, blocks) && RankOf(x).Falls(RankOf(y))
  {
    hide Sum, Lists.All, Conserved, Readdressed, Recounted;
    InAll(x.lists[k], v);
    OnlyHere(x.lists, multiset{}, packets, k, v);
    assert FitsAt(x, blocks, k) && v.kind == KIND_WORK && k != t;
    forall j, p | 0 <= j < |x1.lists| && p in x1.lists[j].All() ensures p in x.lists[j].All() {
      InAll(x1.lists[j], p);
      InAll(x.lists[j], p);
      RestOf(x.lists[k].queue, p);
    }
    assert x.tcbs[t].Consistent();
    QueuedBits(WithTask(x1.tcbs, k, w), t, y.tcbs[t].queue);
    SentWired(x, x1.lists, y, blocks, t, v, x.tcbs[k].id, packets);
    ChancesChange(x, y, k, t);
    DevicesNext(x.lists[t].queue, v);
    ReturningChange(x, y, k, t);
    forall j | 0 <= j < |x.tcbs| && j != k
      ensures Working(x.tcbs[j], x.lists[j], y.counts) == Working(x.tcbs[j], x.lists[j], x.counts)
    {
      WorkingSame(x, y, v, x.tcbs[j], x.lists[j]);
    }
    PassedNext(x.lists[t].queue, v, y.counts);
    WorkingChange(x, y, k, t);
  }

  // ----- handlers ---------------------------------------------------------------------------------------------------

  lemma {:induction false} DevicesFirst(s: seq<Packet>)
    requires s != []
    ensures Devices(s) == Devices(s[1..]) + if s[0].kind == KIND_WORK then 0 else 1
    decreases |s|
  {
    var n := |s| - 1;
    if n > 0 {
      assert s[..n][1..] == s[1..][..n - 1] && s[1..][n - 1] == s[n];
      DevicesFirst(s[..n]);
    } else {
      assert s[..n] == [] && s[1..] == [];
    }
  }

  lemma {:induction false} PassedFirst(s: seq<Packet>, counts: map<Packet, int>)
    requires s != []
    ensures Passed(s, counts) == Passed(s[1..], counts) + if IsPassed(s[0], counts) then 1 else 0
    decreases |s|
  {
    var n := |s| - 1;
    if n > 0 {
      assert s[..n][1..] == s[1..][..n - 1] && s[1..][n - 1] == s[n];
      PassedFirst(s[..n], counts);
    } else {
      assert s[..n] == [] && s[1..] == [];
    }
  }

  ghost predicate Within(l: Lists, l': Lists) {
    forall p: Packet :: p in l.All() ==> p in l'.All()
  }

  /** Taking a packet from the queue in hand changes what a handler has in no other way. */
  lemma HandSame(x: Look, x1: Look, k: nat, packet: Packet?, l: Lists)
    requires Took(x, x1, k, packet) && l == InHand(x1.lists[k], packet) && x.tcbs[k].task.Handler?
    ensures |l.second| + Devices(l.queue) == |x.lists[k].second| + Devices(x.lists[k].queue)
    ensures Passed(l.first, x.counts) + Passed(l.queue, x.counts) ==
              Passed(x.lists[k].first, x.counts) + Passed(x.lists[k].queue, x.counts)
    ensures |l.queue| == |x.lists[k].queue| - if packet == null then 0 else 1
    ensures Within(l, x.lists[k])
  {
    hide Lists.All;
    var l0 := x.lists[k];
    if packet != null {
      DevicesFirst(l0.queue);
      PassedFirst(l0.queue, x.counts);
      PassedNext(l0.first, packet, x.counts);
    }
    forall p: Packet | p in l.All() ensures p in l0.All() {
      InAll(l, p);
      InAll(l0, p);
      if packet != null {
        RestOf(l0.queue, p);
      }
    }
  }

  lemma HandWired(x: Look, y: Look, blocks: map<int, nat>, k: nat, l: Lists)
    requires Wired(x, blocks) && k < |x.tcbs| && SameKinds(x.tcbs, y.tcbs) && IdleCounts(y.tcbs) && y.ids == x.ids
    requires |y.lists| == |x.lists| && forall j :: 0 <= j < |y.lists| ==> y.lists[j] == if j == k then l else x.lists[j]
    requires Within(l, x.lists[k])
    ensures Wired(y, blocks)
  {
    hide Fits, Lists.All, IdleCounts;
    KindsLength(x.tcbs, y.tcbs);
    forall j, p | 0 <= j < |y.tcbs| && p in y.lists[j].All() ensures Explained(x, y, blocks, j, p) {
      assert FitsAt(x, blocks, j);
      if j == k {
        assert p in l.All();
      }
    }
    WiredStill(x, y, blocks);
  }

  /** The handler has nothing to do. */
  lemma HandlerWaits(x: Look, x1: Look, y: Look, blocks: map<int, nat>, k: nat, packet: Packet?, l: Lists)
    requires Wired(x, blocks) && Took(x, x1, k, packet) && x.tcbs[k].task.Handler? && 0 <= x.tcbs[k].state < 8
    requires l == InHand(x1.lists[k], packet) && y.lists == x1.lists[k := l] && y.ids == x.ids && y.counts == x.counts
    requires |y.tcbs| == |x.tcbs| && y.tcbs[k].task.Handler?
      && y.tcbs == Marked(WithTask(x1.tcbs, k, y.tcbs[k].task), k, STATE_SUSPENDED)
    ensures Wired(y, blocks) && RankOf(x).Falls(RankOf(y))
  {
    hide Fits, Sum, Lists.All, IsSuspended, IsHeld, With, Within, InHand;
    HandSame(x, x1, k, packet, l);
    TookBits(x, x1, k, packet);
    SuspendedBits(x1.tcbs[k].state);
    HandWired(x, y, blocks, k, l);
    WaitsFalls(x, y, k, packet);
  }

  lemma WaitsFalls(x: Look, y: Look, k: nat, packet: Packet?)
    requires Others(x, y, k, k) && x.tcbs[k].task.Handler? && y.tcbs[k].task.Handler? && y.counts == x.counts
    requires |y.lists[k].second| + Devices(y.lists[k].queue) == |x.lists[k].second| + Devices(x.lists[k].queue)
    requires Passed(y.lists[k].first, x.counts) + Passed(y.lists[k].queue, x.counts) ==
               Passed(x.lists[k].first, x.counts) + Passed(x.lists[k].queue, x.counts)
    requires |y.lists[k].queue| == |x.lists[k].queue| - if packet == null then 0 else 1
    requires IsSuspended(y.tcbs[k].state) && (IsSuspended(x.tcbs[k].state) <==> packet != null)
    ensures RankOf(x).Falls(RankOf(y))
  {
    hide Sum, IsSuspended, IsHeld, Devices, Passed;
    ChancesChange(x, y, k, k);
    ReturningChange(x, y, k, k);
    WorkingChange(x, y, k, k);
    WakingChange(x, y, k, k);
  }

  /** The state of a task that may have taken a packet. */
  lemma TookBits(x: Look, y: Look, k: nat, packet: Packet?)
    requires Took(x, y, k, packet) && 0 <= x.tcbs[k].state < 8
    ensures 0 <= y.tcbs[k].state < 8 && !IsSuspended(y.tcbs[k].state) && !IsHeld(y.tcbs[k].state)
    ensures IsSuspended(x.tcbs[k].state) <==> packet != null
  {
  }

  /** What is left when a packet leaves the hand was there before. */
  lemma LessThanHand(x: Look, x1: Look, z: seq<Lists>, k: nat, packet: Packet?, l: Lists, work: bool)
    requires Took(x, x1, k, packet) && x.tcbs[k].task.Handler? && l == InHand(x1.lists[k], packet)
    requires (if work then l.first else l.second) != [] && z == x1.lists[k := Without(l, work)]
    ensures LeftWithout(x, z)
  {
    hide Lists.All;
    HandSame(x, x1, k, packet, l);
    forall j, p | 0 <= j < |z| && p in z[j].All() ensures p in x.lists[j].All() {
      InAll(z[j], p);
      InAll(l, p);
      if j == k {
        RestOf(if work then l.first else l.second, p);
      }
    }
  }

  /** A packet goes from the hand of the handler at k to the task at t. */
  ghost predicate Leaves(x: Look, x1: Look, y: Look, blocks: map<int, nat>, k: nat, t: nat, l: Lists, task: Task,
    work: bool, v: Packet, r: int) {
    && k < |x1.tcbs| == |x1.lists| && k < |x.tcbs| == |x.lists| && task.Handler?
    && (if work then l.first else l.second) != [] && v == (if work then l.first else l.second)[0]
    && v in x.ids && x.ids[v] in blocks && t == blocks[x.ids[v]]
    && x.tcbs[k].id in blocks && blocks[x.tcbs[k].id] == k
    && Handed(WithTask(x1.tcbs, k, task), x1.lists[k := Without(l, work)], y.tcbs, y.lists, t, v, k, r)
    && Readdressed(x, y, v, x.tcbs[k].id)
  }

  lemma HandlerSends(x: Look, x1: Look, y: Look, blocks: map<int, nat>, k: nat, t: nat, packet: Packet?, l: Lists,
    task: Task, work: bool, v: Packet, r: int, packets: set<Packet>)
    requires Wired(x, blocks) && Took(x, x1, k, packet) && x.tcbs[k].task.Handler? && l == InHand(x1.lists[k], packet)
    requires Leaves(x, x1, y, blocks, k, t, l, task, work, v, r) && work == (v.kind == KIND_WORK)
    requires Conserved(y.lists, multiset{}, packets) && AllConsistent(x.tcbs)
    ensures Wired(y, blocks) && Others(x, y, k, t) && k != t && RankOf(y).chances == RankOf(x).chances
    ensures y.tcbs[t].task == x.tcbs[t].task && (if work then x.tcbs[t].task.Worker? else x.tcbs[t].task.Device?)
    ensures y.tcbs[k].task == task && y.lists[k] == Without(l, work)
    ensures y.lists[t] == x.lists[t].(queue := x.lists[t].queue + [v])
  {
    hide Sum, Lists.All, Conserved, Readdressed, Without, IsHeld, IsSuspended, With;
    var z := x1.lists[k := Without(l, work)];
    HandSame(x, x1, k, packet, l);
    HeadIn(l, work, v);
    assert FitsAt(x, blocks, k) && k != t;
    LessThanHand(x, x1, z, k, packet, l, work);
    assert x.tcbs[t].Consistent() && x.tcbs[k].Consistent();
    TookBits(x, x1, k, packet);
    QueuedBits(WithTask(x1.tcbs, k, task), t, y.tcbs[t].queue);
    KindsAfter(x, x1, y, k, t, packet, task, y.tcbs[t].queue);
    SentWired(x, z, y, blocks, t, v, x.tcbs[k].id, packets);
    ChancesChange(x, y, k, t);
  }

  lemma HeadIn(l: Lists, work: bool, v: Packet)
    requires (if work then l.first else l.second) != [] && v == (if work then l.first else l.second)[0]
    ensures v in l.All()
  {
    hide Lists.All;
    InAll(l, v);
  }

  lemma KindsAfter(x: Look, x1: Look, y: Look, k: nat, t: nat, packet: Packet?, task: Task, head: Packet)
    requires Took(x, x1, k, packet) && KindOf(task) == KindOf(x.tcbs[k].task) && !task.Idle? && t < |x.tcbs| && t != k
    requires y.tcbs == Queued(WithTask(x1.tcbs, k, task), t, head) && !x.tcbs[t].task.Idle? && IdleCounts(x.tcbs)
    ensures SameKinds(x.tcbs, y.tcbs) && IdleCounts(y.tcbs)
    ensures forall j :: 0 <= j < |x.tcbs| && j != k && j != t ==> y.tcbs[j] == x.tcbs[j]
  {
    hide IsHeld, IsSuspended, With;
  }

  /** The handler passes a datum on with a device packet. */
  lemma HandlerPasses(x: Look, x1: Look, y: Look, blocks: map<int, nat>, k: nat, t: nat, packet: Packet?, l: Lists,
    task: Task, v: Packet, r: int, packets: set<Packet>)
    requires Wired(x, blocks) && Took(x, x1, k, packet) && x.tcbs[k].task.Handler? && l == InHand(x1.lists[k], packet)
    requires Leaves(x, x1, y, blocks, k, t, l, task, false, v, r) && v.kind != KIND_WORK
    requires Conserved(y.lists, multiset{}, packets) && AllConsistent(x.tcbs)
    ensures Wired(y, blocks) && RankOf(x).Falls(RankOf(y))
  {
    HandlerSends(x, x1, y, blocks, k, t, packet, l, task, false, v, r, packets);
    HandSame(x, x1, k, packet, l);
    hide Wired, Took, Leaves, Conserved, AllConsistent, Sum, Others, InHand, Devices;
    ReturningChange(x, y, k, t);
  }

  /** The handler returns a work packet whose data have all been passed on. */
  lemma HandlerReturns(x: Look, x1: Look, y: Look, blocks: map<int, nat>, k: nat, t: nat, packet: Packet?, l: Lists,
    task: Task, v: Packet, r: int, packets: set<Packet>)
    requires Wired(x, blocks) && Took(x, x1, k, packet) && x.tcbs[k].task.Handler? && l == InHand(x1.lists[k], packet)
    requires Leaves(x, x1, y, blocks, k, t, l, task, true, v, r) && IsPassed(v, x.counts) && y.counts == x.counts
    requires Conserved(y.lists, multiset{}, packets) && AllConsistent(x.tcbs)
    ensures Wired(y, blocks) && RankOf(x).Falls(RankOf(y))
  {
    HandlerSends(x, x1, y, blocks, k, t, packet, l, task, true, v, r, packets);
    HandSame(x, x1, k, packet, l);
    PassedFirst(l.first, x.counts);
    hide Wired, Took, Conserved, AllConsistent, Sum, Others, InHand, Devices, Passed;
    ReturningChange(x, y, k, t);
    WorkingChange(x, y, k, t);
  }

  // ----- each run of a task -----------------------------------------------------------------------------------------

  ghost function Now(s: Scheduler): (x: Look)
    reads s, s.packets
  {
    Look(s.tcbs, s.lists, Ids(s.packets), Counts(s.packets))
  }

  lemma OwnEntry(tcbs: seq<Tcb>, blocks: map<int, nat>, k: nat)
    requires Indexed(tcbs, blocks) && AllConsistent(tcbs) && k < |tcbs|
    ensures tcbs[k].id in blocks && blocks[tcbs[k].id] == k && 0 <= tcbs[k].state < 8
  {
    assert tcbs[k].Consistent();
  }

  lemma DeviceEnds(x: Look, x1: Look, y: Look, blocks: map<int, nat>, links: Fields, packets: set<Packet>, k: nat,
    packet: Packet?, r: int)
    requires Wired(x, blocks) && Took(x, x1, k, packet) && x.tcbs[k].task.Device? && x1.tcbs[k].task.Device?
    requires Tables(x.tcbs, blocks, x.lists, links, packets, multiset{}) && Conserved(y.lists, multiset{}, packets)
    requires var slot := x1.tcbs[k].task.slot;
      if packet != null then
        && y.tcbs == Marked(WithTask(x1.tcbs, k, Device(packet)), k, STATE_HELD)
        && y.lists == x1.lists[k := x1.lists[k].(first := [packet])] && y.ids == x1.ids && y.counts == x1.counts
      else if slot == null then
        && y.tcbs == Marked(x1.tcbs, k, STATE_SUSPENDED)
        && y.lists == x1.lists && y.ids == x1.ids && y.counts == x1.counts
      else
        && slot in x1.ids && x1.ids[slot] in blocks && Readdressed(x1, y, slot, x.tcbs[k].id)
        && Handed(WithTask(x1.tcbs, k, Device(null)), x1.lists[k := x1.lists[k].(first := [])], y.tcbs, y.lists,
                  blocks[x1.ids[slot]], slot, k, r)
    ensures Wired(y, blocks) && RankOf(x).Falls(RankOf(y))
  {
    hide Wired, Conserved, AllConsistent, Indexed, Handed, Readdressed, RankOf, Chain;
    OwnEntry(x.tcbs, blocks, k);
    if packet != null {
      DeviceTakes(x, x1, y, blocks, k, packet);
    } else if x1.tcbs[k].task.slot == null {
      SuspendEnds(x, y, blocks, k);
    } else {
      var v := x1.tcbs[k].task.slot;
      assert TaskHolds(x.tcbs[k], x.lists[k], links);
      DeviceSends(x, y, blocks, k, blocks[x1.ids[v]], v, r, packets);
    }
  }

  lemma WorkerEnds(x: Look, x1: Look, y: Look, blocks: map<int, nat>, links: Fields, packets: set<Packet>, k: nat,
    packet: Packet?, w: Task, r: int)
    requires Wired(x, blocks) && Took(x, x1, k, packet) && x.tcbs[k].task.Worker? && w.Worker?
    requires Tables(x.tcbs, blocks, x.lists, links, packets, multiset{}) && Conserved(y.lists, multiset{}, packets)
    requires
      if packet == null then
        && y.tcbs == Marked(x1.tcbs, k, STATE_SUSPENDED)
        && y.lists == x1.lists && y.ids == x1.ids && y.counts == x1.counts
      else
        && (w.target == ID_HANDLER_A || w.target == ID_HANDLER_B) && w.target in blocks
        && Readdressed(x1, y, packet, x.tcbs[k].id) && Recounted(x1, y, packet)
        && packet in y.counts && y.counts[packet] == 0
        && Handed(WithTask(x1.tcbs, k, w), x1.lists, y.tcbs, y.lists, blocks[w.target], packet, k, r)
    ensures Wired(y, blocks) && RankOf(x).Falls(RankOf(y))
  {
    HandlersNamed(x, blocks);
    hide Wired, Conserved, AllConsistent, Indexed, Handed, Readdressed, Recounted, RankOf, Names, AllHold;
    OwnEntry(x.tcbs, blocks, k);
    if packet == null {
      SuspendEnds(x, y, blocks, k);
    } else {
      WorkerSends(x, x1, y, blocks, k, blocks[w.target], packet, w, w.target, r, packets);
    }
  }

  lemma HandlersNamed(x: Look, blocks: map<int, nat>)
    requires Wired(x, blocks)
    ensures Names(x.tcbs, blocks, ID_HANDLER_A, ID_HANDLER_A) && Names(x.tcbs, blocks, ID_HANDLER_B, ID_HANDLER_A)
  {
  }

  /** The packets that a handler has in hand are of the two kinds. */
  lemma HandSorted(tcbs: seq<Tcb>, lists: seq<Lists>, links: Fields, k: nat, packet: Packet?)
    requires AllHold(tcbs, lists, links) && k < |tcbs| && tcbs[k].task.Handler?
    ensures var l := InHand(lists[k], packet);
      (l.first != [] ==> l.first[0].kind == KIND_WORK) && (l.second != [] ==> l.second[0].kind != KIND_WORK)
  {
    hide Chain;
    assert TaskHolds(tcbs[k], lists[k], links);
  }

  lemma HandlerEnds(x: Look, x1: Look, y: Look, blocks: map<int, nat>, links: Fields, packets: set<Packet>, k: nat,
    packet: Packet?, l: Lists, move: int, v: Packet?, r: int)
    requires Wired(x, blocks) && Took(x, x1, k, packet) && x.tcbs[k].task.Handler? && l == InHand(x1.lists[k], packet)
    requires Tables(x.tcbs, blocks, x.lists, links, packets, multiset{}) && Conserved(y.lists, multiset{}, packets)
    requires k < |x.tcbs| == |y.tcbs| && y.tcbs[k].task.Handler?
    requires (l.first != [] ==> l.first[0].kind == KIND_WORK) && (l.second != [] ==> l.second[0].kind != KIND_WORK)
    requires
      if move == 0 then
        && y.tcbs == Marked(WithTask(x1.tcbs, k, y.tcbs[k].task), k, STATE_SUSPENDED) && y.lists == x1.lists[k := l]
        && y.ids == x.ids && y.counts == x.counts
      else
        && move in {1, 2} && v != null && v in x.ids && x.ids[v] in blocks
        && Leaves(x, x1, y, blocks, k, blocks[x.ids[v]], l, y.tcbs[k].task, move == 2, v, r)
        && (move == 2 ==> IsPassed(v, x.counts) && y.counts == x.counts)
    ensures Wired(y, blocks) && RankOf(x).Falls(RankOf(y))
  {
    hide Wired, Conserved, AllConsistent, Indexed, Handed, Readdressed, RankOf, AllHold, InHand, Took, IsPassed;
    OwnEntry(x.tcbs, blocks, k);
    if move == 0 {
      HandlerWaits(x, x1, y, blocks, k, packet, l);
    } else if move == 1 {
      HandlerPasses(x, x1, y, blocks, k, blocks[x.ids[v]], packet, l, y.tcbs[k].task, v, r, packets);
    } else {
      HandlerReturns(x, x1, y, blocks, k, blocks[x.ids[v]], packet, l, y.tcbs[k].task, v, r, packets);
    }
  }
}
