/** The moves of packets between the tasks. Each of them keeps every list linked and every packet in
    one place: a packet leaves a task's queue or hand and is on its way, and then joins another one,
    and the other tasks do not notice. */
module RichardsMoves {
  import opened RichardsPackets
  import opened RichardsTasks

  /** Links changed at most for packets of m. */
  ghost predicate ChangedWithin(links: Fields, links': Fields, m: multiset<Packet>) {
    forall q :: q in links && q !in m ==> q in links' && links'[q] == links[q]
  }

  lemma HoldsKept(t: Tcb, l: Lists, links: Fields, links': Fields, m: multiset<Packet>)
    requires TaskHolds(t, l, links) && ChangedWithin(links, links', m) && forall q :: q in l.All() ==> q !in m
    ensures TaskHolds(t, l, links')
  {
    hide Chain;
    forall q | q in l.queue || q in l.first || q in l.second ensures q in l.All() {
    }
    ChainKept(links, links', t.queue, l.queue);
    if t.task.Handler? {
      ChainKept(links, links', t.task.works, l.first);
      ChainKept(links, links', t.task.devices, l.second);
    }
  }

  /** The other tasks do not notice that links of a packet on its way or of task k's have changed. */
  lemma OthersHold(tcbs: seq<Tcb>, ls: seq<Lists>, onItsWay: multiset<Packet>, packets: set<Packet>, links: Fields,
    links': Fields, k: nat)
    requires AllHold(tcbs, ls, links) && Conserved(ls, onItsWay, packets) && k < |ls|
    requires ChangedWithin(links, links', ls[k].All() + onItsWay)
    ensures forall j :: 0 <= j < |ls| && j != k ==> TaskHolds(tcbs[j], ls[j], links')
  {
    hide TaskHolds, Conserved, ChangedWithin, Lists.All;
    forall j | 0 <= j < |ls| && j != k ensures TaskHolds(tcbs[j], ls[j], links') {
      forall q | q in ls[j].All() ensures q !in ls[k].All() + onItsWay {
        OnlyHere(ls, onItsWay, packets, j, q);
      }
      HoldsKept(tcbs[j], ls[j], links, links', ls[k].All() + onItsWay);
    }
  }

  lemma AllHoldUpdated(tcbs: seq<Tcb>, ls: seq<Lists>, links: Fields, k: nat, t: Tcb, l: Lists)
    requires |tcbs| == |ls| && k < |ls| && TaskHolds(t, l, links)
    requires forall j :: 0 <= j < |ls| && j != k ==> TaskHolds(tcbs[j], ls[j], links)
    ensures AllHold(tcbs[k := t], ls[k := l], links)
  {
    hide TaskHolds;
  }

  /** What task k gives up is on its way. */
  lemma GivenUp(ls: seq<Lists>, packets: set<Packet>, k: nat, l: Lists, p: Packet)
    requires Conserved(ls, multiset{}, packets) && k < |ls| && ls[k].All() == l.All() + multiset{p}
    ensures Conserved(ls[k := l], multiset{p}, packets)
  {
    TotalUpdate(ls, k, l);
  }

  lemma TakenIn(ls: seq<Lists>, packets: set<Packet>, k: nat, l: Lists, p: Packet)
    requires Conserved(ls, multiset{p}, packets) && k < |ls| && l.All() == ls[k].All() + multiset{p}
    ensures Conserved(ls[k := l], multiset{}, packets)
  {
    TotalUpdate(ls, k, l);
  }

  lemma HeadOff(s: seq<Packet>)
    requires s != []
    ensures multiset(s) == multiset(s[1..]) + multiset{s[0]}
  {
    assert s == [s[0]] + s[1..];
  }

  /** The first packet leaves a task's queue. */
  lemma QueuePopped(tcbs: seq<Tcb>, ls: seq<Lists>, links: Fields, packets: set<Packet>, k: nat)
    requires AllHold(tcbs, ls, links) && Conserved(ls, multiset{}, packets) && k < |tcbs| && tcbs[k].queue != null
    ensures ls[k].queue != [] && tcbs[k].queue == ls[k].queue[0] && tcbs[k].queue in links
    ensures Conserved(ls[k := ls[k].(queue := ls[k].queue[1..])], multiset{tcbs[k].queue}, packets)
    ensures forall state :: AllHold(tcbs[k := tcbs[k].(queue := links[tcbs[k].queue], state := state)], ls[k := ls[k].(queue := ls[k].queue[1..])], links)
  {
    hide Chain, Conserved;
    var l := ls[k];
    ChainRest(links, tcbs[k].queue, l.queue);
    HeadOff(l.queue);
    GivenUp(ls, packets, k, l.(queue := l.queue[1..]), l.queue[0]);
  }

  /** A packet on its way joins the end of a task's queue. */
  lemma QueueJoined(tcbs: seq<Tcb>, ls: seq<Lists>, links: Fields, links': Fields, packets: set<Packet>, k: nat,
    p: Packet, head: Packet, state: int)
    requires AllHold(tcbs, ls, links) && Conserved(ls, multiset{p}, packets) && k < |tcbs|
    requires Chain(links', head, ls[k].queue + [p]) && Appended(links, links', ls[k].queue, p)
    ensures Conserved(ls[k := ls[k].(queue := ls[k].queue + [p])], multiset{}, packets)
    ensures AllHold(tcbs[k := tcbs[k].(queue := head, state := state)], ls[k := ls[k].(queue := ls[k].queue + [p])],
      links')
  {
    hide Chain, Conserved, Appended, TaskHolds;
    var t, l := tcbs[k], ls[k].(queue := ls[k].queue + [p]);
    TakenIn(ls, packets, k, l, p);
    AppendedWithin(links, links', ls[k], ls[k].queue, p);
    OthersHold(tcbs, ls, multiset{p}, packets, links, links', k);
    OneQueue(ls, multiset{p}, packets, k, p);
    InHandKept(t, ls[k], links, links', p, head, state);
    AllHoldUpdated(tcbs, ls, links', k, t.(queue := head, state := state), l);
  }

  /** p was put behind the list s. */
  ghost predicate Appended(links: Fields, links': Fields, s: seq<Packet>, p: Packet) {
    links' == links[p := null] + if s == [] then map[] else map[s[|s| - 1] := p]
  }

  lemma AppendedWithin(links: Fields, links': Fields, l: Lists, s: seq<Packet>, p: Packet)
    requires Appended(links, links', s, p) && (s == l.queue || s == l.first || s == l.second)
    ensures ChangedWithin(links, links', l.All() + multiset{p})
  {
    if s != [] {
      assert s[|s| - 1] in s && s[|s| - 1] in l.All();
    }
  }

  /** The packets of task k's lists are in no other of its lists. */
  lemma OneQueue(ls: seq<Lists>, onItsWay: multiset<Packet>, packets: set<Packet>, k: nat, p: Packet)
    requires Conserved(ls, onItsWay, packets) && k < |ls| && p in onItsWay
    ensures p !in ls[k].queue && p !in ls[k].first && p !in ls[k].second
    ensures forall q :: q in ls[k].queue ==> q !in ls[k].first && q !in ls[k].second
    ensures forall q :: q in ls[k].first ==> q !in ls[k].second && q !in ls[k].queue
    ensures forall q :: q in ls[k].second ==> q !in ls[k].first && q !in ls[k].queue
  {
    OnTheWay(ls, onItsWay, packets, p);
    var l := ls[k];
    forall q | q in l.queue || q in l.first || q in l.second
      ensures q in l.queue ==> q !in l.first && q !in l.second
      ensures q in l.first ==> q !in l.queue && q !in l.second
      ensures q in l.second ==> q !in l.queue && q !in l.first
    {
      assert q in l.All();
      OnlyHere(ls, onItsWay, packets, k, q);
      OnceOnly(l, q);
    }
    assert p !in l.All();
  }

  lemma InHandKept(t: Tcb, l: Lists, links: Fields, links': Fields, p: Packet, head: Packet, state: int)
    requires TaskHolds(t, l, links) && Appended(links, links', l.queue, p) && Chain(links', head, l.queue + [p])
    requires p !in l.first && p !in l.second && forall q :: q in l.queue ==> q !in l.first && q !in l.second
    ensures TaskHolds(t.(queue := head, state := state), l.(queue := l.queue + [p]), links')
  {
    hide Chain;
    if l.queue != [] {
      assert l.queue[|l.queue| - 1] in l.queue;
    }
    if t.task.Handler? {
      ChainKept(links, links', t.task.works, l.first);
      ChainKept(links, links', t.task.devices, l.second);
    }
  }

  /** A packet joins the work packets, or the device packets, that a handler has in hand. */
  lemma HandlerTakes(tcbs: seq<Tcb>, ls: seq<Lists>, links: Fields, links': Fields, packets: set<Packet>, k: nat,
    p: Packet, head: Packet, work: bool)
    requires AllHold(tcbs, ls, links) && Conserved(ls, multiset{p}, packets) && k < |tcbs| && tcbs[k].task.Handler?
    requires work <==> p.kind == KIND_WORK
    requires var s := if work then ls[k].first else ls[k].second;
      Chain(links', head, s + [p]) && Appended(links, links', s, p)
    ensures var l := if work then ls[k].(first := ls[k].first + [p]) else ls[k].(second := ls[k].second + [p]);
      var h := if work then tcbs[k].task.(works := head) else tcbs[k].task.(devices := head);
      Conserved(ls[k := l], multiset{}, packets) && AllHold(tcbs[k := tcbs[k].(task := h)], ls[k := l], links')
  {
    hide Chain, Conserved, Appended, TaskHolds;
    var t := tcbs[k];
    var s := if work then ls[k].first else ls[k].second;
    var l := if work then ls[k].(first := s + [p]) else ls[k].(second := s + [p]);
    var h := if work then t.task.(works := head) else t.task.(devices := head);
    TakenIn(ls, packets, k, l, p);
    AppendedWithin(links, links', ls[k], s, p);
    OthersHold(tcbs, ls, multiset{p}, packets, links, links', k);
    OneQueue(ls, multiset{p}, packets, k, p);
    HandKept(t, ls[k], links, links', p, head, work);
    AllHoldUpdated(tcbs, ls, links', k, t.(task := h), l);
  }

  lemma HandKept(t: Tcb, l: Lists, links: Fields, links': Fields, p: Packet, head: Packet, work: bool)
    requires TaskHolds(t, l, links) && t.task.Handler? && (work <==> p.kind == KIND_WORK)
    requires var s := if work then l.first else l.second; Appended(links, links', s, p) && Chain(links', head, s + [p])
    requires p !in l.queue && p !in l.first && p !in l.second
    requires forall q :: q in l.first ==> q !in l.second && q !in l.queue
    requires forall q :: q in l.second ==> q !in l.first && q !in l.queue
    ensures TaskHolds(t.(task := if work then t.task.(works := head) else t.task.(devices := head)),
      if work then l.(first := l.first + [p]) else l.(second := l.second + [p]), links')
  {
    hide Chain;
    var s := if work then l.first else l.second;
    if s != [] {
      assert s[|s| - 1] in s;
    }
    ChainKept(links, links', t.queue, l.queue);
    if work {
      ChainKept(links, links', t.task.devices, l.second);
    } else {
      ChainKept(links, links', t.task.works, l.first);
    }
  }

  /** The first packet leaves one of a handler's lists. */
  lemma HandlerGives(tcbs: seq<Tcb>, ls: seq<Lists>, links: Fields, packets: set<Packet>, k: nat, work: bool)
    requires AllHold(tcbs, ls, links) && Conserved(ls, multiset{}, packets) && k < |tcbs| && tcbs[k].task.Handler?
    requires (if work then tcbs[k].task.works else tcbs[k].task.devices) != null
    ensures var p := if work then tcbs[k].task.works else tcbs[k].task.devices;
      var l := if work then ls[k].(first := ls[k].first[1..]) else ls[k].(second := ls[k].second[1..]);
      && (if work then ls[k].first else ls[k].second) != [] && p in links
      && Conserved(ls[k := l], multiset{p}, packets)
      && AllHold(tcbs[k := tcbs[k].(task := if work then tcbs[k].task.(works := links[p])
        else tcbs[k].task.(devices := links[p]))], ls[k := l], links)
  {
    hide Chain, Conserved;
    var l := ls[k];
    if work {
      ChainRest(links, tcbs[k].task.works, l.first);
      HeadOff(l.first);
      GivenUp(ls, packets, k, l.(first := l.first[1..]), l.first[0]);
    } else {
      ChainRest(links, tcbs[k].task.devices, l.second);
      HeadOff(l.second);
      GivenUp(ls, packets, k, l.(second := l.second[1..]), l.second[0]);
    }
  }

  /** A device with an empty slot takes a packet. */
  lemma SlotFilled(tcbs: seq<Tcb>, ls: seq<Lists>, links: Fields, packets: set<Packet>, k: nat, p: Packet)
    requires AllHold(tcbs, ls, links) && Conserved(ls, multiset{p}, packets) && k < |tcbs|
      && tcbs[k].task == Device(null)
    ensures Conserved(ls[k := ls[k].(first := [p])], multiset{}, packets)
    ensures AllHold(tcbs[k := tcbs[k].(task := Device(p))], ls[k := ls[k].(first := [p])], links)
  {
    hide Chain, Conserved;
    TakenIn(ls, packets, k, ls[k].(first := [p]), p);
  }

  lemma SlotEmptied(tcbs: seq<Tcb>, ls: seq<Lists>, links: Fields, packets: set<Packet>, k: nat)
    requires AllHold(tcbs, ls, links) && Conserved(ls, multiset{}, packets) && k < |tcbs|
    requires tcbs[k].task.Device? && tcbs[k].task.slot != null
    ensures Conserved(ls[k := ls[k].(first := [])], multiset{tcbs[k].task.slot}, packets)
    ensures AllHold(tcbs[k := tcbs[k].(task := Device(null))], ls[k := ls[k].(first := [])], links)
  {
    hide Chain, Conserved;
    GivenUp(ls, packets, k, ls[k].(first := []), tcbs[k].task.slot);
  }
}
