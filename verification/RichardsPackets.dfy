/** Packets, and the lists they form through their links. A list is a sequence of packets in which
    each packet's link is the next one and the last one's is null; what the links of all packets are
    is a map, so that writing one link changes one entry of it. */
module RichardsPackets {

  const KIND_DEVICE := 0
  const KIND_WORK := 1
  const DATA_SIZE := 4

  class Packet {
    var link: Packet?
    var id: int
    const kind: int
    var a1: int
    var a2: seq<int>

    constructor (link: Packet?, id: int, kind: int)
      ensures this.link == link && this.id == id && this.kind == kind && a1 == 0 && |a2| == DATA_SIZE
    {
      this.link, this.id, this.kind, a1, a2 := link, id, kind, 0, seq(DATA_SIZE, _ => 0);
    }
  }

  type Fields = map<Packet, Packet?>

  ghost function Links(packets: set<Packet>): (r: Fields)
    reads packets`link
  {
    map p | p in packets :: p.link
  }

  method SetLink(p: Packet, v: Packet?, ghost packets: set<Packet>)
    requires p in packets
    modifies p`link
    ensures p.link == v && Links(packets) == old(Links(packets))[p := v]
  {
    p.link := v;
  }

  ghost function First(s: seq<Packet>): (p: Packet?) {
    if s == [] then null else s[0]
  }

  /** The list that starts at head is s: each packet's link is the next one, the last one's is null. */
  ghost predicate Chain(links: Fields, head: Packet?, s: seq<Packet>) {
    head == First(s) && forall i :: 0 <= i < |s| ==> Linked(links, s, i)
  }

  ghost predicate Linked(links: Fields, s: seq<Packet>, i: int)
    requires 0 <= i < |s|
  {
    s[i] in links && links[s[i]] == First(s[i + 1..])
  }

  ghost predicate Distinct(s: seq<Packet>) {
    forall i, j :: 0 <= i < j < |s| ==> s[i] != s[j]
  }

  /** Links of other packets do not matter. */
  lemma ChainKept(links: Fields, links': Fields, head: Packet?, s: seq<Packet>)
    requires Chain(links, head, s) && forall p :: p in s && p in links ==> p in links' && links'[p] == links[p]
    ensures Chain(links', head, s)
  {
    forall i | 0 <= i < |s| ensures Linked(links', s, i) {
      assert Linked(links, s, i) && s[i] in s;
    }
  }

  lemma ChainRest(links: Fields, head: Packet?, s: seq<Packet>)
    requires Chain(links, head, s) && head != null
    ensures s != [] && s[0] == head && head in links && Chain(links, links[head], s[1..])
  {
    assert Linked(links, s, 0);
    forall i | 0 <= i < |s| - 1 ensures Linked(links, s[1..], i) {
      assert Linked(links, s, i + 1) && s[1..][i + 1..] == s[i + 2..];
    }
  }

  /** The last packet of a list gets a new one behind it. */
  lemma ChainExtended(links: Fields, head: Packet?, s: seq<Packet>, p: Packet)
    requires Chain(links, head, s) && Distinct(s) && s != [] && p !in s && p in links && links[p] == null
    ensures Chain(links[s[|s| - 1] := p], head, s + [p])
  {
    var links', t, last := links[s[|s| - 1] := p], s + [p], s[|s| - 1];
    forall i | 0 <= i < |t| ensures Linked(links', t, i) {
      if i < |s| - 1 {
        assert Linked(links, s, i) && t[i + 1..] == s[i + 1..] + [p];
      } else if i == |s| - 1 {
        assert t[i + 1..] == [p];
      }
    }
  }

  lemma ChainOne(links: Fields, p: Packet)
    requires p in links && links[p] == null
    ensures Chain(links, p, [p])
  {
    assert Linked(links, [p], 0);
  }

  /** Packet.addTo: this packet goes to the end of a list. */
  method AddTo(p: Packet, queue: Packet?, ghost s: seq<Packet>, ghost packets: set<Packet>) returns (r: Packet)
    requires Chain(Links(packets), queue, s) && Distinct(s) && p !in s && p in packets
      && forall x :: x in s ==> x in packets
    modifies packets`link
    ensures Chain(Links(packets), r, s + [p])
    ensures Links(packets) == old(Links(packets))[p := null] + if s == [] then map[] else map[s[|s| - 1] := p]
  {
    hide Links, Chain, Distinct;
    ghost var links0 := Links(packets);
    SetLink(p, null, packets);
    ghost var links := Links(packets);
    CutFirst(links0, queue, s, p);
    ChainEnd(links, queue, s);
    if queue == null {
      ChainOne(links, p);
      assert s + [p] == [p];
      return p;
    }
    var next: Packet := queue;
    ghost var k := 0;
    ChainAt(links, queue, s, 0);
    LinkAt(packets, next);
    while next.link != null
      invariant 0 <= k < |s| && next == s[k] && next in packets && Links(packets) == links
      invariant next.link == First(s[k + 1..])
      decreases |s| - k
    {
      ChainAt(links, queue, s, k + 1);
      next := next.link;
      k := k + 1;
      LinkAt(packets, next);
    }
    assert k == |s| - 1;
    SetLink(next, p, packets);
    ChainExtended(links, queue, s, p);
    r := queue;
  }

  lemma CutFirst(links: Fields, queue: Packet?, s: seq<Packet>, p: Packet)
    requires Chain(links, queue, s) && p !in s
    ensures Chain(links[p := null], queue, s)
  {
    ChainKept(links, links[p := null], queue, s);
  }

  lemma ChainEnd(links: Fields, head: Packet?, s: seq<Packet>)
    requires Chain(links, head, s)
    ensures head == null <==> s == []
  {
  }

  lemma ChainAt(links: Fields, head: Packet?, s: seq<Packet>, k: nat)
    requires Chain(links, head, s) && k < |s|
    ensures s[k] in links && links[s[k]] == First(s[k + 1..]) && (k == 0 ==> head == s[0])
  {
    assert Linked(links, s, k);
  }

  lemma LinkAt(packets: set<Packet>, p: Packet)
    requires p in packets
    ensures p in Links(packets) && Links(packets)[p] == p.link
  {
  }
}
