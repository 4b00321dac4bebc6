/** The nodes of a splay tree and the shapes they are linked into.

    A shape is a tree of nodes. Whether the heap has a shape is asked of two maps, the left and the
    right fields of a set of nodes, so that a field written is one entry of one map changed. */
module SplayShapes {

  class Node {
    const key: int
    const value: string
    var left: Node?
    var right: Node?

    constructor (key: int, value: string)
      ensures this.key == key && this.value == value && left == null && right == null
    {
      this.key, this.value := key, value;
      left, right := null, null;
    }
  }

  datatype Tree = Empty | Fork(left: Tree, node: Node, right: Tree)

  type Fields = map<Node, Node?>

  ghost function Lefts(nodes: set<Node>): (r: Fields)
    reads nodes
  {
    map n | n in nodes :: n.left
  }

  ghost function Rights(nodes: set<Node>): (r: Fields)
    reads nodes
  {
    map n | n in nodes :: n.right
  }

  /** Writes the left field of a node; S are the nodes looked at. */
  method SetLeft(n: Node, v: Node?, ghost S: set<Node>)
    requires n in S
    modifies n`left
    ensures n.left == v && Lefts(S) == old(Lefts(S))[n := v] && Rights(S) == old(Rights(S))
  {
    n.left := v;
  }

  method SetRight(n: Node, v: Node?, ghost S: set<Node>)
    requires n in S
    modifies n`right
    ensures n.right == v && Rights(S) == old(Rights(S))[n := v] && Lefts(S) == old(Lefts(S))
  {
    n.right := v;
  }

  /** Field f of node n written. */
  ghost function Written(f: Fields, n: Node, v: Node?): (r: Fields) {
    f[n := v]
  }

  ghost function InOrder(t: Tree): (r: seq<Node>) {
    match t
    case Empty => []
    case Fork(a, n, b) => InOrder(a) + [n] + InOrder(b)
  }

  /** The fields link the nodes of t in the shape of t, with root r. */
  ghost predicate Shaped(lf: Fields, rt: Fields, r: Node?, t: Tree) {
    match t
    case Empty => r == null
    case Fork(a, n, b) => r == n && n in lf && n in rt && Shaped(lf, rt, lf[n], a) && Shaped(lf, rt, rt[n], b)
  }

  lemma ForkShape(lf: Fields, rt: Fields, r: Node?, a: Tree, n: Node, b: Tree)
    ensures Shaped(lf, rt, r, Fork(a, n, b))
       <==> r == n && n in lf && n in rt && Shaped(lf, rt, lf[n], a) && Shaped(lf, rt, rt[n], b)
  {
  }

  ghost predicate Distinct(s: seq<Node>) {
    forall i, j :: 0 <= i < j < |s| ==> s[i] != s[j]
  }

  ghost predicate SameAt(f: Fields, f': Fields, n: Node) {
    n in f ==> n in f' && f'[n] == f[n]
  }

  /** Fields of other nodes do not matter. */
  lemma {:induction false} ShapedKept(lf: Fields, rt: Fields, lf': Fields, rt': Fields, r: Node?, t: Tree)
    requires Shaped(lf, rt, r, t)
    requires forall n :: n in InOrder(t) ==> SameAt(lf, lf', n) && SameAt(rt, rt', n)
    ensures Shaped(lf', rt', r, t)
  {
    match t
    case Empty =>
    case Fork(a, n, b) =>
      assert n in InOrder(t);
      ShapedKept(lf, rt, lf', rt', lf[n], a);
      ShapedKept(lf, rt, lf', rt', rt[n], b);
  }

  // ----- spines: trees with a hole ---------------------------------------------------------------------------

  /** A node of a spine with the subtree on its outer side. */
  datatype Link = Link(node: Node, side: Tree)

  /** The node whose field is the hole. */
  ghost function End(dummy: Node, s: seq<Link>): Node {
    if s == [] then dummy else s[|s| - 1].node
  }

  /** The left tree of the algorithm: from dummy on, right fields lead from node to node; what hangs
      on the left of each is its side. The right field of the last is the hole. */
  ghost predicate LeftSpine(lf: Fields, rt: Fields, dummy: Node, s: seq<Link>) {
    forall k {:trigger s[k]} :: 0 <= k < |s| ==> LeftLink(lf, rt, dummy, s, k)
  }

  ghost predicate LeftLink(lf: Fields, rt: Fields, dummy: Node, s: seq<Link>, k: int)
    requires 0 <= k < |s|
  {
    && End(dummy, s[..k]) in rt && rt[End(dummy, s[..k])] == s[k].node
    && s[k].node in lf && Shaped(lf, rt, lf[s[k].node], s[k].side)
  }

  ghost predicate RightSpine(lf: Fields, rt: Fields, dummy: Node, s: seq<Link>) {
    forall k {:trigger s[k]} :: 0 <= k < |s| ==> RightLink(lf, rt, dummy, s, k)
  }

  ghost predicate RightLink(lf: Fields, rt: Fields, dummy: Node, s: seq<Link>, k: int)
    requires 0 <= k < |s|
  {
    && End(dummy, s[..k]) in lf && lf[End(dummy, s[..k])] == s[k].node
    && s[k].node in rt && Shaped(lf, rt, rt[s[k].node], s[k].side)
  }

  /** The nodes of a left spine in order. */
  ghost function LeftOrder(s: seq<Link>): (r: seq<Node>) {
    if s == [] then [] else LeftOrder(s[..|s| - 1]) + InOrder(s[|s| - 1].side) + [s[|s| - 1].node]
  }

  ghost function RightOrder(s: seq<Link>): (r: seq<Node>) {
    if s == [] then [] else [s[|s| - 1].node] + InOrder(s[|s| - 1].side) + RightOrder(s[..|s| - 1])
  }

  /** A left spine with its hole filled. */
  ghost function FillLeft(s: seq<Link>, t: Tree): (r: Tree) {
    if s == [] then t else FillLeft(s[..|s| - 1], Fork(s[|s| - 1].side, s[|s| - 1].node, t))
  }

  ghost function FillRight(s: seq<Link>, t: Tree): (r: Tree) {
    if s == [] then t else FillRight(s[..|s| - 1], Fork(t, s[|s| - 1].node, s[|s| - 1].side))
  }

  lemma {:induction false} FillLeftOrder(s: seq<Link>, t: Tree)
    ensures InOrder(FillLeft(s, t)) == LeftOrder(s) + InOrder(t)
    decreases |s|
  {
    if s != [] {
      var l := s[|s| - 1];
      FillLeftOrder(s[..|s| - 1], Fork(l.side, l.node, t));
    }
  }

  lemma {:induction false} FillRightOrder(s: seq<Link>, t: Tree)
    ensures InOrder(FillRight(s, t)) == InOrder(t) + RightOrder(s)
    decreases |s|
  {
    if s != [] {
      var l := s[|s| - 1];
      FillRightOrder(s[..|s| - 1], Fork(t, l.node, l.side));
    }
  }

  lemma SpinePrefix(lf: Fields, rt: Fields, dummy: Node, s: seq<Link>, m: nat)
    requires m <= |s|
    ensures LeftSpine(lf, rt, dummy, s) ==> LeftSpine(lf, rt, dummy, s[..m])
    ensures RightSpine(lf, rt, dummy, s) ==> RightSpine(lf, rt, dummy, s[..m])
  {
    hide Shaped;
    var p := s[..m];
    if LeftSpine(lf, rt, dummy, s) {
      forall k | 0 <= k < |p| ensures LeftLink(lf, rt, dummy, p, k) {
        assert p[k] == s[k] && p[..k] == s[..k];
      }
    }
    if RightSpine(lf, rt, dummy, s) {
      forall k | 0 <= k < |p| ensures RightLink(lf, rt, dummy, p, k) {
        assert p[k] == s[k] && p[..k] == s[..k];
      }
    }
  }

  /** When the hole is filled with a tree, dummy's right field leads to the whole. */
  lemma {:induction false} LeftFilled(lf: Fields, rt: Fields, dummy: Node, s: seq<Link>, t: Tree)
    requires LeftSpine(lf, rt, dummy, s) && End(dummy, s) in rt && Shaped(lf, rt, rt[End(dummy, s)], t)
    ensures dummy in rt && Shaped(lf, rt, rt[dummy], FillLeft(s, t))
    decreases |s|
  {
    if s != [] {
      var m := |s| - 1;
      assert LeftLink(lf, rt, dummy, s, m);
      SpinePrefix(lf, rt, dummy, s, m);
      LeftFilled(lf, rt, dummy, s[..m], Fork(s[m].side, s[m].node, t));
    }
  }

  lemma {:induction false} RightFilled(lf: Fields, rt: Fields, dummy: Node, s: seq<Link>, t: Tree)
    requires RightSpine(lf, rt, dummy, s) && End(dummy, s) in lf && Shaped(lf, rt, lf[End(dummy, s)], t)
    ensures dummy in lf && Shaped(lf, rt, lf[dummy], FillRight(s, t))
    decreases |s|
  {
    if s != [] {
      var m := |s| - 1;
      assert RightLink(lf, rt, dummy, s, m);
      SpinePrefix(lf, rt, dummy, s, m);
      RightFilled(lf, rt, dummy, s[..m], Fork(t, s[m].node, s[m].side));
    }
  }
}
