/** What one step of the top-down splay does to the pieces it works on: the left tree with the nodes
    known to be smaller than the key, the current subtree, and the right tree with the larger ones. A
    step moves nodes between the pieces and keeps their order. */
module SplaySteps {
  import opened SplayShapes

  lemma DistinctParts(s: seq<Node>, t: seq<Node>)
    requires Distinct(s + t)
    ensures Distinct(s) && Distinct(t) && forall n :: n in s ==> n !in t
  {
    assert s == (s + t)[..|s|] && t == (s + t)[|s|..];
    forall i, j | 0 <= i < |s| && 0 <= j < |t| ensures s[i] != t[j] {
      assert (s + t)[i] == s[i] && (s + t)[|s| + j] == t[j];
    }
  }

  /** The links of a left spine are in its order, and its last node is nowhere else. */
  lemma {:induction false} LeftParts(s: seq<Link>, k: nat)
    requires k < |s| && Distinct(LeftOrder(s))
    ensures s[k].node in LeftOrder(s) && forall n :: n in InOrder(s[k].side) ==> n in LeftOrder(s)
    ensures s[|s| - 1].node !in InOrder(s[k].side) && (k < |s| - 1 ==> s[k].node != s[|s| - 1].node)
    decreases |s|
  {
    var m := |s| - 1;
    var rest, last := LeftOrder(s[..m]), InOrder(s[m].side) + [s[m].node];
    assert LeftOrder(s) == rest + last;
    DistinctParts(rest, last);
    DistinctParts(InOrder(s[m].side), [s[m].node]);
    assert s[m].node in last && s[m].node in [s[m].node];
    if k < m {
      LeftParts(s[..m], k);
    }
  }

  lemma {:induction false} RightParts(s: seq<Link>, k: nat)
    requires k < |s| && Distinct(RightOrder(s))
    ensures s[k].node in RightOrder(s) && forall n :: n in InOrder(s[k].side) ==> n in RightOrder(s)
    ensures s[|s| - 1].node !in InOrder(s[k].side) && (k < |s| - 1 ==> s[k].node != s[|s| - 1].node)
    decreases |s|
  {
    var m := |s| - 1;
    var rest, last := RightOrder(s[..m]), [s[m].node] + InOrder(s[m].side);
    assert RightOrder(s) == last + rest;
    DistinctParts(last, rest);
    DistinctParts([s[m].node], InOrder(s[m].side));
    assert s[m].node in last && s[m].node in [s[m].node];
    if k < m {
      RightParts(s[..m], k);
    }
  }

  /** A left spine does not depend on the hole, nor on fields of other nodes. */
  lemma LeftKept(lf: Fields, rt: Fields, lf': Fields, rt': Fields, dummy: Node, s: seq<Link>)
    requires LeftSpine(lf, rt, dummy, s) && Distinct(LeftOrder(s)) && dummy !in LeftOrder(s)
    requires forall n :: n in LeftOrder(s) ==> SameAt(lf, lf', n)
    requires forall n :: (n in LeftOrder(s) || n == dummy) && n != End(dummy, s) ==> SameAt(rt, rt', n)
    ensures LeftSpine(lf', rt', dummy, s)
  {
    hide Shaped, Distinct;
    forall k | 0 <= k < |s| ensures LeftLink(lf', rt', dummy, s, k) {
      assert LeftLink(lf, rt, dummy, s, k);
      LeftParts(s, k);
      if k > 0 {
        LeftParts(s, k - 1);
      }
      assert s[..k] == [] || s[..k][|s[..k]| - 1] == s[k - 1];
      assert SameAt(rt, rt', End(dummy, s[..k]));
      ShapedKept(lf, rt, lf', rt', lf[s[k].node], s[k].side);
    }
  }

  lemma RightKept(lf: Fields, rt: Fields, lf': Fields, rt': Fields, dummy: Node, s: seq<Link>)
    requires RightSpine(lf, rt, dummy, s) && Distinct(RightOrder(s)) && dummy !in RightOrder(s)
    requires forall n :: n in RightOrder(s) ==> SameAt(rt, rt', n)
    requires forall n :: (n in RightOrder(s) || n == dummy) && n != End(dummy, s) ==> SameAt(lf, lf', n)
    ensures RightSpine(lf', rt', dummy, s)
  {
    hide Shaped, Distinct;
    forall k | 0 <= k < |s| ensures RightLink(lf', rt', dummy, s, k) {
      assert RightLink(lf, rt, dummy, s, k);
      RightParts(s, k);
      if k > 0 {
        RightParts(s, k - 1);
      }
      assert s[..k] == [] || s[..k][|s[..k]| - 1] == s[k - 1];
      assert SameAt(lf, lf', End(dummy, s[..k]));
      ShapedKept(lf, rt, lf', rt', rt[s[k].node], s[k].side);
    }
  }

  // ----- the pieces ------------------------------------------------------------------------------------------------

  /** The left tree, the current subtree and the right tree, which together are all the nodes in order. */
  datatype Pieces = Pieces(dummy: Node, left: seq<Link>, tree: Tree, right: seq<Link>) {
    ghost function Order(): (r: seq<Node>) {
      LeftOrder(left) + InOrder(tree) + RightOrder(right)
    }

    ghost predicate Hold(lf: Fields, rt: Fields, current: Node?) {
      && LeftSpine(lf, rt, dummy, left) && RightSpine(lf, rt, dummy, right) && Shaped(lf, rt, current, tree)
      && Distinct(Order()) && dummy !in Order() && dummy in lf && dummy in rt
      && (forall n :: n in Order() ==> n in lf && n in rt)
    }
  }

  lemma OrderParts(p: Pieces)
    requires Distinct(p.Order())
    ensures Distinct(LeftOrder(p.left)) && Distinct(InOrder(p.tree)) && Distinct(RightOrder(p.right))
    ensures forall n :: n in LeftOrder(p.left) ==> n !in InOrder(p.tree) && n !in RightOrder(p.right)
    ensures forall n :: n in InOrder(p.tree) ==> n !in RightOrder(p.right)
  {
    DistinctParts(LeftOrder(p.left) + InOrder(p.tree), RightOrder(p.right));
    DistinctParts(LeftOrder(p.left), InOrder(p.tree));
  }

  lemma EndIsThere(p: Pieces)
    ensures End(p.dummy, p.left) == p.dummy || End(p.dummy, p.left) in LeftOrder(p.left)
    ensures End(p.dummy, p.right) == p.dummy || End(p.dummy, p.right) in RightOrder(p.right)
  {
  }

  /** Writing the hole of the right tree leaves both spines as they are. */
  lemma RightHole(p: Pieces, lf: Fields, rt: Fields, current: Node?, y: Node)
    requires p.Hold(lf, rt, current)
    ensures LeftSpine(lf[End(p.dummy, p.right) := y], rt, p.dummy, p.left)
    ensures RightSpine(lf[End(p.dummy, p.right) := y], rt, p.dummy, p.right)
    ensures End(p.dummy, p.right) == p.dummy || End(p.dummy, p.right) in RightOrder(p.right)
  {
    hide Shaped, LeftSpine, RightSpine, Distinct, LeftOrder, RightOrder, InOrder;
    var lf' := lf[End(p.dummy, p.right) := y];
    OrderParts(p);
    EndIsThere(p);
    LeftKept(lf, rt, lf', rt, p.dummy, p.left);
    RightKept(lf, rt, lf', rt, p.dummy, p.right);
  }

  lemma LeftHole(p: Pieces, lf: Fields, rt: Fields, current: Node?, y: Node)
    requires p.Hold(lf, rt, current)
    ensures LeftSpine(lf, rt[End(p.dummy, p.left) := y], p.dummy, p.left)
    ensures RightSpine(lf, rt[End(p.dummy, p.left) := y], p.dummy, p.right)
    ensures End(p.dummy, p.left) == p.dummy || End(p.dummy, p.left) in LeftOrder(p.left)
  {
    hide Shaped, LeftSpine, RightSpine, Distinct, LeftOrder, RightOrder, InOrder;
    var rt' := rt[End(p.dummy, p.left) := y];
    OrderParts(p);
    EndIsThere(p);
    LeftKept(lf, rt, lf, rt', p.dummy, p.left);
    RightKept(lf, rt, lf, rt', p.dummy, p.right);
  }

  /** Writing fields of the current subtree leaves both spines as they are. */
  lemma InsideWritten(p: Pieces, lf: Fields, rt: Fields, current: Node?, lf': Fields, rt': Fields)
    requires p.Hold(lf, rt, current)
    requires forall n :: n !in InOrder(p.tree) ==> SameAt(lf, lf', n) && SameAt(rt, rt', n)
    ensures LeftSpine(lf', rt', p.dummy, p.left) && RightSpine(lf', rt', p.dummy, p.right)
  {
    hide Shaped, LeftSpine, RightSpine, Distinct, LeftOrder, RightOrder, InOrder;
    OrderParts(p);
    EndIsThere(p);
    LeftKept(lf, rt, lf', rt', p.dummy, p.left);
    RightKept(lf, rt, lf', rt', p.dummy, p.right);
  }

  /** Rotating at the current node, its left child x up. */
  lemma RotatesRight(p: Pieces, lf: Fields, rt: Fields, y: Node, x: Node, a: Tree, b: Tree, c: Tree)
    requires p.Hold(lf, rt, y) && p.tree == Fork(Fork(a, x, b), y, c)
    ensures x in rt && y in lf && lf[y] == x
    ensures p.(tree := Fork(a, x, Fork(b, y, c))).Hold(lf[y := rt[x]], rt[x := y], x)
    ensures p.(tree := Fork(a, x, Fork(b, y, c))).Order() == p.Order()
  {
    hide Shaped, LeftSpine, RightSpine, Distinct;
    ForkShape(lf, rt, y, Fork(a, x, b), y, c);
    ForkShape(lf, rt, lf[y], a, x, b);
    var q, lf', rt' := p.(tree := Fork(a, x, Fork(b, y, c))), lf[y := rt[x]], rt[x := y];
    assert InOrder(q.tree) == InOrder(p.tree);
    OrderParts(p);
    assert x in InOrder(p.tree) && y in InOrder(p.tree);
    RotatedShape(lf, rt, y, x, a, b, c);
    InsideWritten(p, lf, rt, y, lf', rt');
  }

  lemma RotatedShape(lf: Fields, rt: Fields, y: Node, x: Node, a: Tree, b: Tree, c: Tree)
    requires Shaped(lf, rt, y, Fork(Fork(a, x, b), y, c)) && Distinct(InOrder(Fork(Fork(a, x, b), y, c)))
    ensures x in rt && Shaped(lf[y := rt[x]], rt[x := y], x, Fork(a, x, Fork(b, y, c)))
  {
    hide Shaped, Distinct;
    ForkShape(lf, rt, y, Fork(a, x, b), y, c);
    ForkShape(lf, rt, lf[y], a, x, b);
    var lf', rt' := lf[y := rt[x]], rt[x := y];
    TreeParts(a, x, b, y, c);
    ShapedKept(lf, rt, lf', rt', lf[x], a);
    ShapedKept(lf, rt, lf', rt', rt[x], b);
    ShapedKept(lf, rt, lf', rt', rt[y], c);
    ForkShape(lf', rt', y, b, y, c);
    ForkShape(lf', rt', x, a, x, Fork(b, y, c));
  }

  /** Rotating at the current node, its right child x up. */
  lemma RotatesLeft(p: Pieces, lf: Fields, rt: Fields, y: Node, x: Node, a: Tree, b: Tree, c: Tree)
    requires p.Hold(lf, rt, y) && p.tree == Fork(a, y, Fork(b, x, c))
    ensures x in lf && y in rt && rt[y] == x
    ensures p.(tree := Fork(Fork(a, y, b), x, c)).Hold(lf[x := y], rt[y := lf[x]], x)
    ensures p.(tree := Fork(Fork(a, y, b), x, c)).Order() == p.Order()
  {
    hide Shaped, LeftSpine, RightSpine, Distinct;
    ForkShape(lf, rt, y, a, y, Fork(b, x, c));
    ForkShape(lf, rt, rt[y], b, x, c);
    var q, lf', rt' := p.(tree := Fork(Fork(a, y, b), x, c)), lf[x := y], rt[y := lf[x]];
    assert InOrder(q.tree) == InOrder(p.tree);
    OrderParts(p);
    assert x in InOrder(p.tree) && y in InOrder(p.tree);
    RotatedLeftShape(lf, rt, y, x, a, b, c);
    InsideWritten(p, lf, rt, y, lf', rt');
  }

  lemma RotatedLeftShape(lf: Fields, rt: Fields, y: Node, x: Node, a: Tree, b: Tree, c: Tree)
    requires Shaped(lf, rt, y, Fork(a, y, Fork(b, x, c))) && Distinct(InOrder(Fork(a, y, Fork(b, x, c))))
    ensures x in lf && Shaped(lf[x := y], rt[y := lf[x]], x, Fork(Fork(a, y, b), x, c))
  {
    hide Shaped, Distinct;
    ForkShape(lf, rt, y, a, y, Fork(b, x, c));
    ForkShape(lf, rt, rt[y], b, x, c);
    var lf', rt' := lf[x := y], rt[y := lf[x]];
    assert InOrder(Fork(a, y, Fork(b, x, c))) == InOrder(a) + [y] + InOrder(b) + [x] + InOrder(c);
    TreeParts(a, y, b, x, c);
    ShapedKept(lf, rt, lf', rt', lf[y], a);
    ShapedKept(lf, rt, lf', rt', lf[x], b);
    ShapedKept(lf, rt, lf', rt', rt[x], c);
    ForkShape(lf', rt', y, a, y, b);
    ForkShape(lf', rt', x, Fork(a, y, b), x, c);
  }

  /** The current node and its right subtree go to the right tree. */
  lemma LinksRight(p: Pieces, lf: Fields, rt: Fields, y: Node, a: Tree, c: Tree)
    requires p.Hold(lf, rt, y) && p.tree == Fork(a, y, c)
    ensures y in lf && End(p.dummy, p.right) in lf && lf[End(p.dummy, p.right) := y][y] == lf[y]
    ensures Pieces(p.dummy, p.left, a, p.right + [Link(y, c)]).Hold(lf[End(p.dummy, p.right) := y], rt, lf[y])
    ensures Pieces(p.dummy, p.left, a, p.right + [Link(y, c)]).Order() == p.Order()
  {
    hide Shaped, LeftSpine, RightSpine, Distinct;
    var q, e := Pieces(p.dummy, p.left, a, p.right + [Link(y, c)]), End(p.dummy, p.right);
    var lf' := lf[e := y];
    ForkShape(lf, rt, y, a, y, c);
    hide InOrder, LeftOrder, RightOrder, End;
    RightLinkOrder(p, y, a, c);
    OrderParts(p);
    ForkParts(a, y, c);
    ShapedKept(lf, rt, lf', rt, lf[y], a);
    ShapedKept(lf, rt, lf', rt, rt[y], c);
    RightHole(p, lf, rt, y, y);
    RightGrows(lf', rt, p.dummy, p.right, y, c);
  }

  lemma RightLinkOrder(p: Pieces, y: Node, a: Tree, c: Tree)
    requires p.tree == Fork(a, y, c)
    ensures Pieces(p.dummy, p.left, a, p.right + [Link(y, c)]).Order() == p.Order()
  {
    var s := p.right + [Link(y, c)];
    assert s[..|s| - 1] == p.right && s[|s| - 1] == Link(y, c);
    assert RightOrder(s) == [y] + InOrder(c) + RightOrder(p.right);
  }

  lemma LeftLinkOrder(p: Pieces, y: Node, a: Tree, c: Tree)
    requires p.tree == Fork(a, y, c)
    ensures Pieces(p.dummy, p.left + [Link(y, a)], c, p.right).Order() == p.Order()
  {
    var s := p.left + [Link(y, a)];
    assert s[..|s| - 1] == p.left && s[|s| - 1] == Link(y, a);
    assert LeftOrder(s) == LeftOrder(p.left) + InOrder(a) + [y];
  }

  lemma ForkParts(a: Tree, y: Node, c: Tree)
    requires Distinct(InOrder(Fork(a, y, c)))
    ensures y in InOrder(Fork(a, y, c))
      && (forall n :: n in InOrder(a) || n in InOrder(c) ==> n in InOrder(Fork(a, y, c)))
    ensures y !in InOrder(a) && y !in InOrder(c)
  {
    DistinctParts(InOrder(a) + [y], InOrder(c));
    DistinctParts(InOrder(a), [y]);
    assert y in [y];
  }

  lemma RightGrows(lf: Fields, rt: Fields, dummy: Node, s: seq<Link>, y: Node, c: Tree)
    requires RightSpine(lf, rt, dummy, s) && End(dummy, s) in lf && lf[End(dummy, s)] == y && y in rt
      && Shaped(lf, rt, rt[y], c)
    ensures RightSpine(lf, rt, dummy, s + [Link(y, c)])
  {
    hide Shaped;
    var s' := s + [Link(y, c)];
    forall k | 0 <= k < |s'| ensures RightLink(lf, rt, dummy, s', k) {
      if k < |s| {
        assert s'[k] == s[k] && s'[..k] == s[..k];
        assert RightLink(lf, rt, dummy, s, k);
      } else {
        assert s'[..k] == s;
      }
    }
  }

  /** The current node and its left subtree go to the left tree. */
  lemma LinksLeft(p: Pieces, lf: Fields, rt: Fields, y: Node, a: Tree, c: Tree)
    requires p.Hold(lf, rt, y) && p.tree == Fork(a, y, c)
    ensures y in rt && End(p.dummy, p.left) in rt && rt[End(p.dummy, p.left) := y][y] == rt[y]
    ensures Pieces(p.dummy, p.left + [Link(y, a)], c, p.right).Hold(lf, rt[End(p.dummy, p.left) := y], rt[y])
    ensures Pieces(p.dummy, p.left + [Link(y, a)], c, p.right).Order() == p.Order()
  {
    hide Shaped, LeftSpine, RightSpine, Distinct;
    var q, e := Pieces(p.dummy, p.left + [Link(y, a)], c, p.right), End(p.dummy, p.left);
    var rt' := rt[e := y];
    ForkShape(lf, rt, y, a, y, c);
    hide InOrder, LeftOrder, RightOrder, End;
    LeftLinkOrder(p, y, a, c);
    OrderParts(p);
    ForkParts(a, y, c);
    ShapedKept(lf, rt, lf, rt', lf[y], a);
    ShapedKept(lf, rt, lf, rt', rt[y], c);
    LeftHole(p, lf, rt, y, y);
    LeftGrows(lf, rt', p.dummy, p.left, y, a);
  }

  lemma LeftGrows(lf: Fields, rt: Fields, dummy: Node, s: seq<Link>, y: Node, a: Tree)
    requires LeftSpine(lf, rt, dummy, s) && End(dummy, s) in rt && rt[End(dummy, s)] == y && y in lf
      && Shaped(lf, rt, lf[y], a)
    ensures LeftSpine(lf, rt, dummy, s + [Link(y, a)])
  {
    hide Shaped;
    var s' := s + [Link(y, a)];
    forall k | 0 <= k < |s'| ensures LeftLink(lf, rt, dummy, s', k) {
      if k < |s| {
        assert s'[k] == s[k] && s'[..k] == s[..k];
        assert LeftLink(lf, rt, dummy, s, k);
      } else {
        assert s'[..k] == s;
      }
    }
  }

  lemma TreeParts(a: Tree, x: Node, b: Tree, y: Node, c: Tree)
    requires Distinct(InOrder(a) + [x] + InOrder(b) + [y] + InOrder(c))
    ensures x != y && x !in InOrder(a) && x !in InOrder(b) && x !in InOrder(c) && y !in InOrder(a) && y !in InOrder(b)
      && y !in InOrder(c)
  {
    DistinctParts(InOrder(a) + [x] + InOrder(b) + [y], InOrder(c));
    DistinctParts(InOrder(a) + [x] + InOrder(b), [y]);
    DistinctParts(InOrder(a) + [x], InOrder(b));
    DistinctParts(InOrder(a), [x]);
    assert x in [x] && y in [y];
  }

  /** Putting the pieces together: the left tree on the left of the current node, the right tree on
      its right. */
  lemma Assembles(p: Pieces, lf: Fields, rt: Fields, cur: Node, a: Tree, b: Tree, lf1: Fields, rt1: Fields)
    requires p.Hold(lf, rt, cur) && p.tree == Fork(a, cur, b) && cur in lf && cur in rt
    requires rt1 == rt[End(p.dummy, p.left) := lf[cur]] && lf1 == lf[End(p.dummy, p.right) := rt[cur]]
    ensures p.dummy in lf1 && p.dummy in rt1
    ensures Shaped(lf1[cur := rt1[p.dummy]], rt1[cur := lf1[p.dummy]], cur,
                   Fork(FillLeft(p.left, a), cur, FillRight(p.right, b)))
    ensures InOrder(Fork(FillLeft(p.left, a), cur, FillRight(p.right, b))) == p.Order()
  {
    hide Shaped, LeftSpine, RightSpine, Distinct, InOrder, LeftOrder, RightOrder;
    HalvesFilled(p, lf, rt, cur, a, b, lf1, rt1);
    var l, r := FillLeft(p.left, a), FillRight(p.right, b);
    var lf2, rt2 := lf1[cur := rt1[p.dummy]], rt1[cur := lf1[p.dummy]];
    AssembledOrder(p, cur, a, b);
    ForkParts(l, cur, r);
    ShapedKept(lf1, rt1, lf2, rt2, rt1[p.dummy], l);
    ShapedKept(lf1, rt1, lf2, rt2, lf1[p.dummy], r);
    ForkShape(lf2, rt2, cur, l, cur, r);
  }

  lemma AssembledOrder(p: Pieces, cur: Node, a: Tree, b: Tree)
    requires p.tree == Fork(a, cur, b)
    ensures InOrder(Fork(FillLeft(p.left, a), cur, FillRight(p.right, b))) == p.Order()
  {
    FillLeftOrder(p.left, a);
    FillRightOrder(p.right, b);
  }

  lemma HalvesFilled(p: Pieces, lf: Fields, rt: Fields, cur: Node, a: Tree, b: Tree, lf1: Fields, rt1: Fields)
    requires p.Hold(lf, rt, cur) && p.tree == Fork(a, cur, b) && cur in lf && cur in rt
    requires rt1 == rt[End(p.dummy, p.left) := lf[cur]] && lf1 == lf[End(p.dummy, p.right) := rt[cur]]
    ensures p.dummy in lf1 && p.dummy in rt1
    ensures Shaped(lf1, rt1, rt1[p.dummy], FillLeft(p.left, a)) && Shaped(lf1, rt1, lf1[p.dummy], FillRight(p.right, b))
  {
    hide Shaped, LeftSpine, RightSpine, Distinct, InOrder, LeftOrder, RightOrder;
    OrderParts(p);
    EndIsThere(p);
    ForkParts(a, cur, b);
    ForkShape(lf, rt, cur, a, cur, b);
    LeftKept(lf, rt, lf1, rt1, p.dummy, p.left);
    RightKept(lf, rt, lf1, rt1, p.dummy, p.right);
    ShapedKept(lf, rt, lf1, rt1, lf[cur], a);
    ShapedKept(lf, rt, lf1, rt1, rt[cur], b);
    LeftFilled(lf1, rt1, p.dummy, p.left, a);
    RightFilled(lf1, rt1, p.dummy, p.right, b);
  }
}
