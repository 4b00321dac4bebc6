/** The splay tree: a map kept as a search tree that each operation rearranges. Splaying keeps the
    nodes in order and brings the key, or one next to it, to the root. */
module SplayTrees {
  import opened SplayShapes
  import opened SplaySteps

  ghost predicate Sorted(s: seq<Node>) {
    forall i, j :: 0 <= i < j < |s| ==> s[i].key < s[j].key
  }

  /** The map that a list of nodes in order stands for. */
  ghost function MapOf(s: seq<Node>): (m: map<int, string>)
    requires Sorted(s)
  {
    SortedKeys(s);
    map n | n in s :: n.key := n.value
  }

  lemma SortedKeys(s: seq<Node>)
    requires Sorted(s)
    ensures Distinct(s) && forall n, m :: n in s && m in s && n.key == m.key ==> n == m
  {
    forall n, m | n in s && m in s && n.key == m.key ensures n == m {
      var i, j :| 0 <= i < |s| && 0 <= j < |s| && s[i] == n && s[j] == m;
      assert !(i < j) && !(j < i);
    }
  }

  /** In a search tree the keys on the left of a node are smaller, those on its right larger. */
  lemma SortedAround(s: seq<Node>, n: Node, t: seq<Node>)
    requires Sorted(s + [n] + t)
    ensures Sorted(s) && Sorted(t)
    ensures (forall x :: x in s ==> x.key < n.key) && (forall x :: x in t ==> x.key > n.key)
  {
    var u := s + [n] + t;
    forall i, j | 0 <= i < j < |s| ensures s[i].key < s[j].key {
      assert u[i] == s[i] && u[j] == s[j];
    }
    forall i, j | 0 <= i < j < |t| ensures t[i].key < t[j].key {
      assert u[|s| + 1 + i] == t[i] && u[|s| + 1 + j] == t[j];
    }
    forall x | x in s ensures x.key < n.key {
      var i :| 0 <= i < |s| && s[i] == x;
      assert u[i] == x && u[|s|] == n;
    }
    forall x | x in t ensures x.key > n.key {
      var i :| 0 <= i < |t| && t[i] == x;
      assert u[|s| + 1 + i] == x && u[|s|] == n;
    }
  }

  // ----- the moves of the algorithm ----------------------------------------------------------------------------

  /** S are the nodes whose fields the pieces live in. */
  ghost predicate InPlace(p: Pieces, S: set<Node>, current: Node?, all: seq<Node>)
    reads S
  {
    p.Hold(Lefts(S), Rights(S), current) && p.Order() == all
  }

  method RotateRight(ghost p: Pieces, ghost S: set<Node>, ghost all: seq<Node>, y: Node)
    returns (x: Node, ghost q: Pieces)
    requires InPlace(p, S, y, all) && p.tree.Fork? && y in S && y.left != null
    modifies S
    ensures InPlace(q, S, x, all) && x == old(y.left) && x in S && q == p.(tree := q.tree)
    ensures p.tree.left.Fork? && q.tree == Fork(p.tree.left.left, x, Fork(p.tree.left.right, y, p.tree.right))
  {
    hide Pieces.Hold, Shaped;
    ghost var lf, rt := Lefts(S), Rights(S);
    TopFork(p, lf, rt, y);
    ForkShape(lf, rt, y, p.tree.left, y, p.tree.right);
    ChildFork(lf, rt, lf[y], p.tree.left);
    x := y.left;
    ghost var a, b, c := p.tree.left.left, p.tree.left.right, p.tree.right;
    RotatesRight(p, lf, rt, y, x, a, b, c);
    y.left := x.right;
    x.right := y;
    assert Lefts(S) == lf[y := rt[x]] && Rights(S) == rt[x := y];
    q := p.(tree := Fork(a, x, Fork(b, y, c)));
  }

  lemma TopFork(p: Pieces, lf: Fields, rt: Fields, y: Node)
    requires p.Hold(lf, rt, y)
    ensures p.tree.Fork? && p.tree.node == y && Shaped(lf, rt, y, Fork(p.tree.left, y, p.tree.right))
  {
  }

  lemma ChildFork(lf: Fields, rt: Fields, r: Node?, t: Tree)
    requires Shaped(lf, rt, r, t)
    ensures (r != null <==> t.Fork?) && (t.Fork? ==> t.node == r && r in lf && r in rt)
  {
  }

  method RotateLeft(ghost p: Pieces, ghost S: set<Node>, ghost all: seq<Node>, y: Node)
    returns (x: Node, ghost q: Pieces)
    requires InPlace(p, S, y, all) && p.tree.Fork? && y in S && y.right != null
    modifies S
    ensures InPlace(q, S, x, all) && x == old(y.right) && x in S && q == p.(tree := q.tree)
    ensures p.tree.right.Fork? && q.tree == Fork(Fork(p.tree.left, y, p.tree.right.left), x, p.tree.right.right)
  {
    hide Pieces.Hold, Shaped;
    ghost var lf, rt := Lefts(S), Rights(S);
    TopFork(p, lf, rt, y);
    ForkShape(lf, rt, y, p.tree.left, y, p.tree.right);
    ChildFork(lf, rt, rt[y], p.tree.right);
    x := y.right;
    ghost var a, b, c := p.tree.left, p.tree.right.left, p.tree.right.right;
    RotatesLeft(p, lf, rt, y, x, a, b, c);
    y.right := x.left;
    x.left := y;
    assert Lefts(S) == lf[x := y] && Rights(S) == rt[y := lf[x]];
    q := p.(tree := Fork(Fork(a, y, b), x, c));
  }

  /** The current node becomes the left child of the last of the right tree. */
  method LinkRight(ghost p: Pieces, ghost S: set<Node>, ghost all: seq<Node>, right: Node, y: Node)
    returns (current: Node?, ghost q: Pieces)
    requires InPlace(p, S, y, all) && p.tree.Fork? && right in S && y in S && right == End(p.dummy, p.right)
    modifies S
    ensures InPlace(q, S, current, all) && p.tree.node == y && (y.left == old(y.left) == current)
    ensures q == Pieces(p.dummy, p.left, p.tree.left, p.right + [Link(y, p.tree.right)])
  {
    hide Pieces.Hold, Shaped;
    ghost var lf, rt := Lefts(S), Rights(S);
    TopFork(p, lf, rt, y);
    LinksRight(p, lf, rt, y, p.tree.left, p.tree.right);
    right.left := y;
    assert Lefts(S) == lf[right := y] && Rights(S) == rt;
    current := y.left;
    q := Pieces(p.dummy, p.left, p.tree.left, p.right + [Link(y, p.tree.right)]);
  }

  /** The current node becomes the right child of the last of the left tree. */
  method LinkLeft(ghost p: Pieces, ghost S: set<Node>, ghost all: seq<Node>, left: Node, y: Node)
    returns (current: Node?, ghost q: Pieces)
    requires InPlace(p, S, y, all) && p.tree.Fork? && left in S && y in S && left == End(p.dummy, p.left)
    modifies S
    ensures InPlace(q, S, current, all) && p.tree.node == y && (y.right == old(y.right) == current)
    ensures q == Pieces(p.dummy, p.left + [Link(y, p.tree.left)], p.tree.right, p.right)
  {
    hide Pieces.Hold, Shaped;
    ghost var lf, rt := Lefts(S), Rights(S);
    TopFork(p, lf, rt, y);
    LinksLeft(p, lf, rt, y, p.tree.left, p.tree.right);
    left.right := y;
    assert Rights(S) == rt[left := y] && Lefts(S) == lf;
    current := y.right;
    q := Pieces(p.dummy, p.left + [Link(y, p.tree.left)], p.tree.right, p.right);
  }

  /** The pieces become one tree with the current node as its root. */
  method Assemble(ghost p: Pieces, ghost S: set<Node>, ghost all: seq<Node>, dummy: Node, left: Node, right: Node,
    current: Node)
    returns (ghost t: Tree)
    requires InPlace(p, S, current, all) && p.tree.Fork? && {dummy, left, right, current} <= S
    requires dummy == p.dummy && left == End(p.dummy, p.left) && right == End(p.dummy, p.right)
    modifies S
    ensures Shaped(Lefts(S), Rights(S), current, t) && InOrder(t) == all
    ensures t == Fork(FillLeft(p.left, p.tree.left), current, FillRight(p.right, p.tree.right))
  {
    hide Pieces.Hold, Shaped, FillLeft, FillRight, End, InOrder, Lefts, Rights;
    ghost var lf, rt := Lefts(S), Rights(S);
    ghost var a, b := p.tree.left, p.tree.right;
    TopFork(p, lf, rt, current);
    Apart(p, lf, rt, current);
    FieldsOf(S, current);
    SetRight(left, current.left, S);
    SetLeft(right, current.right, S);
    ghost var lf1, rt1 := Lefts(S), Rights(S);
    Assembles(p, lf, rt, current, a, b, lf1, rt1);
    FieldsOf(S, dummy);
    SetLeft(current, dummy.right, S);
    SetRight(current, dummy.left, S);
    t := Fork(FillLeft(p.left, a), current, FillRight(p.right, b));
  }

  /** The current node is none of the others. */
  lemma Apart(p: Pieces, lf: Fields, rt: Fields, current: Node)
    requires p.Hold(lf, rt, current)
    ensures current in lf && current in rt && current != p.dummy
    ensures current != End(p.dummy, p.left) && current != End(p.dummy, p.right)
  {
    TopFork(p, lf, rt, current);
    OrderParts(p);
    EndIsThere(p);
    assert current in InOrder(p.tree);
  }

  // ----- the search --------------------------------------------------------------------------------------------------

  /** The left tree has smaller keys, the right tree larger ones. */
  ghost predicate Sides(p: Pieces, key: int) {
    (forall n :: n in LeftOrder(p.left) ==> n.key < key) && (forall n :: n in RightOrder(p.right) ==> n.key > key)
  }

  /** The root has the key, or else no key of the tree is between the two. */
  ghost predicate Near(t: Tree, key: int) {
    t.Fork? && (|| t.node.key == key
                || (t.node.key > key && forall n :: n in InOrder(t.left) ==> n.key < key)
                || (t.node.key < key && forall n :: n in InOrder(t.right) ==> n.key > key))
  }

  /** The search is over: the key is found or there is nowhere to go. */
  ghost predicate AtEnd(t: Tree, key: int) {
    t.Fork? && (t.node.key == key || (t.node.key > key && t.left.Empty?) || (t.node.key < key && t.right.Empty?))
  }

  lemma SortedPieces(p: Pieces, a: Tree, y: Node, c: Tree)
    requires Sorted(p.Order()) && p.tree == Fork(a, y, c)
    ensures (forall n :: n in InOrder(a) ==> n.key < y.key) && (forall n :: n in InOrder(c) ==> n.key > y.key)
  {
    var s, t := LeftOrder(p.left) + InOrder(a), InOrder(c) + RightOrder(p.right);
    assert p.Order() == s + [y] + t;
    SortedAround(s, y, t);
  }

  lemma SidesRight(p: Pieces, key: int)
    requires Sides(p, key) && Sorted(p.Order()) && p.tree.Fork? && key < p.tree.node.key
    ensures Sides(Pieces(p.dummy, p.left, p.tree.left, p.right + [Link(p.tree.node, p.tree.right)]), key)
  {
    hide Sorted;
    SortedPieces(p, p.tree.left, p.tree.node, p.tree.right);
    var s := p.right + [Link(p.tree.node, p.tree.right)];
    assert s[..|s| - 1] == p.right;
    assert RightOrder(s) == [p.tree.node] + InOrder(p.tree.right) + RightOrder(p.right);
  }

  lemma SidesLeft(p: Pieces, key: int)
    requires Sides(p, key) && Sorted(p.Order()) && p.tree.Fork? && key > p.tree.node.key
    ensures Sides(Pieces(p.dummy, p.left + [Link(p.tree.node, p.tree.left)], p.tree.right, p.right), key)
  {
    hide Sorted;
    SortedPieces(p, p.tree.left, p.tree.node, p.tree.right);
    var s := p.left + [Link(p.tree.node, p.tree.left)];
    assert s[..|s| - 1] == p.left;
    assert LeftOrder(s) == LeftOrder(p.left) + InOrder(p.tree.left) + [p.tree.node];
  }

  lemma EndsNear(p: Pieces, key: int, t: Tree)
    requires Sides(p, key) && AtEnd(p.tree, key)
    requires t == Fork(FillLeft(p.left, p.tree.left), p.tree.node, FillRight(p.right, p.tree.right))
    ensures Near(t, key)
  {
    FillLeftOrder(p.left, p.tree.left);
    FillRightOrder(p.right, p.tree.right);
  }

  lemma CurrentIn(p: Pieces, S: set<Node>, current: Node?, all: seq<Node>)
    requires InPlace(p, S, current, all)
    ensures current != null <==> p.tree.Fork?
    ensures current != null ==> p.tree.node == current && current in S
    ensures current != null ==> (current.left != null <==> p.tree.left.Fork?) && (current.right != null <==> p.tree.right.Fork?)
    ensures current != null && current.left != null ==> p.tree.left.node == current.left
    ensures current != null && current.right != null ==> p.tree.right.node == current.right
  {
    hide LeftSpine, RightSpine, Pieces.Order, Distinct, InOrder, Shaped;
    var lf, rt := Lefts(S), Rights(S);
    ChildFork(lf, rt, current, p.tree);
    if current != null {
      ForkShape(lf, rt, current, p.tree.left, current, p.tree.right);
      ChildFork(lf, rt, lf[current], p.tree.left);
      ChildFork(lf, rt, rt[current], p.tree.right);
    }
  }

  ghost function Size(t: Tree): nat {
    if t.Empty? then 0 else Size(t.left) + 1 + Size(t.right)
  }

  /** One turn of the search when the key is smaller than the current one's. */
  method TurnRight(ghost p: Pieces, ghost S: set<Node>, ghost all: seq<Node>, key: int, right: Node, y: Node)
    returns (right': Node, current: Node, done: bool, ghost q: Pieces)
    requires InPlace(p, S, y, all) && right in S && right == End(p.dummy, p.right)
    requires Sides(p, key) && Sorted(all) && key < y.key
    modifies S
    ensures InPlace(q, S, current, all) && right' in S && right' == End(q.dummy, q.right) && current in S
    ensures Sides(q, key) && q.dummy == p.dummy && q.left == p.left && q.tree.Fork? && q.tree.node == current
    ensures if done then AtEnd(q.tree, key) else Size(q.tree) < Size(p.tree)
  {
    hide InPlace, Sides, Sorted, Pieces.Order;
    CurrentIn(p, S, y, all);
    right', current, q, done := right, y, p, true;
    if current.left == null {
      return;
    }
    if key < current.left.key {
      current, q := RotateRight(p, S, all, current);
      SidesStay(p, q, key);
      CurrentIn(q, S, current, all);
      if current.left == null {
        return;
      }
    }
    InPlaceOrder(q, S, current, all);
    SidesRight(q, key);
    var next: Node?;
    right' := current;
    next, q := LinkRight(q, S, all, right, current);
    CurrentIn(q, S, next, all);
    current, done := next, false;
  }

  lemma InPlaceOrder(p: Pieces, S: set<Node>, current: Node?, all: seq<Node>)
    requires InPlace(p, S, current, all)
    ensures p.Order() == all
  {
  }

  lemma SidesStay(p: Pieces, q: Pieces, key: int)
    requires Sides(p, key) && q == p.(tree := q.tree)
    ensures Sides(q, key)
  {
  }

  /** One turn of the search when the key is larger than the current one's. */
  method TurnLeft(ghost p: Pieces, ghost S: set<Node>, ghost all: seq<Node>, key: int, left: Node, y: Node)
    returns (left': Node, current: Node, done: bool, ghost q: Pieces)
    requires InPlace(p, S, y, all) && left in S && left == End(p.dummy, p.left)
    requires Sides(p, key) && Sorted(all) && key > y.key
    modifies S
    ensures InPlace(q, S, current, all) && left' in S && left' == End(q.dummy, q.left) && current in S
    ensures Sides(q, key) && q.dummy == p.dummy && q.right == p.right && q.tree.Fork? && q.tree.node == current
    ensures if done then AtEnd(q.tree, key) else Size(q.tree) < Size(p.tree)
  {
    hide InPlace, Sides, Sorted, Pieces.Order;
    CurrentIn(p, S, y, all);
    left', current, q, done := left, y, p, true;
    if current.right == null {
      return;
    }
    if key > current.right.key {
      current, q := RotateLeft(p, S, all, current);
      SidesStay(p, q, key);
      CurrentIn(q, S, current, all);
      if current.right == null {
        return;
      }
    }
    InPlaceOrder(q, S, current, all);
    SidesLeft(q, key);
    var next: Node?;
    left' := current;
    next, q := LinkLeft(q, S, all, left, current);
    CurrentIn(q, S, next, all);
    current, done := next, false;
  }

  /** The search of splay_: turns until the key is found or there is nowhere to go. */
  method Search(ghost p0: Pieces, ghost S: set<Node>, ghost all: seq<Node>, key: int, dummy: Node, root: Node)
    returns (left: Node, right: Node, current: Node, ghost p: Pieces)
    requires InPlace(p0, S, root, all) && Sides(p0, key) && p0 == Pieces(dummy, [], p0.tree, []) && {dummy, root} <= S
    requires Sorted(all)
    modifies S
    ensures InPlace(p, S, current, all) && Sides(p, key) && p.dummy == dummy && {left, right, current} <= S
    ensures left == End(dummy, p.left) && right == End(dummy, p.right)
    ensures AtEnd(p.tree, key) && p.tree.node == current
  {
    hide Shaped, Sorted, InPlace, Sides, Pieces.Order, InOrder, MapOf;
    p, left, right, current := p0, dummy, dummy, root;
    CurrentIn(p, S, current, all);
    while true
      invariant InPlace(p, S, current, all) && Sides(p, key) && p.dummy == dummy && p.tree.Fork?
        && p.tree.node == current
      invariant left == End(dummy, p.left) && right == End(dummy, p.right) && {dummy, left, right, current} <= S
      decreases Size(p.tree)
    {
      var done: bool := true;
      if key < current.key {
        right, current, done, p := TurnRight(p, S, all, key, right, current);
      } else if key > current.key {
        left, current, done, p := TurnLeft(p, S, all, key, left, current);
      }
      if done {
        break;
      }
    }
  }

  class SplayTree {
    var root: Node?
    ghost var tree: Tree
    ghost var nodes: set<Node>

    ghost predicate Valid()
      reads this, nodes
    {
      && Shaped(Lefts(nodes), Rights(nodes), root, tree)
      && Sorted(InOrder(tree))
      && nodes == set n | n in InOrder(tree)
    }

    /** The map the tree stands for. */
    ghost function Contents(): (m: map<int, string>)
      requires Valid()
      reads this, nodes
    {
      MapOf(InOrder(tree))
    }

    constructor ()
      ensures Valid() && Contents() == map[] && fresh(nodes)
    {
      root, tree, nodes := null, Empty, {};
    }

    predicate IsEmpty()
      requires Valid()
      reads this, nodes
      ensures IsEmpty() <==> Contents() == map[]
    {
      ghost var c := Contents();
      assert root != null ==> root in InOrder(tree) && root.key in c;
      assert root == null ==> c == map[];
      root == null
    }

    /** splay_: the same nodes in the same order, with the key at the root or next to it. */
    method Splay(key: int)
      requires Valid()
      modifies this, nodes
      ensures Valid() && InOrder(tree) == old(InOrder(tree)) && nodes == old(nodes) && Contents() == old(Contents())
      ensures (root == null) == (old(root) == null)
      ensures root != null ==> Near(tree, key) && tree.node == root
    {
      hide Shaped, Sorted, InPlace, Sides, Pieces.Order, InOrder, MapOf, Lefts, Rights;
      if root == null {
        return;
      }
      ghost var all := InOrder(tree);
      var dummy := new Node(0, "");
      ghost var S := nodes + {dummy};
      ghost var p0 := Pieces(dummy, [], tree, []);
      StartsInPlace(p0, nodes, S, root, all, key);
      RootIn(this);
      var left, right, current, p := Search(p0, S, all, key, dummy, root);
      ghost var t := Assemble(p, S, all, dummy, left, right, current);
      EndsNear(p, key, t);
      Narrowed(S, nodes, current, t);
      root, tree := current, t;
    }

    /** Inserts the key unless it is there. */
    method Insert(key: int, value: string)
      requires Valid()
      modifies this, nodes
      ensures Valid() && fresh(nodes - old(nodes)) && old(nodes) <= nodes
      ensures Contents() == if key in old(Contents()) then old(Contents()) else old(Contents())[key := value]
    {
      hide Shaped, Sorted, InOrder, MapOf, Near;
      ghost var was := InOrder(tree);
      if root == null {
        EmptyTree(this);
        var node := new Node(key, value);
        root, tree, nodes := node, Fork(Empty, node, Empty), {node};
        SingleTree(this, node, was);
        return;
      }
      Splay(key);
      RootIn(this);
      NearContents(this, key);
      if root.key == key {
        return;
      }
      AddRoot(key, value);
    }

    /** The new node becomes the root, above what was the root. */
    method AddRoot(key: int, value: string)
      requires Valid() && root != null && Near(tree, key) && tree.node == root && root.key != key
      modifies this, nodes
      ensures Valid() && fresh(nodes - old(nodes)) && old(nodes) <= nodes
      ensures Contents() == old(Contents())[key := value]
    {
      hide Shaped, Sorted, InOrder, MapOf, Near, Lefts, Rights, Distinct;
      RootIn(this);
      var node := new Node(key, value);
      ghost var t := tree;
      SortedKeys(InOrder(t));
      if key > root.key {
        tree := TakeRight(root, node, t, nodes);
      } else {
        tree := TakeLeft(root, node, t, nodes);
      }
      Widened(t, tree, node, key);
      nodes := nodes + {node};
      root := node;
    }

    /** Removes the key and returns its node; null stands for the exception when it is not there. */
    method Remove(key: int) returns (removed: Node?)
      requires Valid()
      modifies this, nodes
      ensures Valid() && nodes <= old(nodes) && (removed == null <==> key !in old(Contents()))
      ensures removed == null ==> Contents() == old(Contents())
      ensures removed != null ==> removed in old(nodes) && removed !in nodes
      ensures removed != null ==> removed.key == key && removed.value == old(Contents())[key] && Contents() == old(Contents()) - {key}
    {
      hide Shaped, Sorted, InOrder, MapOf, Near;
      if root == null {
        EmptyTree(this);
        return null;
      }
      Splay(key);
      RootIn(this);
      NearContents(this, key);
      if root.key != key {
        return null;
      }
      removed := root;
      RemoveRoot();
    }

    /** The subtrees of the root without it: the left one, splayed on the root's key, takes the
        right one. */
    method RemoveRoot()
      requires Valid() && root != null
      modifies this, nodes
      ensures Valid() && nodes == old(nodes) - {old(root)}
      ensures Contents() == old(Contents()) - {old(root).key}
    {
      hide Shaped, Sorted, InOrder, MapOf, Near, Lefts, Rights;
      RootIn(this);
      ghost var t, all, removed := tree, nodes, root;
      Halves(this);
      RootRemoved(t);
      if root.left == null {
        root, tree, nodes := root.right, tree.right, NodesOf(tree.right);
      } else {
        var right := root.right;
        var key := root.key;
        root, tree, nodes := root.left, tree.left, NodesOf(tree.left);
        Splay(key);
        RootIn(this);
        EmptyRight(tree, t, key);
        ghost var m := tree;
        TakeBack(right, t.right);
        JoinedOrder(m, t);
      }
    }

    /** The subtree that was on the right of the removed node hangs under the new root again. */
    method TakeBack(right: Node?, ghost r: Tree)
      requires Valid() && root != null && tree.Fork? && tree.node == root && tree.right == Empty
      requires Shaped(Lefts(NodesOf(r)), Rights(NodesOf(r)), right, r) && nodes !! NodesOf(r)
      modifies root`right, this`tree, this`nodes
      ensures tree == Fork(old(tree).left, root, r) && nodes == old(nodes) + NodesOf(r)
      ensures Shaped(Lefts(nodes), Rights(nodes), root, tree)
    {
      hide Shaped, Sorted, Lefts, Rights, InOrder, MapOf;
      ValidFacts(this);
      RootIn(this);
      ghost var a, b := nodes, NodesOf(r);
      BothShaped(a, b, root, tree, right, r);
      ForkParts(tree.left, root, tree.right);
      ghost var lf, rt := Lefts(a + b), Rights(a + b);
      SetRight(root, right, a + b);
      Joined(lf, rt, root, right, tree.left, r);
      tree, nodes := Fork(tree.left, root, r), a + b;
    }

    /** The node with the key, or null. */
    method Find(key: int) returns (r: Node?)
      requires Valid()
      modifies this, nodes
      ensures Valid() && nodes == old(nodes) && Contents() == old(Contents())
      ensures r == null <==> key !in Contents()
      ensures r != null ==> r in nodes && r.key == key && r.value == Contents()[key]
    {
      hide Shaped, Sorted, InOrder, MapOf, Near;
      if root == null {
        EmptyTree(this);
        return null;
      }
      Splay(key);
      RootIn(this);
      NearContents(this, key);
      r := if root.key == key then root else null;
    }

    /** The last node of the subtree that start is the root of. */
    method FindMaxFrom(start: Node, ghost t: Tree) returns (r: Node)
      requires Valid() && Shaped(Lefts(nodes), Rights(nodes), start, t) && start in nodes
      ensures |InOrder(t)| > 0 && r == InOrder(t)[|InOrder(t)| - 1]
    {
      hide Shaped, Sorted, MapOf;
      var current := start;
      ghost var u := t;
      ChildFork(Lefts(nodes), Rights(nodes), current, u);
      ForkShape(Lefts(nodes), Rights(nodes), current, u.left, u.node, u.right);
      ChildFork(Lefts(nodes), Rights(nodes), current.right, u.right);
      while current.right != null
        invariant current in nodes && u.Fork? && Shaped(Lefts(nodes), Rights(nodes), current.right, u.right)
          && u.node == current
        invariant (current.right != null <==> u.right.Fork?)
        invariant InOrder(u) != [] && InOrder(t) != [] && InOrder(t)[|InOrder(t)| - 1] == InOrder(u)[|InOrder(u)| - 1]
        decreases u
      {
        current := current.right;
        u := u.right;
        ChildFork(Lefts(nodes), Rights(nodes), current, u);
        ForkShape(Lefts(nodes), Rights(nodes), current, u.left, u.node, u.right);
        ChildFork(Lefts(nodes), Rights(nodes), current.right, u.right);
      }
      r := current;
    }

    /** findMax without a start: the node with the largest key, or null. */
    method FindMax() returns (r: Node?)
      requires Valid()
      ensures r == null <==> Contents() == map[]
      ensures r != null ==> r in nodes && r.key in Contents() && r.value == Contents()[r.key] && forall k :: k in Contents() ==> k <= r.key
    {
      hide Shaped, Sorted, InOrder, MapOf, Lefts, Rights;
      if root == null {
        EmptyTree(this);
        return null;
      }
      RootIn(this);
      ValidFacts(this);
      r := FindMaxFrom(root, tree);
      LargestKey(InOrder(tree));
    }

    /** The node with the largest key below the one given, or null. */
    method FindGreatestLessThan(key: int) returns (r: Node?)
      requires Valid()
      modifies this, nodes
      ensures Valid() && nodes == old(nodes) && Contents() == old(Contents())
      ensures r == null <==> forall k :: k in Contents() ==> k >= key
      ensures r != null ==> r in nodes && r.key in Contents() && r.value == Contents()[r.key] && r.key < key
      ensures r != null ==> forall k :: k in Contents() && k < key ==> k <= r.key
    {
      hide Shaped, Sorted, InOrder, MapOf, Near, Lefts, Rights;
      if root == null {
        EmptyTree(this);
        return null;
      }
      Splay(key);
      RootIn(this);
      ValidFacts(this);
      BelowKey(this, key);
      if root.key < key {
        return root;
      } else if root.left != null {
        r := FindMaxFrom(root.left, tree.left);
      } else {
        return null;
      }
    }

    /** exportKeys: the keys in increasing order. */
    method ExportKeys() returns (result: seq<int>)
      requires Valid()
      ensures forall i, j :: 0 <= i < j < |result| ==> result[i] < result[j]
      ensures forall k :: k in result <==> k in Contents()
    {
      hide Shaped, Lefts, Rights, InOrder, MapOf, Sorted;
      result := [];
      if root != null {
        RootIn(this);
        ValidFacts(this);
        result := Traverse(root, tree, nodes, result);
      } else {
        EmptyTree(this);
      }
      ExportedKeys(InOrder(tree), result);
    }
  }

  ghost function Keys(s: seq<Node>): (r: seq<int>) {
    seq(|s|, i requires 0 <= i < |s| => s[i].key)
  }

  /** traverse_ with the visitor of exportKeys: the keys of a subtree, pushed in order. */
  method Traverse(start: Node, ghost t: Tree, ghost nodes: set<Node>, result0: seq<int>) returns (result: seq<int>)
    requires Shaped(Lefts(nodes), Rights(nodes), start, t) && forall n :: n in InOrder(t) ==> n in nodes
    ensures result == result0 + Keys(InOrder(t))
    decreases t
  {
    hide Shaped, Lefts, Rights, Keys;
    result := result0;
    var current: Node? := start;
    ghost var u, seen := t, [];
    KeysOfNone();
    while current != null
      invariant Shaped(Lefts(nodes), Rights(nodes), current, u) && seen + InOrder(u) == InOrder(t) && (u == t || u < t)
      invariant result == result0 + Keys(seen)
      decreases u
    {
      ChildFork(Lefts(nodes), Rights(nodes), current, u);
      ForkShape(Lefts(nodes), Rights(nodes), current, u.left, u.node, u.right);
      assert current in InOrder(u) && current in nodes;
      FieldsOf(nodes, current);
      var left := current.left;
      ChildFork(Lefts(nodes), Rights(nodes), left, u.left);
      if left != null {
        result := Traverse(left, u.left, nodes, result);
      } else {
        assert InOrder(u.left) == [];
        KeysOfNone();
      }
      result := result + [current.key];
      KeysJoin(seen, InOrder(u.left), current);
      seen := seen + InOrder(u.left) + [u.node];
      current := current.right;
      u := u.right;
    }
    ChildFork(Lefts(nodes), Rights(nodes), current, u);
    assert seen == InOrder(t);
  }

  lemma FieldsOf(nodes: set<Node>, n: Node)
    requires n in nodes
    ensures n in Lefts(nodes) && n in Rights(nodes) && Lefts(nodes)[n] == n.left && Rights(nodes)[n] == n.right
  {
  }

  lemma KeysOfNone()
    ensures Keys([]) == []
  {
  }

  lemma KeysJoin(s: seq<Node>, t: seq<Node>, n: Node)
    ensures Keys(s + t + [n]) == Keys(s) + Keys(t) + [n.key]
  {
  }

  lemma ExportedKeys(s: seq<Node>, result: seq<int>)
    requires Sorted(s) && result == Keys(s)
    ensures forall i, j :: 0 <= i < j < |result| ==> result[i] < result[j]
    ensures forall k :: k in result <==> k in MapOf(s)
  {
    SortedKeys(s);
    forall k | k in MapOf(s) ensures k in result {
      var n :| n in s && n.key == k;
      var i :| 0 <= i < |s| && s[i] == n;
      assert result[i] == k;
    }
    forall k | k in result ensures k in MapOf(s) {
      var i :| 0 <= i < |result| && result[i] == k;
      assert s[i] in s;
    }
  }

  lemma LargestKey(s: seq<Node>)
    requires Sorted(s) && |s| > 0
    ensures s[|s| - 1] in s && s[|s| - 1].key in MapOf(s) && MapOf(s)[s[|s| - 1].key] == s[|s| - 1].value
    ensures forall k :: k in MapOf(s) ==> k <= s[|s| - 1].key
  {
    InMap(s, s[|s| - 1]);
    forall k | k in MapOf(s) ensures k <= s[|s| - 1].key {
      var n :| n in s && n.key == k;
      var i :| 0 <= i < |s| && s[i] == n;
    }
  }

  /** After a splay the keys below the one given are the root's, if it is smaller, and those of the
      left subtree. */
  lemma BelowKey(s: SplayTree, key: int)
    requires s.Valid() && s.root != null && s.tree.Fork? && s.tree.node == s.root && Near(s.tree, key)
    ensures s.root.key in s.Contents() && s.Contents()[s.root.key] == s.root.value
    ensures s.root.key < key ==> forall k :: k in s.Contents() && k < key ==> k <= s.root.key
    ensures var l := InOrder(s.tree.left); s.root.key >= key && l != [] ==>
      var m := l[|l| - 1];
      && m in s.nodes && m.key in s.Contents() && s.Contents()[m.key] == m.value && m.key < key
      && forall k :: k in s.Contents() && k < key ==> k <= m.key
    ensures s.root.key >= key && InOrder(s.tree.left) == [] ==> forall k :: k in s.Contents() ==> k >= key
    ensures s.root.left == null <==> InOrder(s.tree.left) == []
    ensures s.root.left != null ==> s.root.left in s.nodes && Shaped(Lefts(s.nodes), Rights(s.nodes), s.root.left, s.tree.left)
  {
    hide Shaped, MapOf;
    var t, l := s.tree, InOrder(s.tree.left);
    RootIn(s);
    ForkShape(Lefts(s.nodes), Rights(s.nodes), s.root, t.left, t.node, t.right);
    ChildFork(Lefts(s.nodes), Rights(s.nodes), s.root.left, t.left);
    InMap(InOrder(t), t.node);
    SortedAround(l, t.node, InOrder(t.right));
    KeysAround(t, key);
    if l != [] {
      var m := l[|l| - 1];
      assert m in l && m in InOrder(t);
      InMap(InOrder(t), m);
    }
  }

  lemma KeysAround(t: Tree, key: int)
    requires t.Fork? && Sorted(InOrder(t)) && Near(t, key)
    ensures t.node.key < key ==> forall k :: k in MapOf(InOrder(t)) && k < key ==> k <= t.node.key
    ensures var l := InOrder(t.left); t.node.key >= key ==>
      (forall k :: k in MapOf(InOrder(t)) && k < key ==> l != [] && k <= l[|l| - 1].key) && (l != [] ==> l[|l| - 1].key < key)
  {
    var l, r := InOrder(t.left), InOrder(t.right);
    SortedAround(l, t.node, r);
    forall n | n in InOrder(t) && n.key < key
      ensures t.node.key < key ==> n.key <= t.node.key
      ensures t.node.key >= key ==> l != [] && n.key <= l[|l| - 1].key
    {
      assert n in l || n == t.node || n in r;
      hide Sorted, InOrder;
      LastLargest(l, n);
    }
    if l != [] {
      assert l[|l| - 1] in l;
    }
  }

  lemma LastLargest(s: seq<Node>, n: Node)
    requires Sorted(s)
    ensures n in s ==> s != [] && n.key <= s[|s| - 1].key
  {
  }

  lemma ValidFacts(s: SplayTree)
    requires s.Valid()
    ensures s.nodes == NodesOf(s.tree) && Distinct(InOrder(s.tree))
      && forall n :: n in InOrder(s.tree) <==> n in s.nodes
    ensures Shaped(Lefts(s.nodes), Rights(s.nodes), s.root, s.tree)
  {
    hide Shaped, MapOf;
    SortedKeys(InOrder(s.tree));
  }

  ghost function NodesOf(t: Tree): (r: set<Node>) {
    set n | n in InOrder(t)
  }

  lemma Halves(s: SplayTree)
    requires s.Valid() && s.tree.Fork? && s.tree.node == s.root
    ensures s.root in s.nodes && s.nodes == NodesOf(s.tree.left) + {s.root} + NodesOf(s.tree.right)
    ensures NodesOf(s.tree.left) !! NodesOf(s.tree.right) && s.root !in NodesOf(s.tree.left)
      && s.root !in NodesOf(s.tree.right)
    ensures Sorted(InOrder(s.tree.left)) && Sorted(InOrder(s.tree.right))
    ensures var l, r := NodesOf(s.tree.left), NodesOf(s.tree.right);
      Shaped(Lefts(l), Rights(l), s.root.left, s.tree.left) && Shaped(Lefts(r), Rights(r), s.root.right, s.tree.right)
  {
    hide Sorted, Distinct, Shaped;
    var t := s.tree;
    ValidFacts(s);
    SortedAround(InOrder(t.left), t.node, InOrder(t.right));
    HalvesApart(t);
    ForkShape(Lefts(s.nodes), Rights(s.nodes), s.root, t.left, s.root, t.right);
    Narrowed(s.nodes, NodesOf(t.left), s.root.left, t.left);
    Narrowed(s.nodes, NodesOf(t.right), s.root.right, t.right);
  }

  lemma HalvesApart(t: Tree)
    requires t.Fork? && Distinct(InOrder(t))
    ensures NodesOf(t) == NodesOf(t.left) + {t.node} + NodesOf(t.right)
    ensures NodesOf(t.left) !! NodesOf(t.right) && t.node !in NodesOf(t.left) && t.node !in NodesOf(t.right)
  {
    DistinctParts(InOrder(t.left) + [t.node], InOrder(t.right));
    ForkParts(t.left, t.node, t.right);
  }

  lemma SortedCut(s: seq<Node>, n: Node, t: seq<Node>)
    requires Sorted(s + [n] + t)
    ensures Sorted(s + t)
  {
    var u, v := s + [n] + t, s + t;
    forall i, j | 0 <= i < j < |v| ensures v[i].key < v[j].key {
      var i', j' := if i < |s| then i else i + 1, if j < |s| then j else j + 1;
      assert u[i'] == v[i] && u[j'] == v[j];
    }
  }

  lemma SortedRemove(s: seq<Node>, n: Node, t: seq<Node>)
    requires Sorted(s + [n] + t)
    ensures Sorted(s + t) && MapOf(s + t) == MapOf(s + [n] + t) - {n.key}
  {
    hide Sorted;
    SortedAround(s, n, t);
    SortedCut(s, n, t);
    SortedInsert(s, n, t);
    hide MapOf;
    NoSuchKey(s + t, n.key);
    PutAndTaken(MapOf(s + t), n.key, n.value);
  }

  lemma NoSuchKey(s: seq<Node>, key: int)
    requires Sorted(s) && forall n :: n in s ==> n.key != key
    ensures key !in MapOf(s)
  {
  }

  lemma PutAndTaken(m: map<int, string>, key: int, value: string)
    requires key !in m
    ensures m[key := value] - {key} == m
  {
  }

  lemma RootRemoved(t: Tree)
    requires t.Fork? && Sorted(InOrder(t))
    ensures Sorted(InOrder(t.left) + InOrder(t.right))
    ensures MapOf(InOrder(t.left) + InOrder(t.right)) == MapOf(InOrder(t)) - {t.node.key}
    ensures t.left.Empty? ==> InOrder(t.left) + InOrder(t.right) == InOrder(t.right)
    ensures forall n :: n in InOrder(t.left) ==> n.key < t.node.key
  {
    hide Sorted, MapOf;
    SortedAround(InOrder(t.left), t.node, InOrder(t.right));
    SortedRemove(InOrder(t.left), t.node, InOrder(t.right));
  }

  /** Splaying the left subtree on the removed key leaves its largest node at the root. */
  lemma EmptyRight(s: Tree, t: Tree, key: int)
    requires t.Fork? && InOrder(s) == InOrder(t.left) && Near(s, key)
      && forall n :: n in InOrder(t.left) ==> n.key < key
    ensures s.Fork? && s.right == Empty
  {
    TopIn(s);
    TopIn(s.right);
  }

  lemma TopIn(t: Tree)
    ensures t.Fork? ==> t.node in InOrder(t) && forall n :: n in InOrder(t.right) ==> n in InOrder(t)
  {
  }

  lemma BothShaped(a: set<Node>, b: set<Node>, root: Node, s: Tree, right: Node?, r: Tree)
    requires Shaped(Lefts(a), Rights(a), root, s) && Shaped(Lefts(b), Rights(b), right, r) && a !! b && root in a
    requires (forall n :: n in InOrder(s) ==> n in a) && (forall n :: n in InOrder(r) ==> n in b)
    ensures Shaped(Lefts(a + b), Rights(a + b), root, s) && Shaped(Lefts(a + b), Rights(a + b), right, r)
  {
    ShapedKept(Lefts(a), Rights(a), Lefts(a + b), Rights(a + b), root, s);
    ShapedKept(Lefts(b), Rights(b), Lefts(a + b), Rights(a + b), right, r);
  }

  lemma Joined(lf: Fields, rt: Fields, root: Node, right: Node?, l: Tree, r: Tree)
    requires Shaped(lf, rt, root, Fork(l, root, Empty)) && Shaped(lf, rt, right, r) && root !in InOrder(l)
      && root !in InOrder(r)
    ensures Shaped(lf, rt[root := right], root, Fork(l, root, r))
  {
    hide InOrder;
    ForkShape(lf, rt, root, l, root, Empty);
    hide Shaped;
    var rt' := rt[root := right];
    ShapedKept(lf, rt, lf, rt', lf[root], l);
    ShapedKept(lf, rt, lf, rt', right, r);
    ForkShape(lf, rt', root, l, root, r);
  }

  lemma JoinedOrder(s: Tree, t: Tree)
    requires s.Fork? && s.right == Empty && t.Fork? && InOrder(s) == InOrder(t.left)
    ensures InOrder(Fork(s.left, s.node, t.right)) == InOrder(t.left) + InOrder(t.right)
    ensures NodesOf(Fork(s.left, s.node, t.right)) == NodesOf(t.left) + NodesOf(t.right)
  {
  }

  lemma EmptyTree(s: SplayTree)
    requires s.Valid() && s.root == null
    ensures s.tree == Empty && InOrder(s.tree) == [] && s.nodes == {} && s.Contents() == map[]
  {
  }

  lemma SingleTree(s: SplayTree, node: Node, was: seq<Node>)
    requires s.root == node && s.tree == Fork(Empty, node, Empty) && s.nodes == {node} && node.left == null
      && node.right == null
    ensures s.Valid() && s.Contents() == map[node.key := node.value]
  {
    assert InOrder(s.tree) == [node];
  }

  /** A key that is not at the root after a splay is not in the tree. */
  lemma NearContents(s: SplayTree, key: int)
    requires s.Valid() && s.root != null && s.tree.Fork? && s.tree.node == s.root && Near(s.tree, key)
    ensures key in s.Contents() <==> s.root.key == key
    ensures key in s.Contents() ==> s.Contents()[key] == s.root.value
  {
    var t := s.tree;
    SortedAround(InOrder(t.left), t.node, InOrder(t.right));
    InMap(InOrder(t), t.node);
    if key in s.Contents() {
      var n :| n in InOrder(t) && n.key == key;
      assert n in InOrder(t.left) || n == t.node || n in InOrder(t.right);
    }
  }

  lemma InMap(s: seq<Node>, n: Node)
    requires Sorted(s) && n in s
    ensures n.key in MapOf(s) && MapOf(s)[n.key] == n.value
  {
    SortedKeys(s);
  }

  /** The new node takes the root and its left subtree on its left, the right subtree on its right. */
  method TakeRight(root: Node, node: Node, ghost t: Tree, ghost nodes: set<Node>) returns (ghost t': Tree)
    requires Shaped(Lefts(nodes), Rights(nodes), root, t) && t.Fork? && t.node == root && Distinct(InOrder(t))
      && node !in nodes
    requires root in nodes && forall n :: n in InOrder(t) ==> n in nodes
    modifies root, node
    ensures t' == Fork(Fork(t.left, root, Empty), node, t.right)
    ensures Shaped(Lefts(nodes + {node}), Rights(nodes + {node}), node, t')
  {
    hide Shaped, InOrder, Distinct, Lefts, Rights;
    ghost var S := nodes + {node};
    ghost var lf0, rt0, lf, rt := Lefts(nodes), Rights(nodes), Lefts(S), Rights(S);
    FieldsGrow(nodes, node);
    TakenRight(lf0, rt0, lf, rt, root, t, node);
    SetLeft(node, root, S);
    SetRight(node, root.right, S);
    SetRight(root, null, S);
    t' := Fork(Fork(t.left, root, Empty), node, t.right);
  }

  lemma TakenRight(lf0: Fields, rt0: Fields, lf: Fields, rt: Fields, root: Node, t: Tree, node: Node)
    requires Shaped(lf0, rt0, root, t) && t.Fork? && t.node == root && Distinct(InOrder(t)) && node !in InOrder(t)
      && root != node
    requires root in rt && node in lf && node in rt && lf == lf0[node := lf[node]] && rt == rt0[node := rt[node]]
    ensures Shaped(lf[node := root], Written(Written(rt, node, rt[root]), root, null), node,
                   Fork(Fork(t.left, root, Empty), node, t.right))
  {
    hide Shaped, InOrder, Distinct;
    var lf', rt' := lf[node := root], Written(Written(rt, node, rt[root]), root, null);
    ForkShape(lf0, rt0, root, t.left, root, t.right);
    ForkParts(t.left, root, t.right);
    ShapedKept(lf0, rt0, lf', rt', lf0[root], t.left);
    ShapedKept(lf0, rt0, lf', rt', rt0[root], t.right);
    NothingThere(lf', rt');
    ForkShape(lf', rt', root, t.left, root, Empty);
    ForkShape(lf', rt', node, Fork(t.left, root, Empty), node, t.right);
  }

  lemma FieldsGrow(nodes: set<Node>, node: Node)
    requires node !in nodes
    ensures Lefts(nodes + {node}) == Lefts(nodes)[node := node.left]
      && Rights(nodes + {node}) == Rights(nodes)[node := node.right]
    ensures forall n :: n in nodes ==> n in Lefts(nodes) && n in Rights(nodes) && Lefts(nodes)[n] == n.left && Rights(nodes)[n] == n.right
  {
  }

  lemma NothingThere(lf: Fields, rt: Fields)
    ensures Shaped(lf, rt, null, Empty)
  {
  }

  method TakeLeft(root: Node, node: Node, ghost t: Tree, ghost nodes: set<Node>) returns (ghost t': Tree)
    requires Shaped(Lefts(nodes), Rights(nodes), root, t) && t.Fork? && t.node == root && Distinct(InOrder(t))
      && node !in nodes
    requires root in nodes && forall n :: n in InOrder(t) ==> n in nodes
    modifies root, node
    ensures t' == Fork(t.left, node, Fork(Empty, root, t.right))
    ensures Shaped(Lefts(nodes + {node}), Rights(nodes + {node}), node, t')
  {
    hide Shaped, InOrder, Distinct, Lefts, Rights;
    ghost var S := nodes + {node};
    ghost var lf0, rt0, lf, rt := Lefts(nodes), Rights(nodes), Lefts(S), Rights(S);
    FieldsGrow(nodes, node);
    TakenLeft(lf0, rt0, lf, rt, root, t, node);
    SetRight(node, root, S);
    SetLeft(node, root.left, S);
    SetLeft(root, null, S);
    t' := Fork(t.left, node, Fork(Empty, root, t.right));
  }

  lemma TakenLeft(lf0: Fields, rt0: Fields, lf: Fields, rt: Fields, root: Node, t: Tree, node: Node)
    requires Shaped(lf0, rt0, root, t) && t.Fork? && t.node == root && Distinct(InOrder(t)) && node !in InOrder(t)
      && root != node
    requires root in lf && node in lf && node in rt && lf == lf0[node := lf[node]] && rt == rt0[node := rt[node]]
    ensures Shaped(Written(Written(lf, node, lf[root]), root, null), rt[node := root], node, Fork(t.left, node,
      Fork(Empty, root, t.right)))
  {
    hide Shaped, InOrder, Distinct;
    var lf', rt' := Written(Written(lf, node, lf[root]), root, null), rt[node := root];
    ForkShape(lf0, rt0, root, t.left, root, t.right);
    ForkParts(t.left, root, t.right);
    ShapedKept(lf0, rt0, lf', rt', lf0[root], t.left);
    ShapedKept(lf0, rt0, lf', rt', rt0[root], t.right);
    NothingThere(lf', rt');
    ForkShape(lf', rt', root, Empty, root, t.right);
    ForkShape(lf', rt', node, t.left, node, Fork(Empty, root, t.right));
  }

  /** With the new node next to the old root the tree is still in order, and has one more entry. */
  lemma Widened(t: Tree, t': Tree, node: Node, key: int)
    requires Sorted(InOrder(t)) && Near(t, key) && t.node.key != key && node.key == key
    requires t' == if key > t.node.key then Fork(Fork(t.left, t.node, Empty), node, t.right)
      else Fork(t.left, node, Fork(Empty, t.node, t.right))
    ensures Sorted(InOrder(t')) && MapOf(InOrder(t')) == MapOf(InOrder(t))[key := node.value]
    ensures (set n | n in InOrder(t')) == (set n | n in InOrder(t)) + {node}
  {
    var l, r := InOrder(t.left), InOrder(t.right);
    hide InOrder, Sorted, MapOf;
    ForkOrder(t.left, t.node, t.right);
    if key > t.node.key {
      WidenedRight(l, t.node, r, node);
      ForkOrder(Fork(t.left, t.node, Empty), node, t.right);
      ForkOrder(t.left, t.node, Empty);
    } else {
      WidenedLeft(l, t.node, r, node);
      ForkOrder(t.left, node, Fork(Empty, t.node, t.right));
      ForkOrder(Empty, t.node, t.right);
    }
  }

  lemma ForkOrder(a: Tree, n: Node, b: Tree)
    ensures InOrder(Fork(a, n, b)) == InOrder(a) + [n] + InOrder(b) && InOrder(Empty) == []
  {
  }

  lemma WidenedRight(l: seq<Node>, x: Node, r: seq<Node>, node: Node)
    requires Sorted(l + [x] + r) && node.key > x.key && forall n :: n in r ==> n.key > node.key
    ensures Sorted(l + [x] + [] + [node] + r)
    ensures MapOf(l + [x] + [] + [node] + r) == MapOf(l + [x] + r)[node.key := node.value]
    ensures (set n | n in l + [x] + [] + [node] + r) == (set n | n in l + [x] + r) + {node}
  {
    hide Sorted, MapOf;
    SortedAround(l, x, r);
    assert l + [x] + [] + [node] + r == (l + [x]) + [node] + r;
    SortedInsert(l + [x], node, r);
  }

  lemma WidenedLeft(l: seq<Node>, x: Node, r: seq<Node>, node: Node)
    requires Sorted(l + [x] + r) && node.key < x.key && forall n :: n in l ==> n.key < node.key
    ensures Sorted(l + [node] + ([] + [x] + r))
    ensures MapOf(l + [node] + ([] + [x] + r)) == MapOf(l + [x] + r)[node.key := node.value]
    ensures (set n | n in l + [node] + ([] + [x] + r)) == (set n | n in l + [x] + r) + {node}
  {
    hide Sorted, MapOf;
    SortedAround(l, x, r);
    assert l + [node] + ([] + [x] + r) == l + [node] + ([x] + r) && l + [x] + r == l + ([x] + r);
    SortedInsert(l, node, [x] + r);
  }

  lemma SortedInsert(s: seq<Node>, n: Node, t: seq<Node>)
    requires Sorted(s + t) && (forall x :: x in s ==> x.key < n.key) && (forall x :: x in t ==> x.key > n.key)
    ensures Sorted(s + [n] + t) && MapOf(s + [n] + t) == MapOf(s + t)[n.key := n.value]
    ensures (set x | x in s + [n] + t) == (set x | x in s + t) + {n}
  {
    var u, v := s + [n] + t, s + t;
    InsertedSorted(s, n, t);
    forall x ensures x in u <==> x in v || x == n {
    }
    hide Sorted;
    MapGrows(v, u, n);
  }

  lemma InsertedSorted(s: seq<Node>, n: Node, t: seq<Node>)
    requires Sorted(s + t) && (forall x :: x in s ==> x.key < n.key) && (forall x :: x in t ==> x.key > n.key)
    ensures Sorted(s + [n] + t)
  {
    var u := s + [n] + t;
    forall i, j | 0 <= i < j < |u| ensures u[i].key < u[j].key {
      InsertedAt(s, n, t, i);
      InsertedAt(s, n, t, j);
    }
  }

  lemma MapGrows(v: seq<Node>, u: seq<Node>, n: Node)
    requires Sorted(v) && Sorted(u)
      && (forall x :: x in u <==> x in v || x == n) && forall x :: x in v ==> x.key != n.key
    ensures MapOf(u) == MapOf(v)[n.key := n.value]
  {
    hide Sorted;
    SortedKeys(u);
    SortedKeys(v);
  }

  lemma InsertedAt(s: seq<Node>, n: Node, t: seq<Node>, i: int)
    requires 0 <= i < |s| + 1 + |t|
    ensures i < |s| ==> (s + [n] + t)[i] == (s + t)[i] && (s + [n] + t)[i] in s
    ensures i == |s| ==> (s + [n] + t)[i] == n
    ensures i > |s| ==> (s + [n] + t)[i] == (s + t)[i - 1] && (s + [n] + t)[i] in t
  {
  }

  lemma RootIn(s: SplayTree)
    requires s.Valid() && s.root != null
    ensures s.tree.Fork? && s.root == s.tree.node && s.root in s.nodes
    ensures (s.root.left != null <==> s.tree.left.Fork?) && (s.root.right != null <==> s.tree.right.Fork?)
  {
    hide Sorted;
    ChildFork(Lefts(s.nodes), Rights(s.nodes), s.root.left, s.tree.left);
    ChildFork(Lefts(s.nodes), Rights(s.nodes), s.root.right, s.tree.right);
  }

  lemma StartsInPlace(p: Pieces, nodes: set<Node>, S: set<Node>, root: Node, all: seq<Node>, key: int)
    requires p.left == [] && p.right == [] && all == InOrder(p.tree) && Sorted(all)
    requires S == nodes + {p.dummy} && p.dummy !in nodes && (forall n :: n in all ==> n in nodes)
    requires Shaped(Lefts(nodes), Rights(nodes), root, p.tree)
    ensures InPlace(p, S, root, all) && Sides(p, key)
  {
    SortedKeys(all);
    ShapedKept(Lefts(nodes), Rights(nodes), Lefts(S), Rights(S), root, p.tree);
  }

  lemma Narrowed(S: set<Node>, nodes: set<Node>, root: Node?, t: Tree)
    requires nodes <= S && Shaped(Lefts(S), Rights(S), root, t) && nodes == set n | n in InOrder(t)
    ensures Shaped(Lefts(nodes), Rights(nodes), root, t)
  {
    ShapedKept(Lefts(S), Rights(S), Lefts(nodes), Rights(nodes), root, t);
  }
}
