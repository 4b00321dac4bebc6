/** When deriv_trees answers: exactly when its search comes back to no item. */
module EarleyCycles {
  import opened EarleyTrees

  /** A conf, its origin and its state. */
  datatype Item = Item(conf: int, origin: int, state: int)

  ghost predicate In(p: Parse, a: Item) {
    p.Has(a.conf, a.origin, a.state)
  }

  /** The search at item a comes upon the finished item (e, k) of a's state. */
  ghost predicate ComesUpon(p: Parse, a: Item, e: int, k: int)
    requires p.Valid()
  {
    && In(p, a) && p.Fits(a.conf, a.origin, a.state)
    && p.names[a.conf] == None && e in p.enders[p.steps[a.conf - 1]]
    && k >= a.origin && p.Has(e, k, a.state) && p.Has(a.conf - 1, a.origin, k)
  }

  /** The search at item a asks for the trees of item b. */
  ghost predicate Asks(p: Parse, a: Item, b: Item)
    requires p.Valid()
  {
    exists e, k :: ComesUpon(p, a, e, k) && (b == Item(a.conf - 1, a.origin, k) || b == Item(e, k, a.state))
  }

  /** n requests lead from a to b. */
  ghost predicate Leads(p: Parse, a: Item, b: Item, n: nat)
    requires p.Valid()
    decreases n
  {
    if n == 0 then a == b else exists m :: Asks(p, a, m) && Leads(p, m, b, n - 1)
  }

  ghost predicate Reaches(p: Parse, a: Item, b: Item)
    requires p.Valid()
  {
    exists n: nat :: n > 0 && Leads(p, a, b, n)
  }

  /** The search at a reaches an item that reaches itself. */
  ghost predicate Cyclic(p: Parse, a: Item)
    requires p.Valid()
  {
    exists b :: (b == a || Reaches(p, a, b)) && Reaches(p, b, b)
  }

  // ----- requests fall in rank ------------------------------------------------------------------------------

  ghost function Items(p: Parse): set<Item> {
    set j, c, i | 0 <= j < |p.sets| && c in p.sets[j] && i in p.sets[j][c] :: Item(c, i, j)
  }

  ghost function Ahead(p: Parse, a: Item): set<Item>
    requires p.Valid()
  {
    set b | b in Items(p) && Reaches(p, a, b)
  }

  lemma InItems(p: Parse, a: Item)
    ensures a in Items(p) <==> In(p, a)
  {
  }

  lemma AsksIn(p: Parse, a: Item, b: Item)
    requires p.Valid() && Asks(p, a, b)
    ensures In(p, a) && In(p, b) && Reaches(p, a, b)
  {
    assert Leads(p, b, b, 0);
    assert Leads(p, a, b, 1);
  }

  lemma AsksReaches(p: Parse, a: Item, b: Item, c: Item)
    requires p.Valid() && Asks(p, a, b) && Reaches(p, b, c)
    ensures Reaches(p, a, c)
  {
    var n: nat :| n > 0 && Leads(p, b, c, n);
    assert Leads(p, a, c, n + 1);
  }

  lemma RankFalls(p: Parse, a: Item, b: Item)
    requires p.Valid() && !Cyclic(p, a) && Asks(p, a, b)
    ensures !Cyclic(p, b) && |Ahead(p, b)| < |Ahead(p, a)|
  {
    hide Asks, Reaches;
    AsksIn(p, a, b);
    InItems(p, b);
    forall c | Reaches(p, b, c) ensures Reaches(p, a, c) {
      AsksReaches(p, a, b, c);
    }
    assert b in Ahead(p, a) && b !in Ahead(p, b);
    assert Ahead(p, b) <= Ahead(p, a) - {b};
    Fewer(Ahead(p, b), Ahead(p, a) - {b});
  }

  lemma {:induction false} Fewer(s: set<Item>, t: set<Item>)
    requires s <= t
    ensures |s| <= |t|
  {
    if s != {} {
      var x :| x in s;
      Fewer(s - {x}, t - {x});
    }
  }

  lemma RankBounded(p: Parse, a: Item)
    requires p.Valid()
    ensures |Ahead(p, a)| <= |Items(p)|
  {
    Fewer(Ahead(p, a), Items(p));
  }

  // ----- without a cycle there is an answer -------------------------------------------------------------------

  /** What a asks for is without cycles and of rank below d. */
  ghost predicate AsksBelow(p: Parse, a: Item, d: nat)
    requires p.Valid()
  {
    forall b :: Asks(p, a, b) ==> !Cyclic(p, b) && |Ahead(p, b)| < d
  }

  lemma {:induction false} TreesAnswer(p: Parse, d: nat, a: Item)
    requires p.Valid() && In(p, a) && !Cyclic(p, a) && d > |Ahead(p, a)|
    ensures p.Trees(d, a.conf, a.origin, a.state).Some?
    decreases d, 0, 0
  {
    hide Cyclic, Ahead;
    assert p.Fits(a.conf, a.origin, a.state);
    if p.names[a.conf] == None {
      forall b | Asks(p, a, b) ensures !Cyclic(p, b) && |Ahead(p, b)| < d - 1 {
        RankFalls(p, a, b);
      }
      EnderAnswer(p, d - 1, a, p.enders[p.steps[a.conf - 1]], []);
    }
  }

  lemma {:induction false} EnderAnswer(p: Parse, d: nat, a: Item, l: seq<int>, acc: seq<Tree>)
    requires p.Valid() && In(p, a) && p.Fits(a.conf, a.origin, a.state) && p.names[a.conf] == None && AsksBelow(p, a, d)
    requires forall e :: e in l ==> e in p.enders[p.steps[a.conf - 1]]
    ensures p.EnderTrees(d, a.conf, a.origin, a.state, l, acc).Some?
    decreases d, 2, |l|
  {
    hide AsksBelow;
    if l != [] {
      assert l[0] in l && forall e :: e in l[1..] ==> e in l;
      if l[0] in p.sets[a.state] {
        var ks := p.sets[a.state][l[0]];
        OriginAnswer(p, d, a, l[0], ks, acc);
        EnderAnswer(p, d, a, l[1..], p.OriginTrees(d, a.conf, a.origin, a.state, l[0], ks, acc).value);
      } else {
        EnderAnswer(p, d, a, l[1..], acc);
      }
    }
  }

  lemma {:induction false} OriginAnswer(p: Parse, d: nat, a: Item, e: int, ks: seq<int>, acc: seq<Tree>)
    requires p.Valid() && In(p, a) && p.Fits(a.conf, a.origin, a.state) && p.names[a.conf] == None && AsksBelow(p, a, d)
    requires e in p.enders[p.steps[a.conf - 1]] && forall k :: k in ks ==> p.Has(e, k, a.state)
    ensures p.OriginTrees(d, a.conf, a.origin, a.state, e, ks, acc).Some?
    decreases d, 1, |ks|
  {
    hide Cyclic, Ahead;
    if ks != [] {
      var k := ks[0];
      assert k in ks;
      if k >= a.origin && p.Has(a.conf - 1, a.origin, k) {
        assert ComesUpon(p, a, e, k);
        var prev, last := Item(a.conf - 1, a.origin, k), Item(e, k, a.state);
        assert Asks(p, a, prev) && Asks(p, a, last);
        TreesAnswer(p, d, prev);
        TreesAnswer(p, d, last);
        var t1, t2 := p.Trees(d, a.conf - 1, a.origin, k).value, p.Trees(d, e, k, a.state).value;
        OriginAnswer(p, d, a, e, ks[1..], Combined(t2, t1, acc));
      } else {
        OriginAnswer(p, d, a, e, ks[1..], acc);
      }
    }
  }

  // ----- an answer takes an answer to each request --------------------------------------------------------------

  ghost predicate Answered(p: Parse, d: nat, a: Item)
    requires p.Valid()
  {
    In(p, a) && p.Trees(d, a.conf, a.origin, a.state).Some?
  }

  lemma AskedAnswer(p: Parse, d: nat, a: Item, b: Item)
    requires p.Valid() && Answered(p, d, a) && Asks(p, a, b)
    ensures d > 0 && Answered(p, d - 1, b)
  {
    var e, k :| ComesUpon(p, a, e, k) && (b == Item(a.conf - 1, a.origin, k) || b == Item(e, k, a.state));
    EnderAsked(p, d - 1, a, p.enders[p.steps[a.conf - 1]], [], e, k);
  }

  lemma {:induction false} EnderAsked(p: Parse, d: nat, a: Item, l: seq<int>, acc: seq<Tree>, e: int, k: int)
    requires p.Valid() && ComesUpon(p, a, e, k) && e in l
    requires p.EnderTrees(d, a.conf, a.origin, a.state, l, acc).Some?
    ensures Answered(p, d, Item(a.conf - 1, a.origin, k)) && Answered(p, d, Item(e, k, a.state))
    decreases |l|
  {
    if l[0] in p.sets[a.state] {
      var ks := p.sets[a.state][l[0]];
      if l[0] == e {
        OriginAsked(p, d, a, e, ks, acc, k);
      } else {
        EnderAsked(p, d, a, l[1..], p.OriginTrees(d, a.conf, a.origin, a.state, l[0], ks, acc).value, e, k);
      }
    } else {
      EnderAsked(p, d, a, l[1..], acc, e, k);
    }
  }

  lemma {:induction false} OriginAsked(p: Parse, d: nat, a: Item, e: int, ks: seq<int>, acc: seq<Tree>, k: int)
    requires p.Valid() && ComesUpon(p, a, e, k) && k in ks && forall x :: x in ks ==> p.Has(e, x, a.state)
    requires p.OriginTrees(d, a.conf, a.origin, a.state, e, ks, acc).Some?
    ensures Answered(p, d, Item(a.conf - 1, a.origin, k)) && Answered(p, d, Item(e, k, a.state))
    decreases |ks|
  {
    var x := ks[0];
    assert x in ks;
    if x != k {
      if x >= a.origin && p.Has(a.conf - 1, a.origin, x) {
        var t1, t2 := p.Trees(d, a.conf - 1, a.origin, x).value, p.Trees(d, e, x, a.state).value;
        OriginAsked(p, d, a, e, ks[1..], Combined(t2, t1, acc), k);
      } else {
        OriginAsked(p, d, a, e, ks[1..], acc, k);
      }
    }
  }

  /** An answer within depth d is reached by fewer than d requests in a row. */
  lemma {:induction false} LeadsBounded(p: Parse, d: nat, a: Item, b: Item, n: nat)
    requires p.Valid() && Answered(p, d, a) && Leads(p, a, b, n)
    ensures n < d && Answered(p, d - n, b)
    decreases n
  {
    hide Asks;
    if n > 0 {
      var m :| Asks(p, a, m) && Leads(p, m, b, n - 1);
      AskedAnswer(p, d, a, m);
      LeadsBounded(p, d - 1, m, b, n - 1);
    }
  }

  lemma NoRequest(p: Parse, a: Item)
    requires p.Valid()
    ensures Leads(p, a, a, 0)
  {
  }

  lemma {:induction false} LeadsRound(p: Parse, b: Item, n: nat, times: nat) returns (m: nat)
    requires p.Valid() && Leads(p, b, b, n) && n > 0
    ensures Leads(p, b, b, m) && m >= times
    decreases times
  {
    hide Leads;
    if times == 0 {
      m := 0;
      NoRequest(p, b);
    } else {
      var r := LeadsRound(p, b, n, times - 1);
      LeadsFurther(p, b, b, b, r, n);
      m := r + n;
    }
  }

  lemma {:induction false} LeadsFurther(p: Parse, a: Item, b: Item, c: Item, n: nat, m: nat)
    requires p.Valid() && Leads(p, a, b, n) && Leads(p, b, c, m)
    ensures Leads(p, a, c, n + m)
    decreases n
  {
    hide Asks;
    if n > 0 {
      var x :| Asks(p, a, x) && Leads(p, x, b, n - 1);
      LeadsFurther(p, x, b, c, n - 1, m);
    }
  }

  lemma CyclicNever(p: Parse, d: nat, a: Item)
    requires p.Valid() && Cyclic(p, a)
    ensures !Answered(p, d, a)
  {
    hide Asks, Leads;
    if Answered(p, d, a) {
      var b :| (b == a || Reaches(p, a, b)) && Reaches(p, b, b);
      var n: nat :| n > 0 && Leads(p, b, b, n);
      var m := LeadsRound(p, b, n, d);
      if b == a {
        LeadsBounded(p, d, a, a, m);
      } else {
        var n': nat :| n' > 0 && Leads(p, a, b, n');
        LeadsFurther(p, a, b, b, n', m);
        LeadsBounded(p, d, a, b, n' + m);
      }
    }
  }

  /** deriv_trees comes to an end exactly when its search reaches no item that reaches itself,
      and then within as many calls in a row as there are items. */
  lemma AnswersExactly(p: Parse, a: Item)
    requires p.Valid() && In(p, a)
    ensures Cyclic(p, a) ==> forall d: nat :: p.Trees(d, a.conf, a.origin, a.state) == None
    ensures !Cyclic(p, a) ==> forall d: nat :: d > |Items(p)| ==> p.Trees(d, a.conf, a.origin, a.state).Some?
  {
    hide Cyclic, Ahead;
    if Cyclic(p, a) {
      forall d: nat ensures p.Trees(d, a.conf, a.origin, a.state) == None {
        CyclicNever(p, d, a);
      }
    } else {
      RankBounded(p, a);
      forall d: nat | d > |Items(p)| ensures p.Trees(d, a.conf, a.origin, a.state).Some? {
        TreesAnswer(p, d, a);
      }
    }
  }

  // ----- a bigger bound gives the same answer -------------------------------------------------------------------

  lemma {:induction false} DeeperTrees(p: Parse, d: nat, d': nat, c: int, i: int, j: int)
    requires p.Valid() && p.Has(c, i, j) && d <= d' && p.Trees(d, c, i, j).Some?
    ensures p.Trees(d', c, i, j) == p.Trees(d, c, i, j)
    decreases d, 0, 0
  {
    assert p.Fits(c, i, j);
    if p.names[c] == None {
      DeeperEnder(p, d - 1, d' - 1, c, i, j, p.enders[p.steps[c - 1]], []);
    }
  }

  lemma {:induction false} DeeperEnder(p: Parse, d: nat, d': nat, c: int, i: int, j: int, l: seq<int>, acc: seq<Tree>)
    requires p.Valid() && c > 0 && 0 <= j < |p.sets| && d <= d' && p.EnderTrees(d, c, i, j, l, acc).Some?
    ensures p.EnderTrees(d', c, i, j, l, acc) == p.EnderTrees(d, c, i, j, l, acc)
    decreases d, 2, |l|
  {
    if l != [] {
      if l[0] in p.sets[j] {
        var ks := p.sets[j][l[0]];
        DeeperOrigin(p, d, d', c, i, j, l[0], ks, acc);
        DeeperEnder(p, d, d', c, i, j, l[1..], p.OriginTrees(d, c, i, j, l[0], ks, acc).value);
      } else {
        DeeperEnder(p, d, d', c, i, j, l[1..], acc);
      }
    }
  }

  lemma {:induction false} DeeperOrigin(p: Parse, d: nat, d': nat, c: int, i: int, j: int, e: int, ks: seq<int>,
    acc: seq<Tree>)
    requires p.Valid() && c > 0 && 0 <= j < |p.sets| && (forall k :: k in ks ==> p.Has(e, k, j)) && d <= d'
    requires p.OriginTrees(d, c, i, j, e, ks, acc).Some?
    ensures p.OriginTrees(d', c, i, j, e, ks, acc) == p.OriginTrees(d, c, i, j, e, ks, acc)
    decreases d, 1, |ks|
  {
    if ks != [] {
      var k := ks[0];
      assert k in ks;
      if k >= i && p.Has(c - 1, i, k) {
        DeeperTrees(p, d, d', c - 1, i, k);
        DeeperTrees(p, d, d', e, k, j);
        var prev, last := p.Trees(d, c - 1, i, k).value, p.Trees(d, e, k, j).value;
        DeeperOrigin(p, d, d', c, i, j, e, ks[1..], Combined(last, prev, acc));
      } else {
        DeeperOrigin(p, d, d', c, i, j, e, ks[1..], acc);
      }
    }
  }

  // ----- lists of items --------------------------------------------------------------------------------------------

  /** None of the items (e, i) of state j, e in the list, leads to a cycle. */
  ghost predicate CycleFree(p: Parse, l: seq<int>, i: nat, j: int)
    requires p.Valid()
  {
    forall e :: e in l && p.Has(e, i, j) ==> !Cyclic(p, Item(e, i, j))
  }

  /** deriv_trees* ends exactly when none of the items that it starts from leads to a cycle. */
  lemma {:induction false} ListAnswers(p: Parse, d: nat, l: seq<int>, i: nat, j: int, acc: seq<Tree>)
    requires p.Valid() && p.Confs(l) && i <= j
    ensures CycleFree(p, l, i, j) && d > |Items(p)| ==> p.ListTrees(d, l, i, j, acc).Some?
    ensures p.ListTrees(d, l, i, j, acc).Some? ==> CycleFree(p, l, i, j)
    decreases |l|
  {
    hide Cyclic, Items, Parse.Trees, Parse.Valid;
    if l != [] {
      assert l == [l[0]] + l[1..];
      if p.Has(l[0], i, j) {
        AnswersExactly(p, Item(l[0], i, j));
        var r := p.Trees(d, l[0], i, j);
        if r.Some? {
          ListAnswers(p, d, l[1..], i, j, r.value + acc);
        }
      } else {
        ListAnswers(p, d, l[1..], i, j, acc);
      }
    }
  }

  lemma {:induction false} DeeperList(p: Parse, d: nat, d': nat, l: seq<int>, i: nat, j: int, acc: seq<Tree>)
    requires p.Valid() && p.Confs(l) && d <= d' && p.ListTrees(d, l, i, j, acc).Some?
    ensures p.ListTrees(d', l, i, j, acc) == p.ListTrees(d, l, i, j, acc)
    decreases |l|
  {
    hide Parse.Valid, Parse.Trees;
    if l != [] {
      if p.Has(l[0], i, j) {
        DeeperTrees(p, d, d', l[0], i, j);
        DeeperList(p, d, d', l[1..], i, j, p.Trees(d, l[0], i, j).value + acc);
      } else if p.Found(l[0], i, j) {
        DeeperList(p, d, d', l[1..], i, j, p.StrayTrees(l[0], i).value + acc);
      } else {
        DeeperList(p, d, d', l[1..], i, j, acc);
      }
    }
  }

  ghost predicate AlwaysLists(p: Parse, d: nat, l: seq<int>, i: nat, j: int, trees: seq<Tree>)
    requires p.Valid() && p.Confs(l)
  {
    p.ListTrees(d, l, i, j, []) == Some(trees) && p.ListCount(d, l, i, j, 0) == Some(|trees|)
  }

  ghost predicate NeverLists(p: Parse, d: nat, l: seq<int>, i: nat, j: int)
    requires p.Valid() && p.Confs(l)
  {
    p.ListTrees(d, l, i, j, []) == None && p.ListCount(d, l, i, j, 0) == None
  }

  /** If no cycle is reached, there is one list that deriv_trees* gives whenever it may go as deep
      as there are items, and nb_deriv_trees* then gives its length; otherwise neither ever
      answers. */
  lemma ListExactlyOnce(p: Parse, l: seq<int>, i: nat, j: int) returns (trees: seq<Tree>)
    requires p.Valid() && p.Confs(l) && i <= j
    ensures forall d: nat :: CycleFree(p, l, i, j) && d > |Items(p)| ==> AlwaysLists(p, d, l, i, j, trees)
    ensures forall d: nat :: !CycleFree(p, l, i, j) ==> NeverLists(p, d, l, i, j)
  {
    hide Items, CycleFree, Parse.Valid, Parse.Trees, Parse.ListTrees, Parse.ListCount;
    var d0 := |Items(p)| + 1;
    ListAnswers(p, d0, l, i, j, []);
    ListAnswers(p, d0, l, i, j, []);
    trees := if CycleFree(p, l, i, j) then p.ListTrees(d0, l, i, j, []).value else [];
    forall d: nat
      ensures CycleFree(p, l, i, j) && d > |Items(p)| ==> AlwaysLists(p, d, l, i, j, trees)
      ensures !CycleFree(p, l, i, j) ==> NeverLists(p, d, l, i, j)
    {
      p.ListLength(d, l, i, j, [], 0);
      ListAnswers(p, d, l, i, j, []);
      if d >= d0 && CycleFree(p, l, i, j) {
        DeeperList(p, d0, d, l, i, j, []);
      }
    }
  }
}
