/** One-way unification: is one term an instance of the other? */
module BoyerUnify {
  // The bindings found so far are a global list in the program; here they are passed in and out.

  import opened BoyerTerms

  /** The answer, and the bindings as they are afterwards, also when the answer is no. */
  function OneWayUnify(t1: Term, t2: Term, s: Subst): (bool, Subst)
    decreases t2
  {
    match t2
    case Leaf(a) => (
      match Assq(a, s)
      case Some(u) => (IsTermEqual(t1, u), s)
      case None => if a.Num? then (t1 == Leaf(a), s) else (true, [(a, t1)] + s))
    case App(f, args) =>
      if t1.Leaf? || t1.fn != f then (false, s) else OneWayUnifyList(t1.args, args, s)
  }

  function OneWayUnifyList(l1: seq<Term>, l2: seq<Term>, s: Subst): (bool, Subst)
    decreases l2
  {
    if l1 == [] then (l2 == [], s)
    else if l2 == [] then (false, s)
    else
      var (ok, s') := OneWayUnify(l1[0], l2[0], s);
      if ok then OneWayUnifyList(l1[1..], l2[1..], s') else (false, s')
  }

  // ----- bindings are only added -------------------------------------------------------------------

  ghost predicate NoNumbers(s: Subst) {
    forall i :: 0 <= i < |s| ==> !s[i].0.Num?
  }

  /** What s binds, s' binds to the same term. */
  ghost predicate Extends(s': Subst, s: Subst) {
    forall a :: Assq(a, s).Some? ==> Assq(a, s') == Assq(a, s)
  }

  /** Every atom of t that is not a number is bound. */
  ghost predicate Bound(t: Term, s: Subst)
    decreases t
  {
    match t
    case Leaf(a) => a.Num? || Assq(a, s).Some?
    case App(_, args) => BoundList(args, s)
  }

  ghost predicate BoundList(ts: seq<Term>, s: Subst)
    decreases ts
  {
    ts == [] || (Bound(ts[0], s) && BoundList(ts[1..], s))
  }

  lemma {:induction false} Unbound(a: Atom, s: Subst)
    requires NoNumbers(s) && a.Num?
    ensures Assq(a, s) == None
  {
    if s != [] {
      Unbound(a, s[1..]);
    }
  }

  lemma {:induction false} StaysBound(t: Term, s: Subst, s': Subst)
    requires Extends(s', s) && Bound(t, s) && NoNumbers(s) && NoNumbers(s')
    ensures Bound(t, s') && ApplySubst(s', t) == ApplySubst(s, t)
    decreases t
  {
    match t
    case Leaf(a) =>
      if a.Num? {
        Unbound(a, s);
        Unbound(a, s');
      }
    case App(_, args) => StaysBoundList(args, s, s');
  }

  lemma {:induction false} StaysBoundList(ts: seq<Term>, s: Subst, s': Subst)
    requires Extends(s', s) && BoundList(ts, s) && NoNumbers(s) && NoNumbers(s')
    ensures BoundList(ts, s') && ApplySubstList(s', ts) == ApplySubstList(s, ts)
    decreases ts
  {
    if ts != [] {
      StaysBound(ts[0], s, s');
      StaysBoundList(ts[1..], s, s');
    }
  }

  // ----- yes means: the bindings turn t2 into t1 ----------------------------------------------------

  lemma {:induction false} UnifySound(t1: Term, t2: Term, s: Subst)
    requires NoNumbers(s)
    ensures
      var (ok, s') := OneWayUnify(t1, t2, s);
      NoNumbers(s') && Extends(s', s) && (ok ==> Bound(t2, s') && ApplySubst(s', t2) == t1)
    decreases t2
  {
    match t2
    case Leaf(a) =>
      if a.Num? {
        Unbound(a, s);
      }
    case App(f, args) =>
      if t1.App? && t1.fn == f {
        UnifyListSound(t1.args, args, s);
      }
  }

  lemma {:induction false} UnifyListSound(l1: seq<Term>, l2: seq<Term>, s: Subst)
    requires NoNumbers(s)
    ensures
      var (ok, s') := OneWayUnifyList(l1, l2, s);
      NoNumbers(s') && Extends(s', s) && (ok ==> BoundList(l2, s') && ApplySubstList(s', l2) == l1)
    decreases l2
  {
    if l1 != [] && l2 != [] {
      UnifySound(l1[0], l2[0], s);
      var (ok, s1) := OneWayUnify(l1[0], l2[0], s);
      if ok {
        UnifyListSound(l1[1..], l2[1..], s1);
        var (_, s2) := OneWayUnifyList(l1[1..], l2[1..], s1);
        StaysBound(l2[0], s1, s2);
        assert l1 == [l1[0]] + l1[1..];
      }
    }
  }

  // ----- no means: nothing turns t2 into t1 -----------------------------------------------------------

  /** sigma agrees with every binding of s. */
  ghost predicate Agrees(sigma: Atom -> Term, s: Subst) {
    forall a :: Assq(a, s).Some? ==> Assq(a, s).value == sigma(a)
  }

  lemma {:induction false} UnifyComplete(t1: Term, t2: Term, s: Subst, sigma: Atom -> Term)
    requires FixesNumbers(sigma) && Agrees(sigma, s) && Instance(sigma, t2) == t1
    ensures
      var (ok, s') := OneWayUnify(t1, t2, s);
      ok && Agrees(sigma, s')
    decreases t2
  {
    match t2
    case Leaf(_) =>
    case App(_, args) => UnifyListComplete(t1.args, args, s, sigma);
  }

  lemma {:induction false} UnifyListComplete(l1: seq<Term>, l2: seq<Term>, s: Subst, sigma: Atom -> Term)
    requires FixesNumbers(sigma) && Agrees(sigma, s) && InstanceList(sigma, l2) == l1
    ensures
      var (ok, s') := OneWayUnifyList(l1, l2, s);
      ok && Agrees(sigma, s')
    decreases l2
  {
    if l2 != [] {
      assert l1[0] == Instance(sigma, l2[0]) && l1[1..] == InstanceList(sigma, l2[1..]);
      UnifyComplete(l1[0], l2[0], s, sigma);
      UnifyListComplete(l1[1..], l2[1..], OneWayUnify(l1[0], l2[0], s).1, sigma);
    }
  }

  /** From no bindings, the matcher says yes exactly when t1 is an instance of t2, and then its
      bindings are such a substitution. */
  lemma UnifyDecides(t1: Term, t2: Term)
    ensures
      var (ok, s) := OneWayUnify(t1, t2, []);
      && (ok <==> exists sigma :: FixesNumbers(sigma) && Instance(sigma, t2) == t1)
      && (ok ==> FixesNumbers(AsFunction(s)) && ApplySubst(s, t2) == t1)
  {
    var (ok, s) := OneWayUnify(t1, t2, []);
    UnifySound(t1, t2, []);
    forall n ensures AsFunction(s)(Num(n)) == Leaf(Num(n)) {
      Unbound(Num(n), s);
    }
    ApplyIsInstance(s, t2);
    if sigma :| FixesNumbers(sigma) && Instance(sigma, t2) == t1 {
      UnifyComplete(t1, t2, [], sigma);
    }
    if ok {
      assert FixesNumbers(AsFunction(s)) && Instance(AsFunction(s), t2) == t1;
    }
  }

  /** Two substitutions that turn t2 into t1 agree on all of its variables, so the bindings
      that are found are the only ones. */
  lemma {:induction false} UnifyUnique(t1: Term, t2: Term, s: Subst, sigma: Atom -> Term)
    requires OneWayUnify(t1, t2, []) == (true, s)
    requires FixesNumbers(sigma) && Instance(sigma, t2) == t1
    ensures forall a :: Assq(a, s).Some? ==> Assq(a, s).value == sigma(a)
  {
    UnifyComplete(t1, t2, [], sigma);
  }
}
