/** The prover as a program with its state. */
module BoyerProver {
  // The state: the symbol records' lemma lists, the bindings of the last match and the rewrite counter.

  import opened BoyerNormal
  import opened BoyerRewrite
  import opened BoyerTautology
  import opened BoyerTerms
  import opened BoyerUnify

  /** The term handed to the prover, n times or'ed with false. */
  function OrFalse(t: Term, n: nat): Term
    decreases n
  {
    if n == 0 then t else OrFalse(App("or", [t, FALSE]), n - 1)
  }

  /** Rewriting the goal ends, in a term that is valid. */
  ghost predicate ProvedBy(lemmas: Lemmas, goal: Term, depth: nat) {
    var r := BoyerRewrite.Rewrite(lemmas, goal, depth);
    r.Some? && Valid(r.value.0)
  }

  /** The left side of an equation must be an application. */
  predicate Usable(equations: seq<Lemma>) {
    forall e :: e in equations ==> e.lhs.App?
  }

  /** The lemma lists after the equations have been added one by one, each in front. */
  function AddAll(equations: seq<Lemma>, lemmas: Lemmas): Lemmas
    requires Usable(equations)
  {
    if equations == [] then lemmas
    else
      var f := equations[0].lhs.fn;
      AddAll(equations[1..], lemmas[f := [equations[0]] + LemmasOf(lemmas, f)])
  }

  /** The equations for one symbol, the last one first. */
  function Backwards(equations: seq<Lemma>, f: string): seq<Lemma>
    requires Usable(equations)
  {
    if equations == [] then []
    else if equations[0].lhs.fn == f then Backwards(equations[1..], f) + [equations[0]]
    else Backwards(equations[1..], f)
  }

  /** A later equation is tried before an earlier one. */
  lemma {:induction false} AddedLemmas(equations: seq<Lemma>, lemmas: Lemmas, f: string)
    requires Usable(equations)
    ensures LemmasOf(AddAll(equations, lemmas), f) == Backwards(equations, f) + LemmasOf(lemmas, f)
  {
    if equations != [] {
      var g := equations[0].lhs.fn;
      AddedLemmas(equations[1..], lemmas[g := [equations[0]] + LemmasOf(lemmas, g)], f);
      assert Backwards(equations[1..], f) + ([equations[0]] + LemmasOf(lemmas, g))
          == Backwards(equations[1..], f) + [equations[0]] + LemmasOf(lemmas, g);
    }
  }

  lemma {:induction false} BackwardsHolds(equations: seq<Lemma>, f: string)
    requires Usable(equations)
    ensures forall e :: e in Backwards(equations, f) <==> e in equations && e.lhs.fn == f
  {
    if equations != [] {
      BackwardsHolds(equations[1..], f);
    }
  }

  /** A model of the equations is a model of the lemma lists made from them. */
  lemma SetupModels<D(!new)>(equations: seq<Lemma>, m: Model<D>)
    requires Usable(equations) && forall e :: e in equations ==> Holds(m, e)
    ensures ModelOf(m, AddAll(equations, map[]))
  {
    var lemmas := AddAll(equations, map[]);
    forall f, i | f in lemmas && 0 <= i < |lemmas[f]| ensures Holds(m, lemmas[f][i]) {
      AddedLemmas(equations, map[], f);
      BackwardsHolds(equations, f);
      assert lemmas[f][i] in Backwards(equations, f);
    }
  }

  /** With the equation for nested conditions among them, and right sides whose ifs have three
      arguments, the lemma lists leave no if in a condition. */
  lemma SetupUnnests(equations: seq<Lemma>)
    requires Usable(equations) && UNNEST in equations && forall e :: e in equations ==> FullIfs(e.rhs)
    ensures Unnesting(AddAll(equations, map[]))
  {
    var lemmas: Lemmas := AddAll(equations, map[]);
    forall f, i | f in lemmas && 0 <= i < |lemmas[f]| ensures FullIfs(lemmas[f][i].rhs) {
      AddedLemmas(equations, map[], f);
      BackwardsHolds(equations, f);
      assert lemmas[f][i] in Backwards(equations, f);
    }
    AddedLemmas(equations, map[], "if");
    BackwardsHolds(equations, "if");
    assert UNNEST in Backwards(equations, "if");
  }

  class Prover {
    var lemmas: Lemmas
    var unifySubst: Subst
    var rewriteCount: int

    constructor ()
      ensures lemmas == map[] && unifySubst == [] && rewriteCount == 0
    {
      lemmas, unifySubst, rewriteCount := map[], [], 0;
    }

    // the equations become lemmas, up to the first one that is turned down with an error
    method Setup(equations: seq<Lemma>) returns (added: nat)
      modifies this`lemmas
      ensures added <= |equations| && Usable(equations[..added])
      ensures lemmas == AddAll(equations[..added], map[])
      ensures added < |equations| ==> equations[added].lhs.Leaf?
    {
      lemmas := map[];
      added := 0;
      while added < |equations|
        invariant added <= |equations| && Usable(equations[..added])
        invariant lemmas == AddAll(equations[..added], map[])
      {
        var e := equations[added];
        if e.lhs.Leaf? { return; }
        AddOne(equations[..added], e, map[]);
        assert equations[..added + 1] == equations[..added] + [e];
        lemmas := lemmas[e.lhs.fn := [e] + LemmasOf(lemmas, e.lhs.fn)];
        added := added + 1;
      }
      assert equations[..added] == equations;
    }

    // is term1 an instance of term2, given the bindings so far? More bindings are left behind.
    method OneWayUnify1(term1: Term, term2: Term) returns (ok: bool)
      modifies this`unifySubst
      ensures (ok, unifySubst) == OneWayUnify(term1, term2, old(unifySubst))
      decreases term2
    {
      match term2
      case Leaf(a) =>
        var bound := Assq(a, unifySubst);
        if bound.Some? {
          return IsTermEqual(term1, bound.value);
        } else if a.Num? {
          return IsTermEqual(term1, term2);
        } else {
          unifySubst := [(a, term1)] + unifySubst;
          return true;
        }
      case App(f, args) =>
        if term1.Leaf? { return false; }
        if term1.fn != f { return false; }
        var lst1, lst2 := term1.args, args;
        while true
          invariant forall x :: x in lst2 ==> x in args
          invariant OneWayUnifyList(lst1, lst2, unifySubst) == OneWayUnifyList(term1.args, args, old(unifySubst))
          decreases lst2
        {
          if lst1 == [] { return lst2 == []; }
          if lst2 == [] { return false; }
          var same := OneWayUnify1(lst1[0], lst2[0]);
          if !same { return false; }
          lst1, lst2 := lst1[1..], lst2[1..];
        }
    }

    // rewrites by the lemmas, unless that recurses more than depth deep
    method Rewrite(term: Term, depth: nat) returns (r: Option<Term>)
      modifies this`unifySubst, this`rewriteCount
      ensures r.Some? <==> BoyerRewrite.Rewrite(lemmas, term, depth).Some?
      ensures r.Some? ==>
        BoyerRewrite.Rewrite(lemmas, term, depth) == Some((r.value, rewriteCount - old(rewriteCount)))
      decreases depth, 0
    {
      if depth == 0 { return None; }
      rewriteCount := rewriteCount + 1;
      match term
      case Leaf(_) => return Some(term);
      case App(f, args) =>
        var args' := RewriteList(args, depth - 1);
        if args' == None { return None; }
        var term' := App(f, args'.value);
        var lst := LemmasOf(lemmas, f);
        while lst != []
          invariant TryLemmas(lemmas, term', lst, depth - 1) == TryLemmas(lemmas, term', LemmasOf(lemmas, f), depth - 1)
          invariant RewriteArgs(lemmas, args, depth - 1) == Some((term'.args, rewriteCount - old(rewriteCount) - 1))
          decreases lst
        {
          unifySubst := [];
          var matches := OneWayUnify1(term', lst[0].lhs);
          if matches {
            r := Rewrite(ApplySubst(unifySubst, lst[0].rhs), depth - 1);
            return;
          }
          lst := lst[1..];
        }
        return Some(term');
    }

    method RewriteList(lst: seq<Term>, depth: nat) returns (r: Option<seq<Term>>)
      modifies this`unifySubst, this`rewriteCount
      ensures r.Some? <==> RewriteArgs(lemmas, lst, depth).Some?
      ensures r.Some? ==> RewriteArgs(lemmas, lst, depth) == Some((r.value, rewriteCount - old(rewriteCount)))
      decreases depth, 1, lst
    {
      if lst == [] { return Some([]); }
      var first := Rewrite(lst[0], depth);
      if first == None { return None; }
      var rest := RewriteList(lst[1..], depth);
      if rest == None { return None; }
      return Some([first.value] + rest.value);
    }

    // proves an instance of the term: the number of rewrites if it is proved, None if it is not
    // (or the depth does not suffice, or an if has too few arguments)
    method Test(term: Term, alist: Subst, n: nat, depth: nat) returns (answer: Option<int>)
      modifies this`unifySubst, this`rewriteCount
      ensures
        answer == match BoyerRewrite.Rewrite(lemmas, ApplySubst(alist, OrFalse(term, n)), depth)
                  case None => None
                  case Some((t, c)) => if Tautologyp(t, [], []) == Some(true) then Some(c as int) else None
      ensures Unnesting(lemmas) && FullIfs(term) && FullBindings(alist) ==>
        (answer.Some? <==> ProvedBy(lemmas, ApplySubst(alist, OrFalse(term, n)), depth))
    {
      TestDecides(lemmas, term, alist, n, depth);
      rewriteCount := 0;
      var goal, k := term, n;
      while k != 0
        invariant OrFalse(goal, k) == OrFalse(term, n)
      {
        goal := App("or", [goal, FALSE]);
        k := k - 1;
      }
      var rewritten := Rewrite(ApplySubst(alist, goal), depth);
      if rewritten == None { return None; }
      var proved := Tautologyp(rewritten.value, [], []);
      return if proved == Some(true) then Some(rewriteCount) else None;
    }
  }

  lemma {:induction false} OrFalseIsFull(t: Term, n: nat)
    requires FullIfs(t)
    ensures FullIfs(OrFalse(t, n))
    decreases n
  {
    if n > 0 {
      var u := App("or", [t, FALSE]);
      assert FullIfs(FALSE) && FullIfsIn([FALSE][1..]);
      assert u.args[1..] == [FALSE];
      OrFalseIsFull(u, n - 1);
    }
  }

  /** The checker never lacks an argument, and it says yes exactly to what the prover should
      prove. */
  lemma TestDecides(lemmas: Lemmas, term: Term, alist: Subst, n: nat, depth: nat)
    ensures
      var goal := ApplySubst(alist, OrFalse(term, n));
      var r := BoyerRewrite.Rewrite(lemmas, goal, depth);
      Unnesting(lemmas) && FullIfs(term) && FullBindings(alist) && r.Some? ==>
        var answer := Tautologyp(r.value.0, [], []);
        answer.Some? && (answer == Some(true) <==> ProvedBy(lemmas, goal, depth))
  {
    var goal := ApplySubst(alist, OrFalse(term, n));
    if Unnesting(lemmas) && FullIfs(term) && FullBindings(alist)
      && BoyerRewrite.Rewrite(lemmas, goal, depth).Some?
    {
      OrFalseIsFull(term, n);
      ApplyKeepsFull(alist, OrFalse(term, n));
      RewrittenIsDecided(lemmas, goal, depth);
    }
  }

  lemma {:induction false} AddOne(equations: seq<Lemma>, e: Lemma, lemmas: Lemmas)
    requires Usable(equations) && e.lhs.App?
    ensures
      var f, before := e.lhs.fn, AddAll(equations, lemmas);
      AddAll(equations + [e], lemmas) == before[f := [e] + LemmasOf(before, f)]
  {
    if equations == [] {
      assert equations + [e] == [e];
      var added := lemmas[e.lhs.fn := [e] + LemmasOf(lemmas, e.lhs.fn)];
      assert AddAll([], added) == added;
    } else {
      var g := equations[0].lhs.fn;
      assert (equations + [e])[1..] == equations[1..] + [e];
      AddOne(equations[1..], e, lemmas[g := [equations[0]] + LemmasOf(lemmas, g)]);
    }
  }

  /** What a yes of the prover means: the goal is true in every model of the equations in which
      t, f and if mean what they should, whatever its variables stand for. */
  lemma ProvedIsTrue<D(!new)>(equations: seq<Lemma>, goal: Term, depth: nat, m: Model<D>, v: Atom -> D)
    requires Usable(equations) && (forall e :: e in equations ==> Holds(m, e))
    requires Lawful(m) && Valuation(m, v)
    requires BoyerRewrite.Rewrite(AddAll(equations, map[]), goal, depth).Some?
    requires Tautologyp(BoyerRewrite.Rewrite(AddAll(equations, map[]), goal, depth).value.0, [], []) == Some(true)
    ensures True(m, v, goal)
  {
    var lemmas := AddAll(equations, map[]);
    SetupModels(equations, m);
    RewriteKeepsMeaning(lemmas, goal, depth, m, v);
    TautologySound(BoyerRewrite.Rewrite(lemmas, goal, depth).value.0, [], [], m, v);
  }
}
