/** Rewriting by lemmas keeps what a term means. */
module BoyerRewrite {
  // Rewriting need not terminate, so what it computes is given for a bound on the depth of the recursion; a bigger
  // bound never changes an answer.

  import opened BoyerTerms
  import opened BoyerUnify

  type Lemmas = map<string, seq<Lemma>>

  /** The lemma list of a symbol's record. */
  function LemmasOf(lemmas: Lemmas, f: string): seq<Lemma> {
    if f in lemmas then lemmas[f] else []
  }

  /** The rewritten term and the number of calls it took. */
  function Rewrite(lemmas: Lemmas, t: Term, depth: nat): Option<(Term, nat)>
    decreases depth, 0
  {
    if depth == 0 then None
    else match t
      case Leaf(_) => Some((t, 1))
      case App(f, args) =>
        match RewriteArgs(lemmas, args, depth - 1)
        case None => None
        case Some((args', c)) =>
          match TryLemmas(lemmas, App(f, args'), LemmasOf(lemmas, f), depth - 1)
          case None => None
          case Some((u, c')) => Some((u, 1 + c + c'))
  }

  function RewriteArgs(lemmas: Lemmas, ts: seq<Term>, depth: nat): Option<(seq<Term>, nat)>
    decreases depth, 1, ts
  {
    if ts == [] then Some(([], 0))
    else match Rewrite(lemmas, ts[0], depth)
      case None => None
      case Some((u, c)) =>
        match RewriteArgs(lemmas, ts[1..], depth)
        case None => None
        case Some((us, c')) => Some(([u] + us, c + c'))
  }

  /** The first lemma whose left side matches is used, and its right side rewritten again. */
  function TryLemmas(lemmas: Lemmas, t: Term, lst: seq<Lemma>, depth: nat): Option<(Term, nat)>
    decreases depth, 1, lst
  {
    if lst == [] then Some((t, 0))
    else
      var (ok, s) := OneWayUnify(t, lst[0].lhs, []);
      if ok then Rewrite(lemmas, ApplySubst(s, lst[0].rhs), depth) else TryLemmas(lemmas, t, lst[1..], depth)
  }

  // ----- a bigger bound gives the same answer ----------------------------------------------------------

  lemma {:induction false} DeeperRewrite(lemmas: Lemmas, t: Term, d: nat, d': nat)
    requires d <= d' && Rewrite(lemmas, t, d).Some?
    ensures Rewrite(lemmas, t, d') == Rewrite(lemmas, t, d)
    decreases d, 0
  {
    match t
    case Leaf(_) =>
    case App(f, args) =>
      DeeperArgs(lemmas, args, d - 1, d' - 1);
      var args' := RewriteArgs(lemmas, args, d - 1).value.0;
      DeeperTry(lemmas, App(f, args'), LemmasOf(lemmas, f), d - 1, d' - 1);
  }

  lemma {:induction false} DeeperArgs(lemmas: Lemmas, ts: seq<Term>, d: nat, d': nat)
    requires d <= d' && RewriteArgs(lemmas, ts, d).Some?
    ensures RewriteArgs(lemmas, ts, d') == RewriteArgs(lemmas, ts, d)
    decreases d, 1, ts
  {
    if ts != [] {
      DeeperRewrite(lemmas, ts[0], d, d');
      DeeperArgs(lemmas, ts[1..], d, d');
    }
  }

  lemma {:induction false} DeeperTry(lemmas: Lemmas, t: Term, lst: seq<Lemma>, d: nat, d': nat)
    requires d <= d' && TryLemmas(lemmas, t, lst, d).Some?
    ensures TryLemmas(lemmas, t, lst, d') == TryLemmas(lemmas, t, lst, d)
    decreases d, 1, lst
  {
    if lst != [] {
      var (ok, s) := OneWayUnify(t, lst[0].lhs, []);
      if ok {
        DeeperRewrite(lemmas, ApplySubst(s, lst[0].rhs), d, d');
      } else {
        DeeperTry(lemmas, t, lst[1..], d, d');
      }
    }
  }

  // ----- rewriting keeps the meaning -----------------------------------------------------------------

  lemma {:induction false} RewriteKeepsMeaning<D(!new)>(lemmas: Lemmas, t: Term, d: nat, m: Model<D>, v: Atom -> D)
    requires Rewrite(lemmas, t, d).Some? && ModelOf(m, lemmas) && Valuation(m, v)
    ensures Eval(m, v, Rewrite(lemmas, t, d).value.0) == Eval(m, v, t)
    decreases d, 0
  {
    match t
    case Leaf(_) =>
    case App(f, args) =>
      ArgsKeepMeaning(lemmas, args, d - 1, m, v);
      var t' := App(f, RewriteArgs(lemmas, args, d - 1).value.0);
      assert forall i :: 0 <= i < |LemmasOf(lemmas, f)| ==> Holds(m, LemmasOf(lemmas, f)[i]);
      TryKeepsMeaning(lemmas, t', LemmasOf(lemmas, f), d - 1, m, v);
  }

  lemma {:induction false} ArgsKeepMeaning<D(!new)>(lemmas: Lemmas, ts: seq<Term>, d: nat, m: Model<D>, v: Atom -> D)
    requires RewriteArgs(lemmas, ts, d).Some? && ModelOf(m, lemmas) && Valuation(m, v)
    ensures EvalList(m, v, RewriteArgs(lemmas, ts, d).value.0) == EvalList(m, v, ts)
    decreases d, 1, ts
  {
    if ts != [] {
      RewriteKeepsMeaning(lemmas, ts[0], d, m, v);
      ArgsKeepMeaning(lemmas, ts[1..], d, m, v);
    }
  }

  lemma {:induction false} TryKeepsMeaning<D(!new)>(lemmas: Lemmas, t: Term, lst: seq<Lemma>, d: nat, m: Model<D>,
    v: Atom -> D)
    requires TryLemmas(lemmas, t, lst, d).Some? && ModelOf(m, lemmas) && Valuation(m, v)
    requires forall i :: 0 <= i < |lst| ==> Holds(m, lst[i])
    ensures Eval(m, v, TryLemmas(lemmas, t, lst, d).value.0) == Eval(m, v, t)
    decreases d, 1, lst
  {
    if lst != [] {
      var l := lst[0];
      var (ok, s) := OneWayUnify(t, l.lhs, []);
      if ok {
        MatchKeepsMeaning(t, l, s, m, v);
        RewriteKeepsMeaning(lemmas, ApplySubst(s, l.rhs), d, m, v);
      } else {
        TryKeepsMeaning(lemmas, t, lst[1..], d, m, v);
      }
    }
  }

  lemma MatchKeepsMeaning<D(!new)>(t: Term, l: Lemma, s: Subst, m: Model<D>, v: Atom -> D)
    requires OneWayUnify(t, l.lhs, []) == (true, s) && Holds(m, l) && Valuation(m, v)
    ensures Eval(m, v, ApplySubst(s, l.rhs)) == Eval(m, v, t)
  {
    UnifyDecides(t, l.lhs);
    ApplyIsInstance(s, l.lhs);
    ApplyIsInstance(s, l.rhs);
    InstanceHolds(m, v, l, AsFunction(s));
  }

  // ----- the result is a normal form -------------------------------------------------------------------

  /** No lemma of its own symbol matches any subterm. */
  ghost predicate Normal(lemmas: Lemmas, t: Term)
    decreases t
  {
    match t
    case Leaf(_) => true
    case App(f, args) => NormalList(lemmas, args) && NoMatch(t, LemmasOf(lemmas, f))
  }

  ghost predicate NormalList(lemmas: Lemmas, ts: seq<Term>)
    decreases ts
  {
    ts == [] || (Normal(lemmas, ts[0]) && NormalList(lemmas, ts[1..]))
  }

  /** t is no instance of any left side in the list. */
  ghost predicate NoMatch(t: Term, lst: seq<Lemma>) {
    forall i, sigma :: 0 <= i < |lst| && FixesNumbers(sigma) ==> Instance(sigma, lst[i].lhs) != t
  }

  lemma {:induction false} RewriteIsNormal(lemmas: Lemmas, t: Term, d: nat)
    requires Rewrite(lemmas, t, d).Some?
    ensures Normal(lemmas, Rewrite(lemmas, t, d).value.0)
    decreases d, 0
  {
    match t
    case Leaf(_) =>
    case App(f, args) =>
      ArgsAreNormal(lemmas, args, d - 1);
      TryIsNormal(lemmas, App(f, RewriteArgs(lemmas, args, d - 1).value.0), LemmasOf(lemmas, f), d - 1, []);
  }

  lemma {:induction false} ArgsAreNormal(lemmas: Lemmas, ts: seq<Term>, d: nat)
    requires RewriteArgs(lemmas, ts, d).Some?
    ensures NormalList(lemmas, RewriteArgs(lemmas, ts, d).value.0)
    decreases d, 1, ts
  {
    if ts != [] {
      RewriteIsNormal(lemmas, ts[0], d);
      ArgsAreNormal(lemmas, ts[1..], d);
      var us := RewriteArgs(lemmas, ts, d).value.0;
      assert us[1..] == RewriteArgs(lemmas, ts[1..], d).value.0;
    }
  }

  lemma {:induction false} TryIsNormal(lemmas: Lemmas, t: Term, lst: seq<Lemma>, d: nat, tried: seq<Lemma>)
    requires t.App? && NormalList(lemmas, t.args) && LemmasOf(lemmas, t.fn) == tried + lst && NoMatch(t, tried)
    requires TryLemmas(lemmas, t, lst, d).Some?
    ensures Normal(lemmas, TryLemmas(lemmas, t, lst, d).value.0)
    decreases d, 1, lst
  {
    if lst == [] {
      assert tried + lst == tried;
    } else {
      UnifyDecides(t, lst[0].lhs);
      var (ok, s) := OneWayUnify(t, lst[0].lhs, []);
      if ok {
        RewriteIsNormal(lemmas, ApplySubst(s, lst[0].rhs), d);
      } else {
        assert tried + lst == (tried + [lst[0]]) + lst[1..];
        TryIsNormal(lemmas, t, lst[1..], d, tried + [lst[0]]);
      }
    }
  }

  // ----- and normal forms are left alone ----------------------------------------------------------------

  function Size(t: Term): nat
    decreases t
  {
    match t
    case Leaf(_) => 1
    case App(_, args) => 1 + SizeList(args)
  }

  function SizeList(ts: seq<Term>): nat
    decreases ts
  {
    if ts == [] then 0 else Size(ts[0]) + SizeList(ts[1..])
  }

  /** A normal form is rewritten to itself, with one call for each of its subterms. */
  lemma {:induction false} NormalIsFixed(lemmas: Lemmas, t: Term, d: nat)
    requires Normal(lemmas, t) && d >= Size(t)
    ensures Rewrite(lemmas, t, d) == Some((t, Size(t)))
    decreases t
  {
    match t
    case Leaf(_) =>
    case App(f, args) =>
      NormalArgsAreFixed(lemmas, args, d - 1);
      NothingMatches(lemmas, t, LemmasOf(lemmas, f), d - 1);
  }

  lemma {:induction false} NormalArgsAreFixed(lemmas: Lemmas, ts: seq<Term>, d: nat)
    requires NormalList(lemmas, ts) && d >= SizeList(ts)
    ensures RewriteArgs(lemmas, ts, d) == Some((ts, SizeList(ts)))
    decreases ts
  {
    if ts != [] {
      NormalIsFixed(lemmas, ts[0], d);
      NormalArgsAreFixed(lemmas, ts[1..], d);
      assert ts == [ts[0]] + ts[1..];
    }
  }

  lemma {:induction false} NothingMatches(lemmas: Lemmas, t: Term, lst: seq<Lemma>, d: nat)
    requires NoMatch(t, lst)
    ensures TryLemmas(lemmas, t, lst, d) == Some((t, 0))
    decreases lst
  {
    if lst != [] {
      UnifyDecides(t, lst[0].lhs);
      NothingMatches(lemmas, t, lst[1..], d);
    }
  }

  /** Rewriting a rewritten term changes nothing. */
  lemma RewriteTwice(lemmas: Lemmas, t: Term, d: nat, u: Term, c: nat)
    requires Rewrite(lemmas, t, d) == Some((u, c))
    ensures Rewrite(lemmas, u, Size(u)) == Some((u, Size(u)))
  {
    RewriteIsNormal(lemmas, t, d);
    NormalIsFixed(lemmas, u, Size(u));
  }
}
