/** The steps of rewriting. */
module BoyerSteps {
  // Which equation a step uses, and how many calls it takes.
  //
  // Rewriting is described on the equations as they are given, without lemma lists or a matcher: arguments first,
  // then the last equation whose left side the term is an instance of, then the right side.

  import opened BoyerTerms
  import opened BoyerUnify
  import opened BoyerRewrite
  import opened BoyerProver

  ghost predicate Occurs(a: Atom, t: Term)
    decreases t
  {
    match t
    case Leaf(b) => a == b
    case App(_, args) => OccursIn(a, args)
  }

  ghost predicate OccursIn(a: Atom, ts: seq<Term>)
    decreases ts
  {
    ts != [] && (Occurs(a, ts[0]) || OccursIn(a, ts[1..]))
  }

  /** With sigma for its variables the left side is t; sigma leaves all other atoms as they are. */
  ghost predicate Matches(l: Lemma, sigma: Atom -> Term, t: Term) {
    && FixesNumbers(sigma) && Instance(sigma, l.lhs) == t
    && forall a :: !Occurs(a, l.lhs) ==> sigma(a) == Leaf(a)
  }

  /** No equation from number k on matches t. */
  ghost predicate NoneFrom(equations: seq<Lemma>, k: nat, t: Term) {
    forall i, sigma :: k <= i < |equations| ==> !Matches(equations[i], sigma, t)
  }

  /** Equation k matches t, and no later one does. */
  ghost predicate LastMatch(equations: seq<Lemma>, k: nat, sigma: Atom -> Term, t: Term) {
    k < |equations| && Matches(equations[k], sigma, t) && NoneFrom(equations, k + 1, t)
  }

  /** t is rewritten to u in c calls, nested at most depth deep. */
  ghost predicate Rewrites(equations: seq<Lemma>, t: Term, u: Term, c: int, depth: nat)
    decreases depth, 0
  {
    depth > 0 &&
    match t
    case Leaf(_) => u == t && c == 1
    case App(f, args) => exists args': seq<Term>, c0: int :: RewritesBy(equations, t, args', c0, u, c, depth)
  }

  /** One call, c0 calls for the arguments, and those of the step. */
  ghost predicate RewritesBy(equations: seq<Lemma>, t: Term, args': seq<Term>, c0: int, u: Term, c: int, depth: nat)
    requires depth > 0 && t.App?
    decreases depth - 1, 3
  {
    && RewritesAll(equations, t.args, args', c0, depth - 1)
    && Steps(equations, App(t.fn, args'), u, c - 1 - c0, depth - 1)
  }

  ghost predicate RewritesAll(equations: seq<Lemma>, ts: seq<Term>, us: seq<Term>, c: int, depth: nat)
    decreases depth, 2, ts
  {
    |us| == |ts| &&
    if ts == [] then c == 0
    else exists c0: int ::
      Rewrites(equations, ts[0], us[0], c0, depth) && RewritesAll(equations, ts[1..], us[1..], c - c0, depth)
  }

  /** The last equation that matches is used once, and what it gives is rewritten; a term that none
      matches is left alone. */
  ghost predicate Steps(equations: seq<Lemma>, t: Term, u: Term, c: int, depth: nat)
    decreases depth, 1
  {
    || (NoneFrom(equations, 0, t) && u == t && c == 0)
    || (exists k: nat, sigma ::
          LastMatch(equations, k, sigma, t) && Rewrites(equations, Instance(sigma, equations[k].rhs), u, c, depth))
  }

  lemma ByWhat(equations: seq<Lemma>, t: Term, u: Term, c: int, depth: nat) returns (args': seq<Term>, c0: int)
    requires t.App? && Rewrites(equations, t, u, c, depth)
    ensures depth > 0 && RewritesBy(equations, t, args', c0, u, c, depth)
  {
    args', c0 :| RewritesBy(equations, t, args', c0, u, c, depth);
  }

  lemma FirstCalls(equations: seq<Lemma>, ts: seq<Term>, us: seq<Term>, c: int, depth: nat) returns (c0: int)
    requires ts != [] && RewritesAll(equations, ts, us, c, depth)
    ensures us != [] && Rewrites(equations, ts[0], us[0], c0, depth)
    ensures RewritesAll(equations, ts[1..], us[1..], c - c0, depth)
  {
    c0 :| Rewrites(equations, ts[0], us[0], c0, depth) && RewritesAll(equations, ts[1..], us[1..], c - c0, depth);
  }

  // ----- matching -------------------------------------------------------------------------------------------------

  /** The matcher binds the atoms of the pattern that are not numbers, and no others. */
  lemma {:induction false} BindsExactly(t1: Term, t2: Term, s: Subst, a: Atom)
    requires OneWayUnify(t1, t2, s).0 && NoNumbers(s)
    ensures Assq(a, OneWayUnify(t1, t2, s).1).Some? <==> Assq(a, s).Some? || (Occurs(a, t2) && !a.Num?)
    decreases t2
  {
    match t2
    case Leaf(b) =>
      if a.Num? {
        Unbound(a, s);
      }
    case App(f, args) => BindsExactlyList(t1.args, args, s, a);
  }

  lemma {:induction false} BindsExactlyList(l1: seq<Term>, l2: seq<Term>, s: Subst, a: Atom)
    requires OneWayUnifyList(l1, l2, s).0 && NoNumbers(s)
    ensures Assq(a, OneWayUnifyList(l1, l2, s).1).Some? <==> Assq(a, s).Some? || (OccursIn(a, l2) && !a.Num?)
    decreases l2
  {
    if l1 != [] {
      UnifySound(l1[0], l2[0], s);
      BindsExactly(l1[0], l2[0], s, a);
      BindsExactlyList(l1[1..], l2[1..], OneWayUnify(l1[0], l2[0], s).1, a);
    }
  }

  lemma {:induction false} InstancesAgree(sigma: Atom -> Term, tau: Atom -> Term, t: Term)
    requires forall a :: sigma(a) == tau(a)
    ensures Instance(sigma, t) == Instance(tau, t)
    decreases t
  {
    if t.App? {
      InstancesAgreeIn(sigma, tau, t.args);
    }
  }

  lemma {:induction false} InstancesAgreeIn(sigma: Atom -> Term, tau: Atom -> Term, ts: seq<Term>)
    requires forall a :: sigma(a) == tau(a)
    ensures InstanceList(sigma, ts) == InstanceList(tau, ts)
    decreases ts
  {
    if ts != [] {
      InstancesAgree(sigma, tau, ts[0]);
      InstancesAgreeIn(sigma, tau, ts[1..]);
    }
  }

  ghost predicate Matched(l: Lemma, t: Term) {
    exists sigma :: Matches(l, sigma, t)
  }

  /** The matcher finds a match if there is one, and its bindings are that match. */
  lemma MatchFound(l: Lemma, t: Term)
    ensures
      var (ok, s) := OneWayUnify(t, l.lhs, []);
      && (ok <==> Matched(l, t))
      && (ok ==> Matches(l, AsFunction(s), t))
  {
    var (ok, s) := OneWayUnify(t, l.lhs, []);
    UnifyDecides(t, l.lhs);
    ApplyIsInstance(s, l.lhs);
    if ok {
      forall a | !Occurs(a, l.lhs) ensures AsFunction(s)(a) == Leaf(a) {
        BindsExactly(t, l.lhs, [], a);
      }
      assert Matches(l, AsFunction(s), t);
    }
  }

  lemma MatchUnique(l: Lemma, t: Term, sigma: Atom -> Term)
    requires Matches(l, sigma, t)
    ensures
      var (ok, s) := OneWayUnify(t, l.lhs, []);
      ok && Matches(l, AsFunction(s), t) && ApplySubst(s, l.rhs) == Instance(sigma, l.rhs)
  {
    MatchFound(l, t);
    var s := OneWayUnify(t, l.lhs, []).1;
    UnifyUnique(t, l.lhs, s, sigma);
    forall a ensures AsFunction(s)(a) == sigma(a) {
      BindsExactly(t, l.lhs, [], a);
    }
    InstancesAgree(AsFunction(s), sigma, l.rhs);
    ApplyIsInstance(s, l.rhs);
  }

  // ----- the lemma that is used --------------------------------------------------------------------------------------

  /** If no lemma in front of it matches, lemma k is used when it does. */
  lemma {:induction false} FirstMatchUsed(lemmas: Lemmas, t: Term, lst: seq<Lemma>, k: nat, sigma: Atom -> Term, d: nat)
    requires k < |lst| && NoMatch(t, lst[..k]) && Matches(lst[k], sigma, t)
    ensures TryLemmas(lemmas, t, lst, d) == Rewrite(lemmas, Instance(sigma, lst[k].rhs), d)
    decreases k
  {
    if k == 0 {
      MatchUnique(lst[0], t, sigma);
    } else {
      UnifyDecides(t, lst[0].lhs);
      assert lst[..k][0] == lst[0];
      assert lst[..k][1..] == lst[1..][..k - 1];
      NoMatchFirst(t, lst[..k]);
      FirstMatchUsed(lemmas, t, lst[1..], k - 1, sigma, d);
    }
  }

  /** A term with rewritten arguments: the first lemma of its symbol that matches is used, and its
      right side is rewritten with the same bound. */
  lemma StepTaken(lemmas: Lemmas, f: string, args: seq<Term>, k: nat, sigma: Atom -> Term, d: nat)
    requires NormalList(lemmas, args) && d >= SizeList(args)
    requires k < |LemmasOf(lemmas, f)| && NoMatch(App(f, args), LemmasOf(lemmas, f)[..k])
    requires Matches(LemmasOf(lemmas, f)[k], sigma, App(f, args))
    ensures Rewrite(lemmas, App(f, args), d + 1) ==
      match Rewrite(lemmas, Instance(sigma, LemmasOf(lemmas, f)[k].rhs), d)
      case None => None
      case Some((u, c)) => Some((u, 1 + SizeList(args) + c))
  {
    NormalArgsAreFixed(lemmas, args, d);
    FirstMatchUsed(lemmas, App(f, args), LemmasOf(lemmas, f), k, sigma, d);
  }

  // ----- on the equations --------------------------------------------------------------------------------------------

  lemma {:induction false} TryJoined(lemmas: Lemmas, t: Term, xs: seq<Lemma>, ys: seq<Lemma>, d: nat)
    ensures TryLemmas(lemmas, t, xs + ys, d) ==
      if NoMatch(t, xs) then TryLemmas(lemmas, t, ys, d) else TryLemmas(lemmas, t, xs, d)
    decreases xs
  {
    if xs == [] {
      assert xs + ys == ys;
    } else {
      UnifyDecides(t, xs[0].lhs);
      assert (xs + ys)[0] == xs[0] && (xs + ys)[1..] == xs[1..] + ys;
      TryJoined(lemmas, t, xs[1..], ys, d);
      NoMatchFirst(t, xs);
    }
  }

  lemma NoMatchFirst(t: Term, xs: seq<Lemma>)
    requires xs != []
    ensures NoMatch(t, xs) <==> NoMatch(t, [xs[0]]) && NoMatch(t, xs[1..])
  {
    if NoMatch(t, xs) {
      forall i, sigma | 0 <= i < |xs[1..]| && FixesNumbers(sigma) ensures Instance(sigma, xs[1..][i].lhs) != t {
        assert xs[1..][i] == xs[i + 1];
      }
    }
    if NoMatch(t, [xs[0]]) && NoMatch(t, xs[1..]) {
      forall i, sigma | 0 <= i < |xs| && FixesNumbers(sigma) ensures Instance(sigma, xs[i].lhs) != t {
        assert i > 0 ==> xs[i] == xs[1..][i - 1];
        assert xs[0] == [xs[0]][0];
      }
    }
  }

  lemma NoneIsNoMatch(equations: seq<Lemma>, t: Term)
    requires Usable(equations) && t.App?
    ensures NoneFrom(equations, 0, t) <==> NoMatch(t, Backwards(equations, t.fn))
  {
    BackwardsHolds(equations, t.fn);
    var lst := Backwards(equations, t.fn);
    if NoneFrom(equations, 0, t) {
      forall i, sigma | 0 <= i < |lst| && FixesNumbers(sigma) ensures Instance(sigma, lst[i].lhs) != t {
        assert lst[i] in equations;
        UnifyDecides(t, lst[i].lhs);
        MatchFound(lst[i], t);
      }
    }
    if !NoneFrom(equations, 0, t) {
      var i: int, sigma: Atom -> Term :| 0 <= i < |equations| && Matches(equations[i], sigma, t);
      assert equations[i] in lst;
      var j :| 0 <= j < |lst| && lst[j] == equations[i];
      assert Instance(sigma, lst[j].lhs) == t;
    }
  }

  /** Running through a symbol's equations from the last one to the first uses the last that matches. */
  lemma {:induction false} TryUsesLast(lemmas: Lemmas, equations: seq<Lemma>, t: Term, k: nat,
    sigma: Atom -> Term, d: nat)
    requires Usable(equations) && t.App? && LastMatch(equations, k, sigma, t)
    ensures !NoMatch(t, Backwards(equations, t.fn))
    ensures TryLemmas(lemmas, t, Backwards(equations, t.fn), d) == Rewrite(lemmas, Instance(sigma, equations[k].rhs), d)
    decreases k
  {
    hide Matches;
    var rest := equations[1..];
    NoneIsNoMatch(equations, t);
    NoneIsNoMatch(rest, t);
    if k > 0 {
      assert forall i :: 0 <= i < |rest| ==> rest[i] == equations[i + 1];
      TryUsesLast(lemmas, rest, t, k - 1, sigma, d);
    } else {
      assert NoneFrom(rest, 0, t);
      FirstUsed(lemmas, equations[0], t, sigma, d);
    }
    TryJoined(lemmas, t, Backwards(rest, t.fn), [equations[0]], d);
  }

  lemma FirstUsed(lemmas: Lemmas, l: Lemma, t: Term, sigma: Atom -> Term, d: nat)
    requires Matches(l, sigma, t) && l.lhs.App?
    ensures t.App? && t.fn == l.lhs.fn && TryLemmas(lemmas, t, [l], d) == Rewrite(lemmas, Instance(sigma, l.rhs), d)
  {
    MatchUnique(l, t, sigma);
  }

  lemma {:induction false} LastExists(equations: seq<Lemma>, n: nat, t: Term) returns (k: nat, sigma: Atom -> Term)
    requires n <= |equations| && NoneFrom(equations, n, t) && !NoneFrom(equations, 0, t)
    ensures LastMatch(equations, k, sigma, t)
    decreases n
  {
    var e := equations[n - 1];
    if Matched(e, t) {
      k := n - 1;
      sigma :| Matches(e, sigma, t);
    } else {
      k, sigma := LastExists(equations, n - 1, t);
    }
  }

  // ----- the rewriter does these steps -------------------------------------------------------------------------

  /** The program rewrites by the equations exactly like that, with exactly that many calls. */
  lemma {:induction false} RewritesExactly(equations: seq<Lemma>, t: Term, u: Term, c: int, d: nat)
    requires Usable(equations)
    ensures Rewrites(equations, t, u, c, d) <==>
      c >= 0 && BoyerRewrite.Rewrite(AddAll(equations, map[]), t, d) == Some((u, c))
    decreases d, 0
  {
    hide NoneFrom, LastMatch;
    var lemmas := AddAll(equations, map[]);
    if d > 0 && t.App? {
      if Rewrites(equations, t, u, c, d) {
        var args', c0 := ByWhat(equations, t, u, c, d);
        AllRewritten(equations, t.args, args', c0, d - 1);
        StepsExactly(equations, App(t.fn, args'), u, c - 1 - c0, d - 1);
      }
      if c >= 0 && BoyerRewrite.Rewrite(lemmas, t, d) == Some((u, c)) {
        var (args', c0) := RewriteArgs(lemmas, t.args, d - 1).value;
        AllRewritten(equations, t.args, args', c0, d - 1);
        StepsExactly(equations, App(t.fn, args'), u, c - 1 - c0, d - 1);
        assert RewritesBy(equations, t, args', c0, u, c, d);
      }
    }
  }

  lemma {:induction false} AllRewritten(equations: seq<Lemma>, ts: seq<Term>, us: seq<Term>, c: int, d: nat)
    requires Usable(equations)
    ensures RewritesAll(equations, ts, us, c, d) <==>
      c >= 0 && RewriteArgs(AddAll(equations, map[]), ts, d) == Some((us, c))
    decreases d, 2, ts
  {
    hide Steps;
    var lemmas := AddAll(equations, map[]);
    if ts != [] {
      if RewritesAll(equations, ts, us, c, d) {
        var c0 := FirstCalls(equations, ts, us, c, d);
        RewritesExactly(equations, ts[0], us[0], c0, d);
        AllRewritten(equations, ts[1..], us[1..], c - c0, d);
        assert us == [us[0]] + us[1..];
      }
      if c >= 0 && RewriteArgs(lemmas, ts, d) == Some((us, c)) {
        var (u, c0) := BoyerRewrite.Rewrite(lemmas, ts[0], d).value;
        assert us[0] == u && us[1..] == RewriteArgs(lemmas, ts[1..], d).value.0;
        RewritesExactly(equations, ts[0], us[0], c0, d);
        AllRewritten(equations, ts[1..], us[1..], c - c0, d);
        ArgsLength(lemmas, ts[1..], d);
      }
    }
  }

  lemma {:induction false} ArgsLength(lemmas: Lemmas, ts: seq<Term>, d: nat)
    requires RewriteArgs(lemmas, ts, d).Some?
    ensures |RewriteArgs(lemmas, ts, d).value.0| == |ts|
    decreases ts
  {
    if ts != [] {
      ArgsLength(lemmas, ts[1..], d);
    }
  }

  lemma {:induction false} StepsExactly(equations: seq<Lemma>, t: Term, u: Term, c: int, d: nat)
    requires Usable(equations) && t.App?
    ensures
      var lemmas := AddAll(equations, map[]);
      Steps(equations, t, u, c, d) <==> c >= 0 && TryLemmas(lemmas, t, LemmasOf(lemmas, t.fn), d) == Some((u, c))
    decreases d, 1
  {
    hide Rewrites, BoyerRewrite.Rewrite, TryLemmas, AddAll, Backwards;
    var lemmas := AddAll(equations, map[]);
    var lst := Backwards(equations, t.fn);
    AddedLemmas(equations, map[], t.fn);
    assert LemmasOf(lemmas, t.fn) == lst + [] == lst;
    NoneIsNoMatch(equations, t);
    if NoneFrom(equations, 0, t) {
      NothingMatches(lemmas, t, lst, d);
    } else {
      var k, sigma := LastExists(equations, |equations|, t);
      TryUsesLast(lemmas, equations, t, k, sigma, d);
      RewritesExactly(equations, Instance(sigma, equations[k].rhs), u, c, d);
      if Steps(equations, t, u, c, d) {
        var k': nat, sigma': Atom -> Term :| LastMatch(equations, k', sigma', t)
          && Rewrites(equations, Instance(sigma', equations[k'].rhs), u, c, d);
        TryUsesLast(lemmas, equations, t, k', sigma', d);
        RewritesExactly(equations, Instance(sigma', equations[k'].rhs), u, c, d);
      }
    }
  }
}
