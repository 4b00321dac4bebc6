/** After rewriting no condition holds an if. */
module BoyerNormal {
  import opened BoyerTerms
  import opened BoyerUnify
  import opened BoyerRewrite
  import opened BoyerTautology

  /** The equation that takes an if out of a condition. */
  const UNNEST := Lemma(
    App("if", [App("if", [Variable("a"), Variable("b"), Variable("c")]), Variable("d"), Variable("e")]),
    App("if", [
      Variable("a"),
      App("if", [Variable("b"), Variable("d"), Variable("e")]),
      App("if", [Variable("c"), Variable("d"), Variable("e")])]))

  function Variable(name: string): Term {
    Leaf(Name(name))
  }

  /** Every if has its three arguments. */
  ghost predicate FullIfs(t: Term)
    decreases t
  {
    t.App? ==> (t.fn == "if" ==> |t.args| == 3) && FullIfsIn(t.args)
  }

  ghost predicate FullIfsIn(ts: seq<Term>)
    decreases ts
  {
    ts == [] || (FullIfs(ts[0]) && FullIfsIn(ts[1..]))
  }

  ghost predicate FullBindings(s: Subst) {
    forall i :: 0 <= i < |s| ==> FullIfs(s[i].1)
  }

  /** The lemmas take ifs out of conditions, and their right sides have full ifs. */
  ghost predicate Unnesting(lemmas: Lemmas) {
    && UNNEST in LemmasOf(lemmas, "if")
    && forall f, i {:trigger lemmas[f][i]} :: f in lemmas && 0 <= i < |lemmas[f]| ==> FullIfs(lemmas[f][i].rhs)
  }

  /** True whatever the terms other than t, f and ifs are taken for. */
  ghost predicate Valid(x: Term) {
    forall tau :: Respects(tau, [], []) ==> Truth(tau, x)
  }

  // ----- normal terms have no if in a condition ---------------------------------------------------------

  /** A nested condition is an instance of the equation's left side. */
  lemma NestedMatches(t: Term, lst: seq<Lemma>)
    requires IsIf(t) && |t.args| == 3 && IsIf(t.args[0]) && |t.args[0].args| == 3 && UNNEST in lst
    ensures !NoMatch(t, lst)
  {
    var c := t.args[0];
    var sigma := atom =>
      if atom == Name("a") then c.args[0] else if atom == Name("b") then c.args[1]
      else if atom == Name("c") then c.args[2] else if atom == Name("d") then t.args[1]
      else if atom == Name("e") then t.args[2] else Leaf(atom);
    InstanceOfThree(sigma, Variable("a"), Variable("b"), Variable("c"));
    InstanceOfThree(sigma, App("if", [Variable("a"), Variable("b"), Variable("c")]), Variable("d"), Variable("e"));
    assert FixesNumbers(sigma);
    assert c.args == [c.args[0], c.args[1], c.args[2]] && t.args == [c, t.args[1], t.args[2]];
    assert Instance(sigma, UNNEST.lhs) == t;
    var i :| 0 <= i < |lst| && lst[i] == UNNEST;
    assert Instance(sigma, lst[i].lhs) == t;
  }

  lemma InstanceOfThree(sigma: Atom -> Term, x: Term, y: Term, z: Term)
    ensures Instance(sigma, App("if", [x, y, z]))
      == App("if", [Instance(sigma, x), Instance(sigma, y), Instance(sigma, z)])
  {
    assert [x, y, z][1..] == [y, z] && [y, z][1..] == [z] && [z][1..] == [];
    assert InstanceList(sigma, [z]) == [Instance(sigma, z)];
    assert InstanceList(sigma, [y, z]) == [Instance(sigma, y), Instance(sigma, z)];
  }

  lemma FullIfsAt(ts: seq<Term>, i: nat)
    requires FullIfsIn(ts) && i < |ts|
    ensures FullIfs(ts[i])
  {
    if i > 0 {
      FullIfsAt(ts[1..], i - 1);
    }
  }

  lemma NormalAt(lemmas: Lemmas, ts: seq<Term>, i: nat)
    requires NormalList(lemmas, ts) && i < |ts|
    ensures Normal(lemmas, ts[i])
  {
    if i > 0 {
      NormalAt(lemmas, ts[1..], i - 1);
    }
  }

  lemma {:induction false} NormalIsIfNormal(lemmas: Lemmas, t: Term)
    requires Unnesting(lemmas) && Normal(lemmas, t) && FullIfs(t)
    ensures IfNormal(t)
    decreases t
  {
    if IsIf(t) {
      forall i | 0 <= i < 3 ensures FullIfs(t.args[i]) && Normal(lemmas, t.args[i]) {
        FullIfsAt(t.args, i);
        NormalAt(lemmas, t.args, i);
      }
      if IsIf(t.args[0]) {
        NestedMatches(t, LemmasOf(lemmas, "if"));
      }
      NormalIsIfNormal(lemmas, t.args[1]);
      NormalIsIfNormal(lemmas, t.args[2]);
    }
  }

  // ----- rewriting keeps ifs full -------------------------------------------------------------------------

  lemma {:induction false} ApplyKeepsFull(s: Subst, t: Term)
    requires FullBindings(s) && FullIfs(t)
    ensures FullIfs(ApplySubst(s, t))
    decreases t
  {
    match t
    case Leaf(a) => AssqIsFull(a, s);
    case App(_, args) => ApplyListKeepsFull(s, args);
  }

  lemma {:induction false} ApplyListKeepsFull(s: Subst, ts: seq<Term>)
    requires FullBindings(s) && FullIfsIn(ts)
    ensures FullIfsIn(ApplySubstList(s, ts))
    decreases ts
  {
    if ts != [] {
      ApplyKeepsFull(s, ts[0]);
      ApplyListKeepsFull(s, ts[1..]);
    }
  }

  lemma {:induction false} AssqIsFull(a: Atom, s: Subst)
    requires FullBindings(s)
    ensures Assq(a, s).Some? ==> FullIfs(Assq(a, s).value)
  {
    if s != [] {
      AssqIsFull(a, s[1..]);
    }
  }

  /** What the matcher binds are parts of the term that is matched. */
  lemma {:induction false} UnifyBindsFull(t1: Term, t2: Term, s: Subst)
    requires FullIfs(t1) && FullBindings(s)
    ensures FullBindings(OneWayUnify(t1, t2, s).1)
    decreases t2
  {
    match t2
    case Leaf(_) =>
    case App(f, args) =>
      if t1.App? && t1.fn == f {
        UnifyListBindsFull(t1.args, args, s);
      }
  }

  lemma {:induction false} UnifyListBindsFull(l1: seq<Term>, l2: seq<Term>, s: Subst)
    requires FullIfsIn(l1) && FullBindings(s)
    ensures FullBindings(OneWayUnifyList(l1, l2, s).1)
    decreases l2
  {
    if l1 != [] && l2 != [] {
      UnifyBindsFull(l1[0], l2[0], s);
      var (ok, s') := OneWayUnify(l1[0], l2[0], s);
      if ok {
        UnifyListBindsFull(l1[1..], l2[1..], s');
      }
    }
  }

  lemma {:induction false} RewriteKeepsFull(lemmas: Lemmas, t: Term, d: nat)
    requires Unnesting(lemmas) && FullIfs(t) && Rewrite(lemmas, t, d).Some?
    ensures FullIfs(Rewrite(lemmas, t, d).value.0)
    decreases d, 0
  {
    match t
    case Leaf(_) =>
    case App(f, args) =>
      ArgsKeepFull(lemmas, args, d - 1);
      TryKeepsFull(lemmas, App(f, RewriteArgs(lemmas, args, d - 1).value.0), LemmasOf(lemmas, f), d - 1);
  }

  lemma {:induction false} ArgsKeepFull(lemmas: Lemmas, ts: seq<Term>, d: nat)
    requires Unnesting(lemmas) && FullIfsIn(ts) && RewriteArgs(lemmas, ts, d).Some?
    ensures FullIfsIn(RewriteArgs(lemmas, ts, d).value.0) && |RewriteArgs(lemmas, ts, d).value.0| == |ts|
    decreases d, 1, ts
  {
    if ts != [] {
      RewriteKeepsFull(lemmas, ts[0], d);
      ArgsKeepFull(lemmas, ts[1..], d);
      var us := RewriteArgs(lemmas, ts, d).value.0;
      assert us[1..] == RewriteArgs(lemmas, ts[1..], d).value.0;
    }
  }

  lemma {:induction false} TryKeepsFull(lemmas: Lemmas, t: Term, lst: seq<Lemma>, d: nat)
    requires Unnesting(lemmas) && FullIfs(t) && TryLemmas(lemmas, t, lst, d).Some?
    requires forall i :: 0 <= i < |lst| ==> FullIfs(lst[i].rhs)
    ensures FullIfs(TryLemmas(lemmas, t, lst, d).value.0)
    decreases d, 1, lst
  {
    if lst != [] {
      var (ok, s) := OneWayUnify(t, lst[0].lhs, []);
      if ok {
        UnifyBindsFull(t, lst[0].lhs, []);
        ApplyKeepsFull(s, lst[0].rhs);
        RewriteKeepsFull(lemmas, ApplySubst(s, lst[0].rhs), d);
      } else {
        TryKeepsFull(lemmas, t, lst[1..], d);
      }
    }
  }

  // ----- the checker decides what was rewritten -----------------------------------------------------------

  /** No rewritten term has an if in a condition, and on it the checker never fails and says yes
      exactly if the term is valid. */
  lemma RewrittenIsDecided(lemmas: Lemmas, t: Term, d: nat)
    requires Unnesting(lemmas) && FullIfs(t) && Rewrite(lemmas, t, d).Some?
    ensures
      var u := Rewrite(lemmas, t, d).value.0;
      && IfNormal(u)
      && Tautologyp(u, [], []).Some?
      && (Tautologyp(u, [], []) == Some(true) <==> Valid(u))
  {
    var u := Rewrite(lemmas, t, d).value.0;
    RewriteIsNormal(lemmas, t, d);
    RewriteKeepsFull(lemmas, t, d);
    NormalIsIfNormal(lemmas, u);
    TautologyDecides(u);
  }
}
