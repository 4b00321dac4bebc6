/** The whole prover: setup, then a test. */
module BoyerBenchmark {
  // The test is of a term that is or'ed with false n times.

  import opened BoyerNormal
  import opened BoyerProver
  import opened BoyerRewrite
  import opened BoyerSteps
  import opened BoyerTautology
  import opened BoyerTerms

  /** The equation that says what or means. */
  const DISJUNCTION := Lemma(
    App("or", [Variable("p"), Variable("q")]),
    App("if", [Variable("p"), TRUE, App("if", [Variable("q"), TRUE, FALSE])]))

  // ----- or'ing with false ---------------------------------------------------------------------------------------

  /** Each or is put around what is there, and there is one more for each count. */
  lemma {:induction false} OrFalseAround(t: Term, n: nat)
    ensures OrFalse(t, n) == if n == 0 then t else App("or", [OrFalse(t, n - 1), FALSE])
    ensures BoyerRewrite.Size(OrFalse(t, n)) == BoyerRewrite.Size(t) + 2 * n
    decreases n
  {
    if n > 0 {
      var u := App("or", [t, FALSE]);
      assert u.args[1..] == [FALSE] && BoyerRewrite.SizeList([FALSE]) == 1;
      assert BoyerRewrite.SizeList(u.args) == BoyerRewrite.Size(t) + 1;
      OrFalseAround(u, n - 1);
      OrFalseAround(t, n - 1);
    }
  }

  lemma {:induction false} OrFalseApplied(alist: Subst, t: Term, n: nat)
    ensures ApplySubst(alist, OrFalse(t, n)) == OrFalse(ApplySubst(alist, t), n)
    decreases n
  {
    if n > 0 {
      var u := App("or", [t, FALSE]);
      assert u.args[1..] == [FALSE] && [FALSE][1..] == [];
      assert ApplySubstList(alist, [FALSE]) == [FALSE];
      assert ApplySubst(alist, u) == App("or", [ApplySubst(alist, t), FALSE]);
      OrFalseApplied(alist, u, n - 1);
    }
  }

  /** A term or'ed with false is true just when the term is. */
  lemma OrKeepsTruth<D(!new)>(t: Term, m: Model<D>, v: Atom -> D)
    requires Lawful(m) && Holds(m, DISJUNCTION) && Valuation(m, v)
    ensures True(m, v, App("or", [t, FALSE])) <==> True(m, v, t)
  {
    var x, no := Eval(m, v, t), m.app("f", []);
    var w := a => if a == Name("p") then x else if a == Name("q") then no else v(a);
    assert Valuation(m, w);
    EvalTwo(m, v, "or", t, FALSE);
    assert Eval(m, v, App("or", [t, FALSE])) == m.app("or", [x, no]);
    EvalTwo(m, w, "or", Variable("p"), Variable("q"));
    EvalIf(m, w, Variable("q"));
    EvalOr(m, w);
  }

  lemma EvalTwo<D(!new)>(m: Model<D>, v: Atom -> D, f: string, s: Term, t: Term)
    ensures Eval(m, v, App(f, [s, t])) == m.app(f, [Eval(m, v, s), Eval(m, v, t)])
  {
    assert EvalList(m, v, [s, t]) == [Eval(m, v, s), Eval(m, v, t)];
  }

  lemma EvalIf<D(!new)>(m: Model<D>, v: Atom -> D, c: Term)
    requires Lawful(m)
    ensures True(m, v, App("if", [c, TRUE, FALSE])) <==> True(m, v, c)
  {
    var args := EvalList(m, v, [c, TRUE, FALSE]);
    assert args == [Eval(m, v, c), m.app("t", []), m.app("f", [])];
  }

  lemma EvalOr<D(!new)>(m: Model<D>, v: Atom -> D)
    requires Lawful(m)
    ensures True(m, v, DISJUNCTION.rhs) <==>
      True(m, v, Variable("p")) || True(m, v, App("if", [Variable("q"), TRUE, FALSE]))
  {
    var q := App("if", [Variable("q"), TRUE, FALSE]);
    var args := EvalList(m, v, [Variable("p"), TRUE, q]);
    assert args == [Eval(m, v, Variable("p")), m.app("t", []), Eval(m, v, q)];
  }

  /** The instance of the expanded term is true just when the instance of the term itself is. */
  lemma OrFalseMeans<D(!new)>(alist: Subst, t: Term, n: nat, m: Model<D>, v: Atom -> D)
    requires Lawful(m) && Holds(m, DISJUNCTION) && Valuation(m, v)
    ensures True(m, v, ApplySubst(alist, OrFalse(t, n))) <==> True(m, v, ApplySubst(alist, t))
  {
    OrFalseApplied(alist, t, n);
    OrFalseTruth(ApplySubst(alist, t), n, m, v);
  }

  lemma {:induction false} OrFalseTruth<D(!new)>(t: Term, n: nat, m: Model<D>, v: Atom -> D)
    requires Lawful(m) && Holds(m, DISJUNCTION) && Valuation(m, v)
    ensures True(m, v, OrFalse(t, n)) <==> True(m, v, t)
    decreases n
  {
    hide Lawful, Holds, True, Valuation;
    if n > 0 {
      OrKeepsTruth(t, m, v);
      OrFalseTruth(App("or", [t, FALSE]), n - 1, m, v);
    }
  }

  // ----- the prover ------------------------------------------------------------------------------------------------

  /** The goal is rewritten in c calls to a term that the checker recognizes. */
  ghost predicate RecognizedIn(equations: seq<Lemma>, goal: Term, c: int, depth: nat) {
    exists u :: Rewrites(equations, goal, u, c, depth) && Tautologyp(u, [], []) == Some(true)
  }

  /** The goal is rewritten in c calls to a term that is propositionally valid. */
  ghost predicate ProvedIn(equations: seq<Lemma>, goal: Term, c: int, depth: nat) {
    exists u :: Rewrites(equations, goal, u, c, depth) && Valid(u)
  }

  /** All equations hold in the model, the one for or is among them, and t, f and if mean what they should. */
  ghost predicate Explains<D(!new)>(m: Model<D>, equations: seq<Lemma>) {
    Lawful(m) && DISJUNCTION in equations && forall e :: e in equations ==> Holds(m, e)
  }

  /** The equation for nested conditions is there, and all ifs have their three arguments. */
  ghost predicate FullProblem(equations: seq<Lemma>, term: Term, alist: Subst) {
    UNNEST in equations && FullIfs(term) && FullBindings(alist) && forall e :: e in equations ==> FullIfs(e.rhs)
  }

  ghost predicate TrueAlways<D(!new)>(m: Model<D>, t: Term) {
    forall v :: Valuation(m, v) ==> True(m, v, t)
  }

  /** Setup with the equations, then the test of the term. A yes comes with the number of calls of
      the rewriter, and means that the term itself is true in every model of the equations. With the
      equation for nested conditions among them, yes is the answer exactly if the rewritten goal is
      valid. An equation that is turned down is an error. */
  method Nboyer<D(!new)>(equations: seq<Lemma>, term: Term, alist: Subst, n: nat, depth: nat, ghost m: Model<D>)
    returns (answer: Option<int>)
    ensures answer.Some? && Explains(m, equations) ==> TrueAlways(m, ApplySubst(alist, term))
    ensures forall c :: answer == Some(c) <==>
              Usable(equations) && RecognizedIn(equations, ApplySubst(alist, OrFalse(term, n)), c, depth)
    ensures FullProblem(equations, term, alist) ==>
              forall c :: answer == Some(c) <==>
                Usable(equations) && ProvedIn(equations, ApplySubst(alist, OrFalse(term, n)), c, depth)
  {
    hide Usable, AddAll, BoyerRewrite.Rewrite, ApplySubst, OrFalse, Tautologyp, RecognizedIn, ProvedIn, Explains,
      FullProblem, TrueAlways;
    var prover := new Prover();
    var added := prover.Setup(equations);
    if added < |equations| {
      NotUsable(equations, added);
      return None;
    }
    assert equations[..added] == equations;
    answer := prover.Test(term, alist, n, depth);
    AnswerCounts(equations, term, alist, n, depth, answer);
    if answer.Some? && Explains(m, equations) {
      AnswerIsTrue(equations, term, alist, n, depth, answer, m);
    }
  }

  lemma NotUsable(equations: seq<Lemma>, k: nat)
    requires k < |equations| && equations[k].lhs.Leaf?
    ensures !Usable(equations)
  {
  }

  /** What the test answers about the goal. */
  function TestOf(lemmas: Lemmas, goal: Term, depth: nat): (answer: Option<int>) {
    match BoyerRewrite.Rewrite(lemmas, goal, depth)
    case None => None
    case Some((t, c)) => if Tautologyp(t, [], []) == Some(true) then Some(c as int) else None
  }

  lemma AnswerCounts(equations: seq<Lemma>, term: Term, alist: Subst, n: nat, depth: nat, answer: Option<int>)
    requires Usable(equations)
      && answer == TestOf(AddAll(equations, map[]), ApplySubst(alist, OrFalse(term, n)), depth)
    ensures forall c :: answer == Some(c) <==>
              RecognizedIn(equations, ApplySubst(alist, OrFalse(term, n)), c, depth)
    ensures FullProblem(equations, term, alist) ==>
              forall c :: answer == Some(c) <==>
                ProvedIn(equations, ApplySubst(alist, OrFalse(term, n)), c, depth)
  {
    hide Rewrites, Tautologyp, Usable, AddAll, BoyerRewrite.Rewrite, Valid, ApplySubst, OrFalse, FullIfs, FullBindings,
      Unnesting;
    var lemmas, goal := AddAll(equations, map[]), ApplySubst(alist, OrFalse(term, n));
    var r := BoyerRewrite.Rewrite(lemmas, goal, depth);
    forall u, c ensures Rewrites(equations, goal, u, c, depth) <==> c >= 0 && r == Some((u, c)) {
      RewritesExactly(equations, goal, u, c, depth);
    }
    if r.Some? {
      assert Rewrites(equations, goal, r.value.0, r.value.1, depth);
    }
    if FullProblem(equations, term, alist) {
      SetupUnnests(equations);
      TestDecides(lemmas, term, alist, n, depth);
      assert ProvedBy(lemmas, goal, depth) <==> r.Some? && Valid(r.value.0);
    }
  }

  lemma AnswerIsTrue<D(!new)>(equations: seq<Lemma>, term: Term, alist: Subst, n: nat, depth: nat,
    answer: Option<int>, m: Model<D>)
    requires Usable(equations) && answer.Some? && Explains(m, equations)
    requires answer == TestOf(AddAll(equations, map[]), ApplySubst(alist, OrFalse(term, n)), depth)
    ensures TrueAlways(m, ApplySubst(alist, term))
  {
    hide True, Tautologyp, Usable, AddAll, BoyerRewrite.Rewrite, ApplySubst, OrFalse, Lawful, Holds;
    var goal := ApplySubst(alist, OrFalse(term, n));
    forall v | Valuation(m, v) ensures True(m, v, ApplySubst(alist, term)) {
      ProvedIsTrue(equations, goal, depth, m, v);
      OrFalseMeans(alist, term, n, m, v);
    }
  }
}
