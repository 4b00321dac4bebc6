/** Terms, substitutions and models of the prover. */
module BoyerTerms {

  datatype Option<+T> = None | Some(value: T)

  /** What is not a pair: numbers, symbols and the empty list. */
  datatype Atom = Num(n: int) | Name(name: string) | Null

  /** A pair is a symbol applied to a list of terms. The program replaces a symbol by its one
      symbol record and compares records by identity, which is comparing symbols. */
  datatype Term = Leaf(atom: Atom) | App(fn: string, args: seq<Term>)

  /** An association list; the first pair with a key counts. */
  type Subst = seq<(Atom, Term)>

  const TRUE := App("t", [])
  const FALSE := App("f", [])

  /** An equation that may be used from left to right. */
  datatype Lemma = Lemma(lhs: Term, rhs: Term)

  // ----- equality ------------------------------------------------------------------------------

  predicate IsTermEqual(x: Term, y: Term)
    ensures IsTermEqual(x, y) <==> x == y
    decreases x
  {
    match x
    case Leaf(a) => y.Leaf? && a == y.atom
    case App(f, xs) => y.App? && f == y.fn && AreTermsEqual(xs, y.args)
  }

  predicate AreTermsEqual(xs: seq<Term>, ys: seq<Term>)
    ensures AreTermsEqual(xs, ys) <==> xs == ys
    decreases xs
  {
    if xs == [] then ys == []
    else if ys == [] then false
    else
      assert xs == [xs[0]] + xs[1..] && ys == [ys[0]] + ys[1..];
      IsTermEqual(xs[0], ys[0]) && AreTermsEqual(xs[1..], ys[1..])
  }

  predicate IsTermMember(x: Term, lst: seq<Term>)
    ensures IsTermMember(x, lst) <==> x in lst
  {
    lst != [] && (IsTermEqual(x, lst[0]) || IsTermMember(x, lst[1..]))
  }

  // ----- substitution ----------------------------------------------------------------------------

  function Assq(a: Atom, s: Subst): Option<Term> {
    if s == [] then None else if s[0].0 == a then Some(s[0].1) else Assq(a, s[1..])
  }

  function ApplySubst(s: Subst, t: Term): Term
    decreases t
  {
    match t
    case Leaf(a) => (match Assq(a, s) case Some(u) => u case None => t)
    case App(f, args) => App(f, ApplySubstList(s, args))
  }

  function ApplySubstList(s: Subst, ts: seq<Term>): (r: seq<Term>)
    ensures |r| == |ts|
    decreases ts
  {
    if ts == [] then [] else [ApplySubst(s, ts[0])] + ApplySubstList(s, ts[1..])
  }

  /** A substitution as a function on all atoms. */
  ghost function Instance(sigma: Atom -> Term, t: Term): Term
    decreases t
  {
    match t
    case Leaf(a) => sigma(a)
    case App(f, args) => App(f, InstanceList(sigma, args))
  }

  ghost function InstanceList(sigma: Atom -> Term, ts: seq<Term>): seq<Term>
    decreases ts
  {
    if ts == [] then [] else [Instance(sigma, ts[0])] + InstanceList(sigma, ts[1..])
  }

  ghost predicate FixesNumbers(sigma: Atom -> Term) {
    forall n :: sigma(Num(n)) == Leaf(Num(n))
  }

  /** The function a list stands for. */
  function AsFunction(s: Subst): Atom -> Term {
    a => ApplySubst(s, Leaf(a))
  }

  lemma {:induction false} ApplyIsInstance(s: Subst, t: Term)
    ensures ApplySubst(s, t) == Instance(AsFunction(s), t)
    decreases t
  {
    if t.App? {
      ApplyIsInstanceList(s, t.args);
    }
  }

  lemma {:induction false} ApplyIsInstanceList(s: Subst, ts: seq<Term>)
    ensures ApplySubstList(s, ts) == InstanceList(AsFunction(s), ts)
    decreases ts
  {
    if ts != [] {
      ApplyIsInstance(s, ts[0]);
      ApplyIsInstanceList(s, ts[1..]);
    }
  }

  // ----- models ------------------------------------------------------------------------------------

  /** An interpretation of the symbols and the numbers in some domain. */
  datatype Model<!D(!new)> = Model(app: (string, seq<D>) -> D, num: int -> D)

  ghost predicate Valuation<D(!new)>(m: Model<D>, v: Atom -> D) {
    forall n :: v(Num(n)) == m.num(n)
  }

  ghost function Eval<D(!new)>(m: Model<D>, v: Atom -> D, t: Term): D
    decreases t
  {
    match t
    case Leaf(a) => v(a)
    case App(f, args) => m.app(f, EvalList(m, v, args))
  }

  ghost function EvalList<D(!new)>(m: Model<D>, v: Atom -> D, ts: seq<Term>): (r: seq<D>)
    ensures |r| == |ts|
    ensures forall i :: 0 <= i < |ts| ==> r[i] == Eval(m, v, ts[i])
    decreases ts
  {
    if ts == [] then [] else [Eval(m, v, ts[0])] + EvalList(m, v, ts[1..])
  }

  /** The equation holds whatever its variables stand for. */
  ghost predicate Holds<D(!new)>(m: Model<D>, lemma_: Lemma) {
    forall v :: Valuation(m, v) ==> Eval(m, v, lemma_.lhs) == Eval(m, v, lemma_.rhs)
  }

  ghost predicate ModelOf<D(!new)>(m: Model<D>, lemmas: map<string, seq<Lemma>>) {
    forall f, i {:trigger lemmas[f][i]} :: f in lemmas && 0 <= i < |lemmas[f]| ==> Holds(m, lemmas[f][i])
  }

  /** Meaning of an instance: the variables mean what is substituted for them. */
  lemma {:induction false} EvalInstance<D(!new)>(m: Model<D>, v: Atom -> D, sigma: Atom -> Term, t: Term)
    ensures Eval(m, v, Instance(sigma, t)) == Eval(m, a => Eval(m, v, sigma(a)), t)
    decreases t
  {
    if t.App? {
      EvalInstanceList(m, v, sigma, t.args);
    }
  }

  lemma {:induction false} EvalInstanceList<D(!new)>(m: Model<D>, v: Atom -> D, sigma: Atom -> Term, ts: seq<Term>)
    ensures EvalList(m, v, InstanceList(sigma, ts)) == EvalList(m, a => Eval(m, v, sigma(a)), ts)
    decreases ts
  {
    if ts != [] {
      EvalInstance(m, v, sigma, ts[0]);
      EvalInstanceList(m, v, sigma, ts[1..]);
    }
  }

  /** Both sides of a lemma that holds mean the same under every substitution that leaves
      numbers alone. */
  lemma InstanceHolds<D(!new)>(m: Model<D>, v: Atom -> D, l: Lemma, sigma: Atom -> Term)
    requires Holds(m, l) && Valuation(m, v) && FixesNumbers(sigma)
    ensures Eval(m, v, Instance(sigma, l.lhs)) == Eval(m, v, Instance(sigma, l.rhs))
  {
    var w := a => Eval(m, v, sigma(a));
    EvalInstance(m, v, sigma, l.lhs);
    EvalInstance(m, v, sigma, l.rhs);
    assert Valuation(m, w);
  }
}
