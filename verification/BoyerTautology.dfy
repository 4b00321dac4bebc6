/** The if-tautology checker: sound, and on normal terms complete. */
module BoyerTautology {
  // It is sound in every model, and on terms whose conditions are no ifs themselves a decision procedure for
  // propositional validity.

  import opened BoyerTerms

  /** The answer, or None where the program fails because an if has too few arguments. */
  function Tautologyp(x: Term, trueLst: seq<Term>, falseLst: seq<Term>): Option<bool>
    decreases x
  {
    if IsTermEqual(x, TRUE) || IsTermMember(x, trueLst) then Some(true)
    else if IsTermEqual(x, FALSE) || IsTermMember(x, falseLst) then Some(false)
    else if x.Leaf? then Some(false)
    else if x.fn != "if" then Some(false)
    else if |x.args| == 0 then None
    else
      var c := x.args[0];
      if IsTermEqual(c, TRUE) || IsTermMember(c, trueLst) then
        if |x.args| < 2 then None else Tautologyp(x.args[1], trueLst, falseLst)
      else if IsTermEqual(c, FALSE) || IsTermMember(c, falseLst) then
        if |x.args| < 3 then None else Tautologyp(x.args[2], trueLst, falseLst)
      else if |x.args| < 2 then None
      else match Tautologyp(x.args[1], [c] + trueLst, falseLst)
        case None => None
        case Some(false) => Some(false)
        case Some(true) => if |x.args| < 3 then None else Tautologyp(x.args[2], trueLst, [c] + falseLst)
  }

  // ----- soundness in every model ---------------------------------------------------------------------

  /** The symbols t, f and if mean what they should. */
  ghost predicate Lawful<D(!new)>(m: Model<D>) {
    var no := m.app("f", []);
    && m.app("t", []) != no
    && (forall args: seq<D> :: |args| >= 2 && args[0] != no ==> m.app("if", args) == args[1])
    && (forall args: seq<D> :: |args| >= 3 && args[0] == no ==> m.app("if", args) == args[2])
  }

  ghost predicate True<D(!new)>(m: Model<D>, v: Atom -> D, t: Term) {
    Eval(m, v, t) != m.app("f", [])
  }

  lemma {:induction false} TautologySound<D(!new)>(x: Term, ts: seq<Term>, fs: seq<Term>, m: Model<D>, v: Atom -> D)
    requires Lawful(m) && Tautologyp(x, ts, fs) == Some(true)
    requires forall t :: t in ts ==> True(m, v, t)
    requires forall t :: t in fs ==> !True(m, v, t)
    ensures True(m, v, x)
    decreases x
  {
    if x == TRUE || x in ts {
    } else {
      var c := x.args[0];
      assert Eval(m, v, x) == m.app("if", EvalList(m, v, x.args));
      assert Eval(m, v, FALSE) == m.app("f", []);
      if c == TRUE || c in ts {
        TautologySound(x.args[1], ts, fs, m, v);
      } else if c == FALSE || c in fs {
        TautologySound(x.args[2], ts, fs, m, v);
      } else if True(m, v, c) {
        TautologySound(x.args[1], [c] + ts, fs, m, v);
      } else {
        TautologySound(x.args[2], ts, [c] + fs, m, v);
      }
    }
  }

  // ----- the propositional reading ---------------------------------------------------------------------

  /** ifs down the branches, with conditions that are not ifs. */
  ghost predicate IfNormal(x: Term)
    decreases x
  {
    x.App? && x.fn == "if" ==>
      |x.args| >= 3 && !IsIf(x.args[0]) && IfNormal(x.args[1]) && IfNormal(x.args[2])
  }

  ghost predicate IsIf(x: Term) {
    x.App? && x.fn == "if"
  }

  /** The truth of x when tau says which of the other terms are true. */
  ghost predicate Truth(tau: Term -> bool, x: Term)
    decreases x
  {
    if IsIf(x) && |x.args| >= 3 then
      if Truth(tau, x.args[0]) then Truth(tau, x.args[1]) else Truth(tau, x.args[2])
    else tau(x)
  }

  ghost predicate Respects(tau: Term -> bool, ts: seq<Term>, fs: seq<Term>) {
    && tau(TRUE) && !tau(FALSE)
    && (forall t :: t in ts ==> tau(t))
    && (forall t :: t in fs ==> !tau(t))
  }

  /** What the recursion keeps: no list holds an if, and no term is both true and false. */
  ghost predicate Consistent(ts: seq<Term>, fs: seq<Term>) {
    && FALSE !in ts && TRUE !in fs
    && (forall t :: t in ts ==> !IsIf(t) && t !in fs)
    && (forall t :: t in fs ==> !IsIf(t))
  }

  lemma {:induction false} TautologyValid(x: Term, ts: seq<Term>, fs: seq<Term>, tau: Term -> bool)
    requires IfNormal(x) && Consistent(ts, fs) && Respects(tau, ts, fs)
    requires Tautologyp(x, ts, fs) == Some(true)
    ensures Truth(tau, x)
    decreases x
  {
    if x == TRUE || x in ts {
    } else {
      var c := x.args[0];
      if c == TRUE || c in ts {
        TautologyValid(x.args[1], ts, fs, tau);
      } else if c == FALSE || c in fs {
        TautologyValid(x.args[2], ts, fs, tau);
      } else if tau(c) {
        TautologyValid(x.args[1], [c] + ts, fs, tau);
      } else {
        TautologyValid(x.args[2], ts, [c] + fs, tau);
      }
    }
  }

  /** When the answer is no, an assignment that makes x false. */
  lemma {:induction false} TautologyRefuted(x: Term, ts: seq<Term>, fs: seq<Term>) returns (tau: Term -> bool)
    requires IfNormal(x) && Consistent(ts, fs) && Tautologyp(x, ts, fs) != Some(true)
    ensures Respects(tau, ts, fs) && !Truth(tau, x)
    ensures Tautologyp(x, ts, fs) == Some(false)
    decreases x
  {
    if x == FALSE || x in fs || !IsIf(x) {
      tau := t => t == TRUE || t in ts;
    } else {
      var c := x.args[0];
      if c == TRUE || c in ts {
        tau := TautologyRefuted(x.args[1], ts, fs);
      } else if c == FALSE || c in fs {
        tau := TautologyRefuted(x.args[2], ts, fs);
      } else if Tautologyp(x.args[1], [c] + ts, fs) == Some(true) {
        tau := TautologyRefuted(x.args[2], ts, [c] + fs);
      } else {
        tau := TautologyRefuted(x.args[1], [c] + ts, fs);
      }
    }
  }

  /** On such terms the checker never fails and says yes exactly to the valid ones. */
  lemma TautologyDecides(x: Term)
    requires IfNormal(x)
    ensures Tautologyp(x, [], []).Some?
    ensures Tautologyp(x, [], []) == Some(true) <==> forall tau :: Respects(tau, [], []) ==> Truth(tau, x)
  {
    if Tautologyp(x, [], []) == Some(true) {
      forall tau | Respects(tau, [], []) ensures Truth(tau, x) {
        TautologyValid(x, [], [], tau);
      }
    } else {
      var tau := TautologyRefuted(x, [], []);
    }
  }

  /** A condition that is an if is not looked into: this valid term is turned down. */
  lemma NestedCondition()
    ensures
      var p := Leaf(Name("p"));
      var x := App("if", [App("if", [p, TRUE, FALSE]), p, TRUE]);
      && Tautologyp(x, [], []) == Some(false)
      && forall tau :: Respects(tau, [], []) ==> Truth(tau, x)
  {
    var p := Leaf(Name("p"));
    var c := App("if", [p, TRUE, FALSE]);
    var x := App("if", [c, p, TRUE]);
    assert Tautologyp(p, [c], []) == Some(false);
    forall tau | Respects(tau, [], []) ensures Truth(tau, x) {
      assert Truth(tau, c) == tau(p);
    }
  }
}
