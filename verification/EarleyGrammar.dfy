/** Grammars, derivations, and the items of the Earley parser. */
module EarleyGrammar {
  // Symbols are numbered 0..n. An item (a "conf") below n stands for a token that may be read as that symbol. The
  // other items are the dotted rules: rule k has an item for each place its dot can be in, numbered one after the
  // other.

  datatype Rule = Rule(head: nat, rhs: seq<nat>)

  /** toks[i] lists the symbols that token i may be read as. */
  datatype Grammar = Grammar(n: nat, rules: seq<Rule>, toks: seq<seq<nat>>)

  ghost predicate GoodGrammar(g: Grammar) {
    && (forall k :: 0 <= k < |g.rules| ==> g.rules[k].head < g.n)
    && (forall k, m {:trigger g.rules[k].rhs[m]} :: 0 <= k < |g.rules| && 0 <= m < |g.rules[k].rhs| ==> g.rules[k].rhs[m] < g.n)
    && (forall i, x :: 0 <= i < |g.toks| && x in g.toks[i] ==> x < g.n)
  }

  // ----- derivations -----------------------------------------------------------------------------

  /** Symbol x derives tokens i..j with rules nested at most d deep. */
  ghost predicate DerivesSym(g: Grammar, x: nat, i: nat, j: nat, d: nat)
    decreases d, 0
  {
    || (j == i + 1 && i < |g.toks| && x in g.toks[i])
    || (d > 0 && exists k: nat :: k < |g.rules| && g.rules[k].head == x && DerivesSeq(g, g.rules[k].rhs, i, j, d - 1))
  }

  /** The symbols xs derive tokens i..j one after the other. */
  ghost predicate DerivesSeq(g: Grammar, xs: seq<nat>, i: nat, j: nat, d: nat)
    decreases d, 1 + |xs|
  {
    if xs == [] then i == j
    else exists h: nat {:trigger DerivesSeq(g, xs[..|xs| - 1], i, h, d)} {:trigger DerivesSym(g, xs[|xs| - 1], h, j, d)} ::
      i <= h <= j && DerivesSeq(g, xs[..|xs| - 1], i, h, d) && DerivesSym(g, xs[|xs| - 1], h, j, d)
  }

  ghost predicate Derives(g: Grammar, x: nat, i: nat, j: nat) {
    exists d: nat :: DerivesSym(g, x, i, j, d)
  }

  lemma {:induction false} DeeperSym(g: Grammar, x: nat, i: nat, j: nat, d: nat, d': nat)
    requires d <= d' && DerivesSym(g, x, i, j, d)
    ensures DerivesSym(g, x, i, j, d')
    decreases d, 0
  {
    if !(j == i + 1 && i < |g.toks| && x in g.toks[i]) {
      var k: nat :| k < |g.rules| && g.rules[k].head == x && DerivesSeq(g, g.rules[k].rhs, i, j, d - 1);
      DeeperSeq(g, g.rules[k].rhs, i, j, d - 1, d' - 1);
    }
  }

  lemma {:induction false} DeeperSeq(g: Grammar, xs: seq<nat>, i: nat, j: nat, d: nat, d': nat)
    requires d <= d' && DerivesSeq(g, xs, i, j, d)
    ensures DerivesSeq(g, xs, i, j, d')
    decreases d, 1 + |xs|
  {
    if xs != [] {
      var h: nat :| i <= h <= j && DerivesSeq(g, xs[..|xs| - 1], i, h, d) && DerivesSym(g, xs[|xs| - 1], h, j, d);
      DeeperSeq(g, xs[..|xs| - 1], i, h, d, d');
      DeeperSym(g, xs[|xs| - 1], h, j, d, d');
    }
  }

  /** How a symbol derives a span: as a token (none), or by a rule. */
  lemma SymCase(g: Grammar, x: nat, i: nat, j: nat, d: nat) returns (k: nat)
    requires DerivesSym(g, x, i, j, d)
    ensures k <= |g.rules|
    ensures k == |g.rules| ==> j == i + 1 && i < |g.toks| && x in g.toks[i]
    ensures k < |g.rules| ==> d > 0 && g.rules[k].head == x && DerivesSeq(g, g.rules[k].rhs, i, j, d - 1)
  {
    if j == i + 1 && i < |g.toks| && x in g.toks[i] {
      k := |g.rules|;
    } else {
      k :| k < |g.rules| && g.rules[k].head == x && DerivesSeq(g, g.rules[k].rhs, i, j, d - 1);
    }
  }

  lemma SeqCase(g: Grammar, xs: seq<nat>, i: nat, j: nat, d: nat) returns (h: nat)
    requires xs != [] && DerivesSeq(g, xs, i, j, d)
    ensures i <= h <= j && DerivesSeq(g, xs[..|xs| - 1], i, h, d) && DerivesSym(g, xs[|xs| - 1], h, j, d)
  {
    h :| i <= h <= j && DerivesSeq(g, xs[..|xs| - 1], i, h, d) && DerivesSym(g, xs[|xs| - 1], h, j, d);
  }

  // ----- the numbering of items --------------------------------------------------------------------

  /** The item of rule k with its dot in front. */
  function Base(g: Grammar, k: nat): (b: nat)
    requires k <= |g.rules|
    ensures b >= g.n
  {
    if k == 0 then g.n else Base(g, k - 1) + |g.rules[k - 1].rhs| + 1
  }

  /** steps[c] is the symbol after the dot, or head - n when the dot is at the end. */
  ghost predicate StepsOf(g: Grammar, steps: seq<int>) {
    && |steps| == Base(g, |g.rules|)
    && (forall c :: 0 <= c < g.n ==> steps[c] == c - g.n)
    && (forall k, m {:trigger g.rules[k].rhs[m]} :: 0 <= k < |g.rules| && 0 <= m < |g.rules[k].rhs| ==>
          Base(g, k) + m < |steps| && steps[Base(g, k) + m] == g.rules[k].rhs[m])
    && (forall k {:trigger Base(g, k)} {:trigger g.rules[k]} :: 0 <= k < |g.rules| ==>
          Base(g, k) + |g.rules[k].rhs| < |steps| && steps[Base(g, k) + |g.rules[k].rhs|] == g.rules[k].head - g.n)
  }

  ghost predicate StartersOf(g: Grammar, starters: seq<seq<int>>) {
    && |starters| == g.n
    && (forall k {:trigger g.rules[k]} :: 0 <= k < |g.rules| && g.rules[k].head < g.n ==> Base(g, k) in starters[g.rules[k].head])
    && (forall x, c :: 0 <= x < g.n && c in starters[x] ==> IsStart(g, c, x))
  }

  ghost predicate IsStart(g: Grammar, c: int, x: nat) {
    exists k :: 0 <= k < |g.rules| && g.rules[k].head == x && c == Base(g, k)
  }

  /** Reading from the left, rule k may begin at token i: it is one of the goal's at the start, or
      an item foreseen before has its dot there in front of the rule's head. */
  ghost predicate Reach(g: Grammar, k: nat, i: nat, r: nat)
    decreases r
  {
    k < |g.rules| &&
    (|| (g.rules[k].head == 0 && i == 0)
     || (r > 0 && exists k': nat, m: nat, o: nat, d: nat :: Awaits(g, g.rules[k].head, i, k', m, o, d) && Reach(g, k', o, r - 1)))
  }

  /** Rule k, begun at token o, stands before symbol x at token i. */
  ghost predicate Awaits(g: Grammar, x: nat, i: nat, k: nat, m: nat, o: nat, d: nat) {
    k < |g.rules| && m < |g.rules[k].rhs| && g.rules[k].rhs[m] == x && DerivesSeq(g, g.rules[k].rhs[..m], o, i, d)
  }

  ghost predicate Foreseen(g: Grammar, x: nat, i: nat) {
    (x == 0 && i == 0) || exists k: nat, m: nat, o: nat, d: nat, r: nat :: Awaits(g, x, i, k, m, o, d) && Reach(g, k, o, r)
  }

  /** What an item in state j with origin i says: its rule may begin at i, and what is before its
      dot derives tokens i..j. */
  ghost predicate Means(g: Grammar, c: int, i: nat, j: nat) {
    if c < g.n then c >= 0 && j == i + 1 && i < |g.toks| && c in g.toks[i]
    else exists k: nat, m: nat, d: nat, r: nat :: Before(g, c, k, m, i, j, d, r)
  }

  /** c is rule k with its dot after m symbols, and these derive tokens i..j. */
  ghost predicate Before(g: Grammar, c: int, k: nat, m: nat, i: nat, j: nat, d: nat, r: nat) {
    IsItem(g, c, k, m) && DerivesSeq(g, g.rules[k].rhs[..m], i, j, d) && Reach(g, k, i, r)
  }

  ghost predicate IsItem(g: Grammar, c: int, k: nat, m: nat) {
    k < |g.rules| && m <= |g.rules[k].rhs| && c == Base(g, k) + m
  }

  lemma SeqForward(g: Grammar, xs: seq<nat>, i: nat, j: nat, d: nat)
    requires DerivesSeq(g, xs, i, j, d)
    ensures i <= j
  {
    if xs != [] {
      var h: nat :| i <= h <= j && DerivesSeq(g, xs[..|xs| - 1], i, h, d) && DerivesSym(g, xs[|xs| - 1], h, j, d);
    }
  }

  lemma MeansForward(g: Grammar, c: int, i: nat, j: nat)
    requires Means(g, c, i, j)
    ensures i <= j
  {
    if c >= g.n {
      var k: nat, m: nat, d: nat, r: nat :| Before(g, c, k, m, i, j, d, r);
      SeqForward(g, g.rules[k].rhs[..m], i, j, d);
    }
  }

  /** A new item, nothing before its dot. */
  lemma StartMeans(g: Grammar, starters: seq<seq<int>>, x: nat, c: int, j: nat)
    requires StartersOf(g, starters) && x < g.n && c in starters[x] && Foreseen(g, x, j)
    ensures Means(g, c, j, j)
  {
    hide Reach;
    var k: nat :| k < |g.rules| && g.rules[k].head == x && c == Base(g, k);
    assert g.rules[k].rhs[..0] == [];
    var r := ReachOf(g, k, j);
    assert Before(g, c, k, 0, j, j, 0, r);
  }

  lemma ReachOf(g: Grammar, k: nat, i: nat) returns (r: nat)
    requires k < |g.rules| && Foreseen(g, g.rules[k].head, i)
    ensures Reach(g, k, i, r)
  {
    if g.rules[k].head == 0 && i == 0 {
      r := 0;
    } else {
      var k': nat, m: nat, o: nat, d: nat, r': nat :| Awaits(g, g.rules[k].head, i, k', m, o, d) && Reach(g, k', o, r');
      r := r' + 1;
    }
  }

  /** An item makes the symbol after its dot foreseen. */
  lemma MeansForesees(g: Grammar, steps: seq<int>, p: int, i: nat, j: nat)
    requires GoodGrammar(g) && StepsOf(g, steps) && 0 <= p < |steps| && steps[p] >= 0 && Means(g, p, i, j)
    ensures Foreseen(g, steps[p], j)
  {
    hide StepsOf, Base, GoodGrammar, DerivesSeq, Reach;
    BelowNegative(g, steps, p);
    var k: nat, m: nat, d: nat, r: nat :| Before(g, p, k, m, i, j, d, r);
    StepAt(g, steps, p, k, m);
    assert Awaits(g, steps[p], j, k, m, i, d) && Reach(g, k, i, r);
  }

  /** What steps says about an item. */
  lemma StepAt(g: Grammar, steps: seq<int>, c: int, k: nat, m: nat)
    requires GoodGrammar(g) && StepsOf(g, steps) && IsItem(g, c, k, m)
    ensures 0 <= c < |steps|
    ensures m < |g.rules[k].rhs| ==> steps[c] == g.rules[k].rhs[m] < g.n
    ensures m == |g.rules[k].rhs| ==> steps[c] == g.rules[k].head - g.n < 0
  {
    hide Base;
    if m < |g.rules[k].rhs| {
      assert steps[Base(g, k) + m] == g.rules[k].rhs[m];
    } else {
      assert steps[Base(g, k) + |g.rules[k].rhs|] == g.rules[k].head - g.n;
    }
  }

  /** A finished item says that its symbol derives the span. */
  lemma FinishedMeans(g: Grammar, steps: seq<int>, c: int, i: nat, j: nat)
    requires GoodGrammar(g) && StepsOf(g, steps) && 0 <= c < |steps| && steps[c] < 0 && Means(g, c, i, j)
    ensures steps[c] + g.n >= 0 && Derives(g, steps[c] + g.n, i, j)
  {
    hide StepsOf, Base, GoodGrammar, DerivesSeq, DerivesSym, Derives, Reach;
    if c < g.n {
      TokenStep(g, steps, c);
      TokenDerives(g, c, i);
    } else {
      var k: nat, m: nat, d: nat, r: nat :| Before(g, c, k, m, i, j, d, r);
      StepAt(g, steps, c, k, m);
      assert g.rules[k].rhs[..m] == g.rules[k].rhs;
      RuleDerives(g, k, i, j, d);
    }
  }

  lemma TokenStep(g: Grammar, steps: seq<int>, c: nat)
    requires StepsOf(g, steps) && c < g.n && c < |steps|
    ensures steps[c] == c - g.n
  {
    hide Base;
  }

  lemma TokenDerives(g: Grammar, x: nat, i: nat)
    requires i < |g.toks| && x in g.toks[i]
    ensures Derives(g, x, i, i + 1)
  {
    assert DerivesSym(g, x, i, i + 1, 0);
  }

  lemma RuleDerives(g: Grammar, k: nat, i: nat, j: nat, d: nat)
    requires k < |g.rules| && DerivesSeq(g, g.rules[k].rhs, i, j, d)
    ensures Derives(g, g.rules[k].head, i, j)
  {
    assert DerivesSym(g, g.rules[k].head, i, j, d + 1);
  }

  /** Moving the dot over a symbol that has been derived. */
  lemma AdvanceMeans(g: Grammar, steps: seq<int>, p: int, h: nat, i: nat, e: int, j: nat)
    requires GoodGrammar(g) && StepsOf(g, steps)
    requires 0 <= p < |steps| && steps[p] >= 0 && Means(g, p, h, i)
    requires 0 <= e < |steps| && steps[e] == steps[p] - g.n && Means(g, e, i, j)
    ensures p + 1 < |steps| && Means(g, p + 1, h, j)
  {
    hide StepsOf, Base, GoodGrammar, DerivesSeq, DerivesSym, Reach;
    BelowNegative(g, steps, p);
    var k: nat, m: nat, d2: nat, r: nat :| Before(g, p, k, m, h, i, d2, r);
    StepAt(g, steps, p, k, m);
    FinishedMeans(g, steps, e, i, j);
    MeansForward(g, e, i, j);
    var d1: nat :| DerivesSym(g, steps[p], i, j, d1);
    var d := SeqExtends(g, g.rules[k].rhs, m, h, i, j, d2, d1);
    assert Before(g, p + 1, k, m + 1, h, j, d, r);
    StepAt(g, steps, p + 1, k, m + 1);
  }

  lemma BelowNegative(g: Grammar, steps: seq<int>, p: int)
    requires StepsOf(g, steps) && 0 <= p < |steps| && steps[p] >= 0
    ensures p >= g.n
  {
    hide Base;
  }

  lemma SeqExtends(g: Grammar, rhs: seq<nat>, m: nat, h: nat, i: nat, j: nat, d2: nat, d1: nat) returns (d: nat)
    requires m < |rhs| && DerivesSeq(g, rhs[..m], h, i, d2) && DerivesSym(g, rhs[m], i, j, d1) && i <= j
    ensures DerivesSeq(g, rhs[..m + 1], h, j, d)
  {
    d := if d1 < d2 then d2 else d1;
    DeeperSym(g, rhs[m], i, j, d1, d);
    DeeperSeq(g, rhs[..m], h, i, d2, d);
    SeqForward(g, rhs[..m], h, i, d2);
    assert rhs[..m + 1][..m] == rhs[..m] && rhs[..m + 1][m] == rhs[m];
  }

  lemma {:induction false} BaseBelow(g: Grammar, k: nat)
    requires k < |g.rules|
    ensures Base(g, k) + |g.rules[k].rhs| < Base(g, |g.rules|)
    decreases |g.rules| - k
  {
    if k + 1 < |g.rules| {
      BaseBelow(g, k + 1);
    }
  }

  // ----- a closed chart holds everything the goal needs ------------------------------------------------

  /** The tables that drive the parser. */
  datatype Tables = Tables(starters: seq<seq<int>>, enders: seq<seq<int>>, predictors: seq<seq<int>>, steps: seq<int>)

  /** The tables belong to grammar g. */
  ghost predicate TablesOf(g: Grammar, t: Tables) {
    && GoodGrammar(g)
    && StepsOf(g, t.steps)
    && StartersOf(g, t.starters)
    && |t.starters| == g.n && |t.enders| == g.n && |t.predictors| == g.n
    && (forall x, c {:trigger c in t.enders[x]} {:trigger t.steps[c], t.enders[x]} :: 0 <= x < g.n ==>
          (c in t.enders[x] <==> 0 <= c < |t.steps| && t.steps[c] == x - g.n))
    && (forall x, c {:trigger c in t.predictors[x]} {:trigger t.steps[c], t.predictors[x]} :: 0 <= x < g.n ==>
          (c in t.predictors[x] <==> 0 <= c < |t.steps| && t.steps[c] == x))
  }

  /** chart[j] holds the items of state j, each with its origin. */
  type ItemSets = seq<set<(int, int)>>

  ghost predicate Scanned(g: Grammar, chart: ItemSets, j: nat)
    requires |chart| == |g.toks| + 1
  {
    forall x :: j < |g.toks| && x in g.toks[j] ==> (x, j) in chart[j + 1]
  }

  /** The symbol after the dot of each item in done has its rules in all. */
  ghost predicate Predicted(t: Tables, done: set<(int, int)>, all: set<(int, int)>, j: int) {
    forall p, i, s :: (p, i) in done && Starts(t, p, s) ==> (s, j) in all
  }

  /** s is a rule, dot in front, of the symbol that p waits for. */
  ghost predicate Starts(t: Tables, p: int, s: int) {
    0 <= p < |t.steps| && 0 <= t.steps[p] < |t.starters| && s in t.starters[t.steps[p]]
  }

  /** e is a finished item of the symbol that p waits for. */
  ghost predicate Completes(g: Grammar, t: Tables, p: int, e: int) {
    0 <= p < |t.steps| && 0 <= t.steps[p] < g.n && 0 <= e < |t.steps| && t.steps[e] == t.steps[p] - g.n
  }

  /** Each finished item in done with origin i moves the dot of each item that waits for it. */
  ghost predicate Completed(g: Grammar, t: Tables, waiting: set<(int, int)>, done: set<(int, int)>,
                            all: set<(int, int)>, i: int) {
    forall p, h, e :: (p, h) in waiting && (e, i) in done && Completes(g, t, p, e) ==> (p + 1, h) in all
  }

  ghost predicate Closed(g: Grammar, t: Tables, chart: ItemSets)
    requires TablesOf(g, t)
  {
    && |chart| == |g.toks| + 1
    && (g.n > 0 ==> forall c :: c in t.starters[0] ==> (c, 0) in chart[0])
    && (forall j :: 0 <= j < |g.toks| ==> Scanned(g, chart, j))
    && (forall j :: 0 <= j <= |g.toks| ==> Predicted(t, chart[j], chart[j], j))
    && (forall i, j :: 0 <= i <= j <= |g.toks| ==> Completed(g, t, chart[i], chart[j], chart[j], i))
  }

  /** Every item of state j is true of the input. */
  ghost predicate Sound(g: Grammar, all: set<(int, int)>, j: nat) {
    forall c: int, i: int :: (c, i) in all ==> i >= 0 && Means(g, c, i, j)
  }

  /** A finished item of the symbol after the dot moves the dot. */
  lemma StepOver(g: Grammar, t: Tables, chart: ItemSets, k: nat, m: nat, h: int, e: int, i: nat, j: nat)
    requires TablesOf(g, t) && Closed(g, t, chart)
    requires k < |g.rules| && m < |g.rules[k].rhs| && i <= j < |chart|
    requires (Base(g, k) + m, h) in chart[i] && (e, i) in chart[j]
    requires 0 <= e < |t.steps| && t.steps[e] == g.rules[k].rhs[m] - g.n
    ensures (Base(g, k) + m + 1, h) in chart[j]
  {
    hide Predicted, Scanned, StartersOf, Base;
    assert t.steps[Base(g, k) + m] == g.rules[k].rhs[m];
    assert Completed(g, t, chart[i], chart[j], chart[j], i);
  }

  lemma ReadOver(g: Grammar, t: Tables, chart: ItemSets, x: nat, i: nat)
    requires TablesOf(g, t) && Closed(g, t, chart)
    requires i < |g.toks| && x in g.toks[i]
    ensures (x, i) in chart[i + 1] && x < |t.steps| && t.steps[x] == x - g.n
  {
    hide Predicted, Completed, StartersOf, Base;
    assert Scanned(g, chart, i);
    assert x < g.n;
  }

  lemma StartOver(g: Grammar, t: Tables, chart: ItemSets, k: nat, m: nat, h: int, k': nat, i: nat)
    requires TablesOf(g, t) && Closed(g, t, chart)
    requires k < |g.rules| && m < |g.rules[k].rhs| && i < |chart| && k' < |g.rules|
    requires (Base(g, k) + m, h) in chart[i] && g.rules[k'].head == g.rules[k].rhs[m]
    ensures (Base(g, k'), i) in chart[i]
  {
    hide Scanned, Completed, Base;
    assert t.steps[Base(g, k) + m] == g.rules[k].rhs[m] < g.n;
    assert Predicted(t, chart[i], chart[i], i);
    assert Base(g, k') in t.starters[g.rules[k'].head];
  }

  lemma FinishedStep(g: Grammar, t: Tables, k: nat)
    requires TablesOf(g, t) && k < |g.rules|
    ensures Base(g, k) + |g.rules[k].rhs| < |t.steps| && t.steps[Base(g, k) + |g.rules[k].rhs|] == g.rules[k].head - g.n
  {
    hide StartersOf, Base, GoodGrammar;
  }

  /** An item whose next symbol derives i..j moves its dot over it. */
  lemma {:induction false} ClosedAdvances(g: Grammar, t: Tables, chart: ItemSets, k: nat, m: nat, h: int, i: nat,
    j: nat, d: nat)
    requires TablesOf(g, t) && Closed(g, t, chart)
    requires k < |g.rules| && m < |g.rules[k].rhs| && i <= j < |chart|
    requires (Base(g, k) + m, h) in chart[i] && DerivesSym(g, g.rules[k].rhs[m], i, j, d)
    ensures (Base(g, k) + m + 1, h) in chart[j]
    decreases d, 0
  {
    hide *;
    var x := g.rules[k].rhs[m];
    var k2 := SymCase(g, x, i, j, d);
    if k2 == |g.rules| {
      ReadOver(g, t, chart, x, i);
      StepOver(g, t, chart, k, m, h, x, i, j);
    } else {
      StartOver(g, t, chart, k, m, h, k2, i);
      var rhs := g.rules[k2].rhs;
      assert rhs[..|rhs|] == rhs;
      ClosedRule(g, t, chart, k2, |rhs|, i, i, j, d - 1);
      FinishedStep(g, t, k2);
      StepOver(g, t, chart, k, m, h, Base(g, k2) + |rhs|, i, j);
    }
  }

  lemma EmptyDerives(g: Grammar, xs: seq<nat>, i: nat, j: nat, d: nat)
    requires xs == [] && DerivesSeq(g, xs, i, j, d)
    ensures i == j
  {
  }

  /** A rule that is in the chart with its dot in front is there with its dot after m symbols. */
  lemma {:induction false} ClosedRule(g: Grammar, t: Tables, chart: ItemSets, k: nat, m: nat, o: int, i: nat, j: nat,
    d: nat)
    requires TablesOf(g, t) && Closed(g, t, chart)
    requires k < |g.rules| && m <= |g.rules[k].rhs| && i < |chart| && j < |chart|
    requires (Base(g, k), o) in chart[i] && DerivesSeq(g, g.rules[k].rhs[..m], i, j, d)
    ensures (Base(g, k) + m, o) in chart[j]
    decreases d, 1 + m
  {
    hide *;
    var xs := g.rules[k].rhs[..m];
    if m == 0 {
      EmptyDerives(g, xs, i, j, d);
    } else {
      var h := SeqCase(g, xs, i, j, d);
      assert xs[..|xs| - 1] == g.rules[k].rhs[..m - 1] && |xs| == m && xs[m - 1] == g.rules[k].rhs[m - 1];
      ClosedRule(g, t, chart, k, m - 1, o, i, h, d);
      ClosedAdvances(g, t, chart, k, m - 1, o, h, j, d);
    }
  }

  /** If the first symbol derives the whole input, one of its finished items is in the last
      state with origin 0. */
  lemma ClosedComplete(g: Grammar, t: Tables, chart: ItemSets)
    requires TablesOf(g, t) && Closed(g, t, chart)
    requires g.n > 0 && Derives(g, 0, 0, |g.toks|)
    ensures exists e :: e in t.enders[0] && (e, 0) in chart[|g.toks|]
  {
    hide DerivesSym, DerivesSeq, Closed, TablesOf;
    var n := |g.toks|;
    var d: nat :| DerivesSym(g, 0, 0, n, d);
    var k := SymCase(g, 0, 0, n, d);
    if k == |g.rules| {
      ReadOver(g, t, chart, 0, 0);
      IsEnder(g, t, 0, 0);
    } else {
      GoalStarted(g, t, chart, k);
      var rhs := g.rules[k].rhs;
      assert rhs[..|rhs|] == rhs;
      ChartLength(g, t, chart);
      ClosedRule(g, t, chart, k, |rhs|, 0, 0, n, d - 1);
      FinishedStep(g, t, k);
      IsEnder(g, t, Base(g, k) + |rhs|, 0);
    }
  }

  lemma ChartLength(g: Grammar, t: Tables, chart: ItemSets)
    requires TablesOf(g, t) && Closed(g, t, chart)
    ensures |chart| == |g.toks| + 1
  {
  }

  lemma IsEnder(g: Grammar, t: Tables, e: nat, x: nat)
    requires TablesOf(g, t) && x < g.n && e < |t.steps| && t.steps[e] == x - g.n
    ensures e in t.enders[x]
  {
  }

  lemma GoalStarted(g: Grammar, t: Tables, chart: ItemSets, k: nat)
    requires TablesOf(g, t) && Closed(g, t, chart)
    requires g.n > 0 && k < |g.rules| && g.rules[k].head == 0
    ensures (Base(g, k), 0) in chart[0]
  {
    hide Predicted, Completed, Scanned, StepsOf, Base;
    assert Base(g, k) in t.starters[g.rules[k].head];
  }

  // ----- what a chart that is sound and closed holds -----------------------------------------------------

  /** A rule that may begin at i is in state i, dot in front. */
  lemma {:induction false} ClosedReaches(g: Grammar, t: Tables, chart: ItemSets, k: nat, i: nat, r: nat)
    requires TablesOf(g, t) && Closed(g, t, chart) && i < |chart| && Reach(g, k, i, r)
    ensures k < |g.rules| && (Base(g, k), i) in chart[i]
    decreases r
  {
    hide TablesOf, Closed, Base, DerivesSeq;
    ChartLength(g, t, chart);
    if g.rules[k].head == 0 && i == 0 {
      HeadBelow(g, t, k);
      GoalStarted(g, t, chart, k);
    } else {
      var k': nat, m: nat, o: nat, d: nat :| Awaits(g, g.rules[k].head, i, k', m, o, d) && Reach(g, k', o, r - 1);
      SeqForward(g, g.rules[k'].rhs[..m], o, i, d);
      ClosedReaches(g, t, chart, k', o, r - 1);
      ClosedRule(g, t, chart, k', m, o, o, i, d);
      StartOver(g, t, chart, k', m, o, k, i);
    }
  }

  lemma HeadBelow(g: Grammar, t: Tables, k: nat)
    requires TablesOf(g, t) && k < |g.rules|
    ensures g.n > 0
  {
    hide StepsOf, StartersOf;
    assert g.rules[k].head < g.n;
  }

  /** A sound and closed chart holds an item exactly when it is true of the input. */
  lemma ChartExactly(g: Grammar, t: Tables, chart: ItemSets, c: int, i: nat, j: nat)
    requires TablesOf(g, t) && Closed(g, t, chart) && j < |chart| && Sound(g, chart[j], j)
    ensures (c, i) in chart[j] <==> Means(g, c, i, j)
  {
    hide TablesOf, Closed, Reach, Base, DerivesSeq;
    ChartLength(g, t, chart);
    if Means(g, c, i, j) {
      if c < g.n {
        ReadOver(g, t, chart, c, i);
      } else {
        MeansForward(g, c, i, j);
        var k: nat, m: nat, d: nat, r: nat :| Before(g, c, k, m, i, j, d, r);
        ClosedReaches(g, t, chart, k, i, r);
        ClosedRule(g, t, chart, k, m, i, i, j, d);
      }
    }
  }
}
