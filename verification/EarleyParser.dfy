/** The parser as a whole: what a caller of make-parser gets. */
module EarleyParser {
  import opened EarleyGrammar
  import opened EarleySets
  import opened EarleyChart
  import opened EarleyForward
  import opened EarleyParse
  import opened EarleyPrune
  import opened EarleyTrees
  import opened EarleyForest
  import opened EarleyTables
  import opened EarleyUses
  import opened EarleyDefinitions

  // ----- from the grammar's tables to an input's -----------------------------------------------------------

  lemma {:induction false} SameBase(g: Grammar, h: Grammar, k: nat)
    requires g.n == h.n && g.rules == h.rules && k <= |g.rules|
    ensures Base(g, k) == Base(h, k)
  {
    if k > 0 {
      SameBase(g, h, k - 1);
    }
  }

  lemma SameStep(g: Grammar, h: Grammar, steps: seq<int>)
    requires StepsOf(g, steps) && g.n == h.n && g.rules == h.rules
    ensures StepsOf(h, steps)
  {
    hide Base;
    SameBase(g, h, |g.rules|);
    forall k, m {:trigger h.rules[k].rhs[m]} | 0 <= k < |h.rules| && 0 <= m < |h.rules[k].rhs|
      ensures Base(h, k) + m < |steps| && steps[Base(h, k) + m] == h.rules[k].rhs[m]
    {
      SameBase(g, h, k);
      assert steps[Base(g, k) + m] == g.rules[k].rhs[m];
    }
    forall k | 0 <= k < |h.rules|
      ensures Base(h, k) + |h.rules[k].rhs| < |steps| && steps[Base(h, k) + |h.rules[k].rhs|] == h.rules[k].head - h.n
    {
      SameBase(g, h, k);
      assert steps[Base(g, k) + |g.rules[k].rhs|] == g.rules[k].head - g.n;
    }
  }

  lemma SameStarters(g: Grammar, h: Grammar, starters: seq<seq<int>>)
    requires StartersOf(g, starters) && g.n == h.n && g.rules == h.rules
    ensures StartersOf(h, starters)
  {
    hide Base;
    forall k | 0 <= k < |h.rules| && h.rules[k].head < h.n ensures Base(h, k) in starters[h.rules[k].head] {
      SameBase(g, h, k);
      assert g.rules[k].head < g.n;
    }
    forall x, c | 0 <= x < h.n && c in starters[x] ensures IsStart(h, c, x) {
      assert IsStart(g, c, x);
      var k :| 0 <= k < |g.rules| && g.rules[k].head == x && c == Base(g, k);
      SameBase(g, h, k);
    }
  }

  lemma SameItem(g: Grammar, h: Grammar, c: int, k: nat)
    requires g.n == h.n && g.rules == h.rules
    ensures IsItem(g, c, k, 0) <==> IsItem(h, c, k, 0)
  {
    hide Base;
    if k < |g.rules| {
      SameBase(g, h, k);
    }
  }

  /** The tables of a grammar serve for any input. */
  lemma ForTokens(g: Grammar, h: Grammar, t: Tables, names: seq<Option<Name>>)
    requires TablesOf(g, t) && NamesOf(g, names) && g.n == h.n && g.rules == h.rules && GoodGrammar(h)
    ensures TablesOf(h, t) && NamesOf(h, names)
  {
    hide StepsOf, StartersOf, Base, GoodGrammar, IsItem;
    SameStep(g, h, t.steps);
    SameStarters(g, h, t.starters);
    SameBase(g, h, |g.rules|);
    forall c: int, k: nat ensures IsItem(g, c, k, 0) <==> IsItem(h, c, k, 0) {
      SameItem(g, h, c, k);
    }
  }

  // ----- the lexer's tokens ------------------------------------------------------------------------------------

  method ReadToken(nts: seq<string>, symbols: seq<string>) returns (tok: seq<nat>)
    requires NoTwice(nts)
    ensures ReadsToken(nts, symbols, tok)
  {
    tok := [];
    var a := 0;
    while a < |symbols|
      invariant 0 <= a <= |symbols| && ReadsToken(nts, symbols[..a], tok)
    {
      var x := Ind(symbols[a], nts);
      assert symbols[..a + 1] == symbols[..a] + [symbols[a]];
      forall y: nat ensures y < |nts| && nts[y] == symbols[a] <==> y == x && x < |nts| {
      }
      if x < |nts| {
        tok := tok + [x];
      }
      a := a + 1;
    }
    assert symbols[..a] == symbols;
  }

  method ReadTokens(nts: seq<string>, input: seq<Token>) returns (words: seq<string>, toks: seq<seq<nat>>)
    requires NoTwice(nts)
    ensures Reads(nts, input, toks) && |words| == |input| && forall i :: 0 <= i < |words| ==> words[i] == input[i].word
  {
    hide ReadsToken;
    words, toks := [], [];
    var i := 0;
    while i < |input|
      invariant 0 <= i <= |input| == |input| && |words| == |toks| == i
      invariant forall k :: 0 <= k < i ==> words[k] == input[k].word && ReadsToken(nts, input[k].symbols, toks[k])
    {
      var tok := ReadToken(nts, input[i].symbols);
      words, toks := words + [input[i].word], toks + [tok];
      i := i + 1;
    }
  }

  // ----- the parser and its answers -------------------------------------------------------------------------------

  /** What make-parser builds once for a grammar. */
  class Parser {
    const defs: seq<Def>
    const nts: seq<string>
    const t: Tables
    const names: seq<Option<Name>>

    ghost predicate Valid() {
      && NoTwice(nts) && (forall s :: s in nts <==> Mentions(defs, s))
      && (defs != [] ==> nts != [] && nts[0] == defs[0].head)
      && GoodGrammar(GrammarOf(defs, nts, [])) && TablesOf(GrammarOf(defs, nts, []), t)
        && NamesOf(GrammarOf(defs, nts, []), names)
      && NamesBuilt(GrammarOf(defs, nts, []), RulesOf(defs), names, |RulesOf(defs)|) && EndersOnce(t)
    }

    constructor (defs: seq<Def>)
      ensures Valid() && this.defs == defs
      ensures SpelledOut(GrammarOf(defs, nts, []), nts, defs)
    {
      hide *;
      var nts := Symbols(defs);
      var rules := RulesOf(defs);
      ghost var g := GrammarOf(defs, nts, []);
      AllInNumbers(defs, nts);
      var t, names := MakeTables(nts, rules, g);
      this.defs, this.nts, this.t, this.names := defs, nts, t, names;
      new;
      IsValid(this);
      GrammarSpelledOut(defs, nts, []);
    }

    /** Parses an input. */
    method Parse(input: seq<Token>) returns (r: Result)
      requires Valid()
      ensures fresh(r) && fresh(r.chart) && r.Valid() && r.parser == this && r.input == input
      ensures forall x: nat, i: nat, j: nat :: x < |nts| ==>
                (Derives(r.G(), x, i, j) <==> Generates(defs, input, nts[x], i, j))
    {
      r := new Result(this, input);
      forall x: nat, i: nat, j: nat | x < |nts|
        ensures Derives(r.G(), x, i, j) <==> Generates(defs, input, nts[x], i, j)
      {
        ResultDerives(r, x, i, j);
      }
    }
  }

  lemma IsValid(p: Parser)
    requires NoTwice(p.nts) && (forall s :: s in p.nts <==> Mentions(p.defs, s))
    requires p.defs != [] ==> p.nts != [] && p.nts[0] == p.defs[0].head
    requires GoodGrammar(GrammarOf(p.defs, p.nts, [])) && TablesOf(GrammarOf(p.defs, p.nts, []), p.t)
    requires NamesOf(GrammarOf(p.defs, p.nts, []), p.names) && EndersOnce(p.t)
    requires NamesBuilt(GrammarOf(p.defs, p.nts, []), RulesOf(p.defs), p.names, |RulesOf(p.defs)|)
    ensures p.Valid()
  {
    hide NoTwice, Mentions, GoodGrammar, GrammarOf, TablesOf, NamesOf, NamesBuilt, EndersOnce, RulesOf;
  }

  lemma AllInNumbers(defs: seq<Def>, nts: seq<string>)
    requires NoTwice(nts) && forall s :: s in nts <==> Mentions(defs, s)
    ensures InNumbers(GrammarOf(defs, nts, []), nts, RulesOf(defs)) && GoodGrammar(GrammarOf(defs, nts, []))
  {
    hide Mentions, NoTwice, RulesOf;
    var rules := RulesOf(defs);
    forall k | 0 <= k < |rules| ensures rules[k].head in nts && forall m :: 0 <= m < |rules[k].rhs| ==> rules[k].rhs[m] in nts {
      RuleMentions(defs, k);
    }
  }

  /** The forward chart is sound and closed, and kept is what the backward pass left of it. */
  ghost predicate Parsed(g: Grammar, t: Tables, items: ItemSets, kept: ItemSets) {
    && TablesOf(g, t) && Closed(g, t, items) && (forall j :: 0 <= j < |items| ==> Sound(g, items[j], j))
    && IsPruned(g, t, items, kept)
  }

  lemma ParserHasNoTwice(p: Parser)
    requires p.Valid()
    ensures NoTwice(p.nts)
  {
  }

  lemma TokensGood(p: Parser, input: seq<Token>, toks: seq<seq<nat>>)
    requires p.Valid() && Reads(p.nts, input, toks)
    ensures TablesOf(GrammarOf(p.defs, p.nts, toks), p.t) && NamesOf(GrammarOf(p.defs, p.nts, toks), p.names)
    ensures GrammarOf(p.defs, p.nts, toks).toks == toks && |toks| == |input|
  {
    hide Mentions, NoTwice, RulesOf, RuleOf, StepsOf, StartersOf, NamesOf;
    var g, h := GrammarOf(p.defs, p.nts, []), GrammarOf(p.defs, p.nts, toks);
    assert GoodGrammar(h) by {
      hide TablesOf;
      forall i, x | 0 <= i < |h.toks| && x in h.toks[i] ensures x < h.n {
        assert ReadsToken(p.nts, input[i].symbols, toks[i]);
      }
    }
    ForTokens(g, h, p.t, p.names);
  }

  lemma ForwardFacts(from: Chart, g: Grammar, t: Tables)
    requires TablesOf(g, t) && from.Valid() && |from.shapes| == |g.toks| + 1 && Finished(g, t, from.shapes, |g.toks|)
    requires Closed(g, t, ItemsOf(from.shapes))
    ensures IsSource(from, ItemsOf(from.shapes)) && ItemsFit(g, t, ItemsOf(from.shapes))
      && |from.states| == |g.toks| + 1
    ensures forall j :: 0 <= j < |ItemsOf(from.shapes)| ==> Sound(g, ItemsOf(from.shapes)[j], j)
  {
    hide TablesOf, Closed, Shape.Members, Shape.Merged, Predicted, Completed, Sound, Fits, Chart.Valid;
    var items := ItemsOf(from.shapes);
    forall j | 0 <= j < |from.shapes| ensures Sound(g, items[j], j) && items[j] == MergedOf(from.shapes)[j] {
      assert FinishedState(g, t, from.shapes, j);
      SoundHere(g, from.shapes, j);
    }
    assert items == MergedOf(from.shapes);
    forall j, c, i | 0 <= j < |items| && (c, i) in items[j] ensures Fits(g, t, c, i, j) {
      FitsOf(g, t, items[j], c, i, j);
    }
  }

  lemma FitsOf(g: Grammar, t: Tables, all: set<(int, int)>, c: int, i: int, j: nat)
    requires TablesOf(g, t) && Sound(g, all, j) && (c, i) in all
    ensures Fits(g, t, c, i, j)
  {
    hide TablesOf, Means;
    ItemStep(g, t, c, i, j);
    MeansForward(g, c, i, j);
    MeansPrev(g, t, c, i, j);
  }

  lemma MeansPrev(g: Grammar, t: Tables, c: int, i: nat, j: nat)
    requires TablesOf(g, t) && Means(g, c, i, j)
    ensures g.n > 0 && (c >= 1 ==> c <= |t.steps| && t.steps[c - 1] < g.n)
  {
    hide TablesOf, Base, DerivesSeq, Reach;
    if c < g.n {
      if c > 0 {
        TokenIsItem(g, t, c - 1);
      }
    } else {
      var k: nat, m: nat, d: nat, r: nat :| Before(g, c, k, m, i, j, d, r);
      PrevStep(g, t, c, k, m);
    }
  }

  /** What a parse returns. */
  class Result {
    const parser: Parser
    const input: seq<Token>
    const words: seq<string>
    const toks: seq<seq<nat>>
    const chart: Chart
    ghost const items: ItemSets

    ghost function G(): (g: Grammar) {
      GrammarOf(parser.defs, parser.nts, toks)
    }

    ghost function Kept(): (kept: ItemSets)
      reads chart
    {
      ItemsOf(chart.shapes)
    }

    ghost predicate Valid()
      reads chart
    {
      && parser.Valid() && Reads(parser.nts, input, toks)
      && |words| == |input| && (forall i :: 0 <= i < |words| ==> words[i] == input[i].word)
      && chart.Valid() && |chart.states| == |toks| + 1
      && Parsed(G(), parser.t, items, Kept()) && NamesOf(G(), parser.names) && NoWork(chart.shapes, -1)
      && AllSetsUsed(chart.shapes)
    }

    constructor (parser: Parser, input: seq<Token>)
      requires parser.Valid()
      ensures Valid() && this.parser == parser && this.input == input && fresh(chart)
    {
      hide *;
      ParserHasNoTwice(parser);
      var words, toks := ReadTokens(parser.nts, input);
      var g := GrammarOf(parser.defs, parser.nts, toks);
      TokensGood(parser, input, toks);
      var from := ParseForward(g, parser.t);
      ghost var items := ItemsOf(from.shapes);
      ForwardFacts(from, g, parser.t);
      var to := Prune(from, g, parser.t, items);
      this.parser, this.input, this.words, this.toks, this.chart, this.items := parser, input, words, toks, to, items;
      new;
      ResultIsValid(this, g, ItemsOf(to.shapes));
    }

    /** What deriv_trees is given. */
    ghost function View(): (p: Parse)
      reads chart
    {
      var h := chart.shapes;
      Parse(|parser.nts|, parser.t.enders, parser.t.steps, parser.names, words,
            seq(|h|, j requires 0 <= j < |h| reads chart => map c | c in h[j].lists :: h[j].lists[c].merged))
    }

    /** A finished item of symbol x in state j is left, with origin i if that is at most j. */
    ghost predicate Finds(x: nat, i: int, j: nat)
      requires x < |parser.t.enders| && j < |Kept()|
      reads chart
    {
      exists e, k: int :: (k == i || i > j) && e in parser.t.enders[x] && (e, k) in Kept()[j]
    }

    /** is_parsed. For i up to j the answer is whether a parse of the whole input uses the symbol over
        tokens i..j. For i behind j it reads past the end of a set, and the answer is whether one
        uses the symbol over any tokens that end at j. */
    method IsParsed(nt: string, i: nat, j: nat) returns (r: bool)
      requires Valid() && j <= |toks|
      ensures i <= j ==> (r <==> UsedOver(parser.defs, input, nt, i, j))
      ensures i > j ==> (r <==> exists k: nat :: k <= j && UsedOver(parser.defs, input, nt, k, j))
      ensures parser.defs != [] && nt == parser.defs[0].head && i == 0 && j == |input| ==>
                (r <==> Generates(parser.defs, input, nt, 0, |input|))
      ensures r <==> nt in parser.nts && SymbolKept(G(), parser.t, items, Index(parser.nts, nt), i, j)
    {
      hide *;
      ResultFacts(this);
      ResultSymbols(this);
      var x := Ind(nt, parser.nts);
      if x == |parser.nts| {
        UnknownUnused(this, nt);
        return false;
      }
      IsIndex(parser.nts, nt, x);
      FoundExactly(this, x, i, j);
      ResultUses(this, x, i, j);
      UsedSymbols(parser.defs, input, nt, i, j);
      var l := parser.t.enders[x];
      var a := 0;
      while a < |l|
        invariant 0 <= a <= |l|
        invariant forall b :: 0 <= b < a ==> !Answers(chart.shapes[j], l[b], i, j)
      {
        EnderInTables(G(), parser.t, x, l[a]);
        var m := chart.Member(j, l[a], i);
        AnswersMember(this, i, j, l[a]);
        if m {
          FoundHere(this, x, i, j, l[a]);
          return true;
        }
        a := a + 1;
      }
      NotFound(this, x, i, j);
      return false;
    }
  }

  lemma ResultFacts(r: Result)
    requires r.Valid()
    ensures NoTwice(r.parser.nts) && r.chart.Valid()
      && |r.chart.states| == |r.toks| + 1 == |r.Kept()| == |r.items| == |r.chart.shapes|
    ensures TablesOf(r.G(), r.parser.t) && |r.parser.t.enders| == r.G().n == |r.parser.nts|
    ensures r.G().toks == r.toks && |r.parser.names| == Base(r.G(), |r.G().rules|)
    ensures Parsed(r.G(), r.parser.t, r.items, r.Kept()) && NamesOf(r.G(), r.parser.names)
  {
    hide Chart.Valid, GoodGrammar, StepsOf, StartersOf, Sound, AllFollowed, GoalsKept, IsKept, Shape.Members, RulesOf,
      RuleOf, Base;
  }

  lemma ResultSymbols(r: Result)
    requires r.Valid()
    ensures |r.toks| == |r.input| && (forall s :: s in r.parser.nts <==> Mentions(r.parser.defs, s))
    ensures r.parser.defs != [] ==> r.parser.nts != [] && r.parser.nts[0] == r.parser.defs[0].head
  {
    hide Parsed, NamesOf, NoWork, AllSetsUsed, Chart.Valid, GoodGrammar, TablesOf, NamesBuilt, EndersOnce, Mentions,
      NoTwice;
  }

  lemma ResultNumbers(r: Result)
    requires r.Valid()
    ensures Numbers(r.parser.defs, r.parser.nts, r.input, r.G()) && ExactChart(r.G(), r.parser.t, r.items)
    ensures r.G().n == |r.parser.nts|
  {
    hide NamesOf, NoWork, AllSetsUsed, Chart.Valid, GoodGrammar, TablesOf, NamesBuilt, EndersOnce, Mentions, NoTwice,
      RulesOf, RuleOf, SpelledOut, Closed, Sound, IsPruned;
    ResultFacts(r);
    ResultSymbols(r);
    GrammarSpelledOut(r.parser.defs, r.parser.nts, r.toks);
    if r.parser.defs == [] && r.parser.nts != [] {
      assert r.parser.nts[0] in r.parser.nts;
      NothingMentioned(r.parser.nts[0]);
    }
  }

  lemma NothingMentioned(s: string)
    ensures !Mentions([], s)
  {
  }

  /** What a result's grammar in numbers derives is what the definitions say. */
  lemma ResultDerives(r: Result, x: nat, i: nat, j: nat)
    requires r.Valid() && x < |r.parser.nts|
    ensures Derives(r.G(), x, i, j) <==> Generates(r.parser.defs, r.input, r.parser.nts[x], i, j)
  {
    hide *;
    ResultNumbers(r);
    DerivesExactly(r.parser.defs, r.parser.nts, r.input, r.G(), x, i, j);
  }

  /** What is kept of a symbol says where it is used. */
  lemma ResultUses(r: Result, x: nat, i: nat, j: nat)
    requires r.Valid() && x < |r.parser.nts|
    ensures i <= j ==>
      (SymbolKept(r.G(), r.parser.t, r.items, x, i, j) <==> UsedOver(r.parser.defs, r.input, r.parser.nts[x], i, j))
    ensures i > j ==>
      (SymbolKept(r.G(), r.parser.t, r.items, x, i, j) <==>
        exists k: nat :: k <= j && UsedOver(r.parser.defs, r.input, r.parser.nts[x], k, j))
  {
    hide *;
    ResultNumbers(r);
    forall k: nat ensures IsUsed(r.G(), x, k, j) <==> UsedOver(r.parser.defs, r.input, r.parser.nts[x], k, j) {
      UsesExactly(r.parser.defs, r.parser.nts, r.input, r.G(), x, k, j);
    }
    if i <= j {
      UsedExactly(r.G(), r.parser.t, r.items, x, i, j);
    } else {
      UsedBackward(r.G(), r.parser.t, r.items, x, i, j);
    }
  }

  lemma UnknownUnused(r: Result, nt: string)
    requires r.Valid() && nt !in r.parser.nts
    ensures forall i: nat, j: nat :: !UsedOver(r.parser.defs, r.input, nt, i, j)
    ensures r.parser.defs != [] ==> nt != r.parser.defs[0].head
  {
    hide *;
    ResultSymbols(r);
    forall i: nat, j: nat ensures !UsedOver(r.parser.defs, r.input, nt, i, j) {
      UsedSymbols(r.parser.defs, r.input, nt, i, j);
    }
    assert r.parser.defs != [] ==> r.parser.nts[0] in r.parser.nts;
  }

  lemma EnderInTables(g: Grammar, t: Tables, x: nat, e: int)
    requires TablesOf(g, t) && x < g.n && |t.enders| == g.n && e in t.enders[x]
    ensures 0 <= e < |t.steps| && t.steps[e] == x - g.n
  {
    hide StepsOf, StartersOf, GoodGrammar;
  }

  /** Conf e of h has origin i, or for i past the end of the set any origin. */
  ghost predicate Answers(h: Shape, e: int, i: int, j: int) {
    exists k :: (k == i || i > j) && (e, k) in h.Members()
  }

  lemma AnswersMember(r: Result, i: nat, j: nat, e: int)
    requires r.Valid() && r.chart.Valid() && j < |r.chart.states| == |r.chart.shapes|
    ensures r.chart.Member(j, e, i) <==> Answers(r.chart.shapes[j], e, i, j)
  {
    hide Chart.Valid, Parsed, Parser.Valid, Reads, NamesOf, NoWork, Depicts, Shape.Members;
    var h := r.chart.shapes[j];
    HasMember(h, e, i);
    if i > j {
      assert NoneEmpty(h);
      if e in h.lists {
        HasMember(h, e, h.lists[e].All()[0]);
      }
      forall k ensures (e, k) in h.Members() ==> e in h.lists {
        HasMember(h, e, k);
      }
    }
  }

  lemma FoundHere(r: Result, x: nat, i: int, j: nat, e: int)
    requires x < |r.parser.t.enders| && j < |r.chart.shapes| && e in r.parser.t.enders[x]
      && Answers(r.chart.shapes[j], e, i, j)
    ensures j < |r.Kept()| && r.Finds(x, i, j)
  {
    hide Shape.Members;
  }

  lemma NotFound(r: Result, x: nat, i: int, j: nat)
    requires x < |r.parser.t.enders| && j < |r.chart.shapes|
    requires forall b :: 0 <= b < |r.parser.t.enders[x]| ==> !Answers(r.chart.shapes[j], r.parser.t.enders[x][b], i, j)
    ensures j < |r.Kept()| && !r.Finds(x, i, j)
  {
    hide Shape.Members;
  }

  /** What it means that a finished item is left. */
  lemma FoundExactly(r: Result, x: nat, i: nat, j: nat)
    requires r.Valid() && x < |r.parser.nts| && j <= |r.toks|
    ensures x < |r.parser.t.enders| && j < |r.Kept()|
    ensures r.Finds(x, i, j) <==> SymbolKept(r.G(), r.parser.t, r.items, x, i, j)
    ensures r.Finds(x, i, j) ==> exists k: nat :: (k == i || i > j) && Derives(r.G(), x, k, j)
    ensures x == 0 && i == 0 && j == |r.toks| ==> (r.Finds(x, i, j) <==> Derives(r.G(), 0, 0, j))
  {
    hide Result.Valid, Parsed, Result.G, Result.Kept, TablesOf, NamesOf, Derives, IsKept, Base;
    ResultFacts(r);
    KeptExactly(r.G(), r.parser.t, r.items, r.Kept(), j);
    if r.Finds(x, i, j) {
      var e, k: int :| (k == i || i > j) && e in r.parser.t.enders[x] && (e, k) in r.Kept()[j];
      KeptDerives(r.G(), r.parser.t, r.items, r.Kept(), x, e, k, j);
    }
    if x == 0 && i == 0 && j == |r.toks| && Derives(r.G(), 0, 0, j) {
      GoalKept(r.G(), r.parser.t, r.items, r.Kept());
    }
  }

  lemma KeptExactly(g: Grammar, t: Tables, items: ItemSets, kept: ItemSets, j: nat)
    requires Parsed(g, t, items, kept) && j < |kept| == |items|
    ensures forall c, i :: (c, i) in kept[j] <==> IsKept(g, t, items, c, i, j)
  {
    hide TablesOf, Closed, Sound, AllKept, GoalsKept, AllFollowed, IsKept;
    forall c, i ensures (c, i) in kept[j] <==> IsKept(g, t, items, c, i, j) {
      PrunedExactly(g, t, items, kept, c, i, j);
    }
  }

  lemma KeptDerives(g: Grammar, t: Tables, items: ItemSets, kept: ItemSets, x: nat, e: int, i: int, j: nat)
    requires Parsed(g, t, items, kept) && j < |kept| == |items| && |t.enders| == g.n && x < g.n
    requires e in t.enders[x] && (e, i) in kept[j]
    ensures i >= 0 && Derives(g, x, i, j)
  {
    hide Closed, GoalsKept, AllFollowed, IsKept, Means, StepsOf, StartersOf, GoodGrammar, Derives;
    assert (e, i) in items[j] && Sound(g, items[j], j);
    EnderInTables(g, t, x, e);
    FinishedMeans(g, t.steps, e, i, j);
  }

  lemma GoalKept(g: Grammar, t: Tables, items: ItemSets, kept: ItemSets)
    requires Parsed(g, t, items, kept) && |kept| == |items| == |g.toks| + 1 && g.n > 0 && |t.enders| == g.n
      && Derives(g, 0, 0, |g.toks|)
    ensures exists e :: e in t.enders[0] && (e, 0) in kept[|g.toks|]
  {
    hide Closed, Sound, AllKept, AllFollowed, IsKept, Derives, TablesOf;
    ClosedComplete(g, t, items);
    var e :| e in t.enders[0] && (e, 0) in items[|g.toks|];
    assert e in t.enders[0] && (e, 0) in kept[|g.toks|];
  }

  lemma ResultIsValid(r: Result, g: Grammar, kept: ItemSets)
    requires r.parser.Valid() && Reads(r.parser.nts, r.input, r.toks)
      && g == GrammarOf(r.parser.defs, r.parser.nts, r.toks)
    requires |r.words| == |r.input| && forall i :: 0 <= i < |r.words| ==> r.words[i] == r.input[i].word
    requires r.chart.Valid() && |r.chart.states| == |r.toks| + 1 && kept == ItemsOf(r.chart.shapes)
    requires TablesOf(g, r.parser.t) && Closed(g, r.parser.t, r.items) && NamesOf(g, r.parser.names)
      && NoWork(r.chart.shapes, -1) && AllSetsUsed(r.chart.shapes)
    requires (forall j :: 0 <= j < |r.items| ==> Sound(g, r.items[j], j)) && IsPruned(g, r.parser.t, r.items, kept)
    ensures r.Valid()
  {
    hide Parser.Valid, Reads, Chart.Valid, TablesOf, Closed, NamesOf, Sound, IsPruned, GrammarOf, ItemsOf, AllSetsUsed;
  }

  // ----- the trees of a parse ------------------------------------------------------------------------------------

  lemma ViewIsParse(r: Result)
    requires r.Valid()
    ensures ParseOf(r.View(), r.G(), r.parser.t, r.items, r.Kept())
    ensures r.View().Valid() && |r.View().names| == Base(r.G(), |r.G().rules|)
  {
    hide Parsed, Chart.Valid, NamesOf, TablesOf, Base, GoodGrammar, RulesOf, RuleOf, IsPruned, Closed, Sound;
    ResultFacts(r);
    assert Parsed(r.G(), r.parser.t, r.items, r.Kept());
    ViewHas(r);
    IsParseOf(r.View(), r.G(), r.parser.t, r.items, r.Kept());
    ParseIsValid(r.View(), r.G(), r.parser.t, r.items, r.Kept());
  }

  lemma IsParseOf(p: Parse, g: Grammar, t: Tables, chart: ItemSets, kept: ItemSets)
    requires Parsed(g, t, chart, kept) && p.n == g.n && p.enders == t.enders && p.steps == t.steps
      && NamesOf(g, p.names)
    requires |p.words| == |g.toks| && |p.sets| == |kept|
      && forall c, i, j :: p.Has(c, i, j) <==> 0 <= j < |kept| && (c, i) in kept[j]
    ensures ParseOf(p, g, t, chart, kept)
  {
    hide TablesOf, Closed, Sound, IsPruned, NamesOf, Parse.Has;
  }

  lemma ViewHas(r: Result)
    requires r.Valid()
    ensures |r.View().sets| == |r.Kept()|
    ensures forall c, i, j :: r.View().Has(c, i, j) <==> 0 <= j < |r.Kept()| && (c, i) in r.Kept()[j]
  {
    hide Parsed, NamesOf, Parser.Valid, Reads, Shape.WellFormed;
    ResultChart(r);
    hide Result.Valid, Chart.Valid, Shape.Members, Shape.Merged;
    forall c, i, j ensures r.View().Has(c, i, j) <==> 0 <= j < |r.Kept()| && (c, i) in r.Kept()[j] {
      if 0 <= j < |r.Kept()| {
        ShapeFormed(r.chart, j);
        NothingLeft(r.chart.shapes[j]);
        InMerged(r.chart.shapes[j], c, i);
      }
    }
  }

  lemma ResultChart(r: Result)
    requires r.Valid()
    ensures r.chart.Valid() && NoWork(r.chart.shapes, -1) && |r.chart.states| == |r.chart.shapes|
  {
    hide Parsed, NamesOf, Parser.Valid, Reads, NoWork;
  }
}
