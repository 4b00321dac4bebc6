/** make-parser: the symbols of a grammar, numbered in the order of their first mention, and the tables
    that drive the parser: the first items of each symbol's rules, its finished items, the items that
    wait for it, the symbol behind each item's dot, and the names of the first items. */
module EarleyTables {
  import opened EarleyGrammar
  import opened EarleyTrees
  import opened EarleyForest

  /** A definition: a head and its rules. */
  datatype Def = Def(head: string, rules: seq<seq<string>>)

  /** A rule with its head and its number within the definition. */
  datatype Numbered = Numbered(head: string, rhs: seq<string>, number: nat)

  /** The rules in the order in which make-parser runs through them, numbered from 1 in each definition. */
  function RulesOf(defs: seq<Def>): seq<Numbered> {
    if defs == [] then [] else NumberedFrom(defs[0].head, defs[0].rules, 1) + RulesOf(defs[1..])
  }

  function NumberedFrom(head: string, rules: seq<seq<string>>, number: nat): seq<Numbered> {
    if rules == [] then [] else [Numbered(head, rules[0], number)] + NumberedFrom(head, rules[1..], number + 1)
  }

  /** ind: the index of a symbol, searched from the end; |nts| if it is not there. */
  method Ind(nt: string, nts: seq<string>) returns (x: nat)
    ensures x <= |nts| && (x < |nts| <==> nt in nts) && (x < |nts| ==> nts[x] == nt)
    ensures forall y :: x < y < |nts| ==> nts[y] != nt
  {
    var i := |nts| - 1;
    while i >= 0
      invariant -1 <= i < |nts|
      invariant forall y :: i < y < |nts| ==> nts[y] != nt
    {
      if nts[i] == nt {
        return i;
      }
      i := i - 1;
    }
    x := |nts|;
  }

  ghost predicate NoTwice(nts: seq<string>) {
    forall x, y :: 0 <= x < y < |nts| ==> nts[x] != nts[y]
  }

  /** Adds symbols that are not there yet. */
  method AddSymbols(nts: seq<string>, more: seq<string>) returns (r: seq<string>)
    requires NoTwice(nts)
    ensures NoTwice(r) && nts <= r
    ensures forall s :: s in r <==> s in nts || s in more
  {
    r := nts;
    var a := 0;
    while a < |more|
      invariant 0 <= a <= |more| && NoTwice(r) && nts <= r
      invariant forall s :: s in r <==> s in nts || s in more[..a]
    {
      if more[a] !in r {
        r := r + [more[a]];
      }
      assert more[..a + 1] == more[..a] + [more[a]];
      a := a + 1;
    }
    assert more[..a] == more;
  }

  ghost predicate Mentions(defs: seq<Def>, s: string) {
    exists a :: 0 <= a < |defs| && DefMentions(defs[a], s)
  }

  ghost predicate DefMentions(def: Def, s: string) {
    s == def.head || RulesMention(def.rules, s)
  }

  ghost predicate RulesMention(rules: seq<seq<string>>, s: string) {
    exists b :: 0 <= b < |rules| && s in rules[b]
  }

  /** The symbols of a grammar in the order of their first mention: the goal is the first head. */
  method Symbols(defs: seq<Def>) returns (nts: seq<string>)
    ensures NoTwice(nts) && forall s :: s in nts <==> Mentions(defs, s)
    ensures defs != [] ==> nts != [] && nts[0] == defs[0].head
  {
    nts := [];
    var a := 0;
    while a < |defs|
      invariant 0 <= a <= |defs| && NoTwice(nts)
      invariant forall s :: s in nts <==> Mentions(defs[..a], s)
      invariant if a == 0 then nts == [] else nts != [] && nts[0] == defs[0].head
    {
      ghost var was := nts;
      nts := DefSymbols(nts, defs[a]);
      assert a > 0 ==> nts[0] == was[0];
      forall s ensures s in nts <==> Mentions(defs[..a + 1], s) {
        OneMoreDef(defs, a, s);
      }
      a := a + 1;
    }
    assert defs[..a] == defs;
  }

  lemma OneMoreDef(defs: seq<Def>, a: nat, s: string)
    requires a < |defs|
    ensures Mentions(defs[..a + 1], s) <==> Mentions(defs[..a], s) || DefMentions(defs[a], s)
  {
    hide DefMentions;
    var p, q := defs[..a + 1], defs[..a];
    if Mentions(q, s) {
      var b :| 0 <= b < |q| && DefMentions(q[b], s);
      assert DefMentions(p[b], s);
    }
    if DefMentions(defs[a], s) {
      assert DefMentions(p[a], s);
    }
    if Mentions(p, s) && !DefMentions(defs[a], s) {
      var b :| 0 <= b < |p| && DefMentions(p[b], s);
      assert DefMentions(q[b], s);
    }
  }

  method DefSymbols(nts: seq<string>, def: Def) returns (r: seq<string>)
    requires NoTwice(nts)
    ensures NoTwice(r) && nts <= r && (nts == [] ==> r != [] && r[0] == def.head)
    ensures forall s :: s in r <==> s in nts || DefMentions(def, s)
  {
    r := AddSymbols(nts, [def.head]);
    ghost var first := r;
    assert def.head in r;
    assert nts == [] ==> r[0] in r && r[0] !in nts;
    var b := 0;
    while b < |def.rules|
      invariant 0 <= b <= |def.rules| && NoTwice(r) && first <= r
      invariant forall s :: s in r <==> s in nts || s == def.head || RulesMention(def.rules[..b], s)
    {
      r := AddSymbols(r, def.rules[b]);
      forall s ensures RulesMention(def.rules[..b + 1], s) <==> RulesMention(def.rules[..b], s) || s in def.rules[b] {
        OneMoreRule(def.rules, b, s);
      }
      b := b + 1;
    }
    assert def.rules[..b] == def.rules;
  }

  lemma OneMoreRule(rules: seq<seq<string>>, b: nat, s: string)
    requires b < |rules|
    ensures RulesMention(rules[..b + 1], s) <==> RulesMention(rules[..b], s) || s in rules[b]
  {
    var p, q := rules[..b + 1], rules[..b];
    if RulesMention(q, s) {
      var x :| 0 <= x < |q| && s in q[x];
      assert s in p[x];
    }
    if s in rules[b] {
      assert s in p[b];
    }
    if RulesMention(p, s) && s !in rules[b] {
      var x :| 0 <= x < |p| && s in p[x];
      assert s in q[x];
    }
  }

  // ----- the tables ---------------------------------------------------------------------------------------------

  /** The index of a symbol that is there. */
  function Index(nts: seq<string>, s: string): (x: nat)
    ensures s in nts ==> x < |nts| && nts[x] == s
  {
    if nts == [] then 0
    else if nts[|nts| - 1] == s then |nts| - 1
    else assert nts == nts[..|nts| - 1] + [nts[|nts| - 1]]; Index(nts[..|nts| - 1], s)
  }

  /** A grammar in numbers. */
  function GrammarOf(defs: seq<Def>, nts: seq<string>, toks: seq<seq<nat>>): (g: Grammar) {
    Grammar(|nts|, seq(|RulesOf(defs)|, k requires 0 <= k < |RulesOf(defs)| => RuleOf(nts, RulesOf(defs)[k])), toks)
  }

  function RuleOf(nts: seq<string>, rule: Numbered): Rule {
    Rule(Index(nts, rule.head), seq(|rule.rhs|, m requires 0 <= m < |rule.rhs| => Index(nts, rule.rhs[m])))
  }

  ghost predicate InNumbers(g: Grammar, nts: seq<string>, rules: seq<Numbered>) {
    && g.n == |nts| && |g.rules| == |rules| && NoTwice(nts)
    && (forall k :: 0 <= k < |rules| ==> rules[k].head in nts && g.rules[k] == RuleOf(nts, rules[k]))
    && (forall k, m :: 0 <= k < |rules| && 0 <= m < |rules[k].rhs| ==> rules[k].rhs[m] in nts)
  }

  /** The steps below conf have been set. */
  ghost predicate StepsBuilt(g: Grammar, steps: seq<int>, conf: nat) {
    && |steps| == Base(g, |g.rules|)
    && (forall c :: 0 <= c < g.n && c < conf && c < |steps| ==> steps[c] == c - g.n)
    && (forall k: nat, x: nat :: k < |g.rules| && x <= |g.rules[k].rhs| && Base(g, k) + x < conf ==> StepRight(g, steps, k, x))
  }

  ghost predicate StepRight(g: Grammar, steps: seq<int>, k: nat, x: nat)
    requires k < |g.rules| && x <= |g.rules[k].rhs|
  {
    Base(g, k) + x < |steps| && steps[Base(g, k) + x] == StepOf(g, k, x)
  }

  ghost function StepOf(g: Grammar, k: nat, x: nat): int
    requires k < |g.rules| && x <= |g.rules[k].rhs|
  {
    if x < |g.rules[k].rhs| then g.rules[k].rhs[x] else g.rules[k].head - g.n
  }

  /** lists[x] holds the confs below conf whose step is x + off, each once. */
  ghost predicate ListBuilt(lists: seq<seq<int>>, steps: seq<int>, conf: nat, off: int) {
    && conf <= |steps|
    && (forall x, c {:trigger c in lists[x]} :: 0 <= x < |lists| ==>
          (c in lists[x] <==> 0 <= c < conf && steps[c] == x + off))
    && (forall x :: 0 <= x < |lists| ==> NoRepeats(lists[x]))
  }

  ghost predicate EndersOnce(t: Tables) {
    forall x :: 0 <= x < |t.enders| ==> NoRepeats(t.enders[x])
  }

  ghost predicate StartersBuilt(g: Grammar, starters: seq<seq<int>>, r: nat) {
    |starters| == g.n && forall x, c :: 0 <= x < g.n ==> (c in starters[x] <==> exists k: nat :: k < r && StartsAt(g, k, x, c))
  }

  ghost predicate StartsAt(g: Grammar, k: nat, x: int, c: int) {
    k < |g.rules| && g.rules[k].head == x && c == Base(g, k)
  }

  ghost predicate NamesBuilt(g: Grammar, rules: seq<Numbered>, names: seq<Option<Name>>, r: nat) {
    && |names| == Base(g, |g.rules|) && |rules| == |g.rules|
    && (forall c :: 0 <= c < g.n ==> names[c] == Some(Name(c, 0)))
    && (forall c :: g.n <= c < |names| ==> (names[c].Some? <==> BeginsBelow(g, c, r)))
    && (forall k: nat :: k < r && k < |g.rules| ==> Labelled(g, rules, names, k))
  }

  ghost predicate Labelled(g: Grammar, rules: seq<Numbered>, names: seq<Option<Name>>, k: nat)
    requires k < |g.rules| && k < |rules|
  {
    Base(g, k) < |names| && names[Base(g, k)] == Some(Name(g.rules[k].head, rules[k].number))
  }

  /** c is the first item of one of the first r rules. */
  ghost predicate BeginsBelow(g: Grammar, c: int, r: nat) {
    exists k: nat :: k < r && k < |g.rules| && IsItem(g, c, k, 0)
  }

  lemma BeginsStep(g: Grammar, r: nat)
    requires r < |g.rules|
    ensures forall c :: BeginsBelow(g, c, r + 1) <==> BeginsBelow(g, c, r) || c == Base(g, r)
  {
    hide Base;
    assert IsItem(g, Base(g, r), r, 0);
  }

  lemma ListGrows(lists: seq<seq<int>>, steps: seq<int>, conf: nat, off: int, y: nat)
    requires ListBuilt(lists, steps, conf, off) && conf < |steps| && y < |lists|
    ensures ListBuilt(lists[y := [conf] + lists[y]], steps[conf := y + off], conf + 1, off)
  {
    hide NoRepeats;
    var ls, ss := lists[y := [conf] + lists[y]], steps[conf := y + off];
    forall x, c | 0 <= x < |ls| ensures c in ls[x] <==> 0 <= c < conf + 1 && ss[c] == x + off {
      assert c in lists[x] <==> 0 <= c < conf && steps[c] == x + off;
    }
    FrontOnce(conf, lists[y]);
  }

  lemma ListStays(lists: seq<seq<int>>, steps: seq<int>, conf: nat, off: int, v: int)
    requires ListBuilt(lists, steps, conf, off) && conf < |steps| && !(0 <= v - off < |lists|)
    ensures ListBuilt(lists, steps[conf := v], conf + 1, off)
  {
    var ss := steps[conf := v];
    forall x, c | 0 <= x < |lists| ensures c in lists[x] <==> 0 <= c < conf + 1 && ss[c] == x + off {
      assert c in lists[x] <==> 0 <= c < conf && steps[c] == x + off;
    }
  }

  lemma StepsGrow(g: Grammar, steps: seq<int>, k: nat, x: nat)
    requires k < |g.rules| && x <= |g.rules[k].rhs| && StepsBuilt(g, steps, Base(g, k) + x)
    ensures Base(g, k) + x < |steps|
    ensures StepsBuilt(g, steps[Base(g, k) + x := StepOf(g, k, x)], Base(g, k) + x + 1)
  {
    hide Base;
    BaseBelow(g, k);
    var conf := Base(g, k) + x;
    var ss := steps[conf := StepOf(g, k, x)];
    forall k': nat, x': nat | k' < |g.rules| && x' <= |g.rules[k'].rhs| && Base(g, k') + x' < conf + 1 ensures StepRight(g, ss, k', x') {
      if Base(g, k') + x' == conf {
        ItemUnique(g, conf, k, x, k', x');
      } else {
        assert StepRight(g, steps, k', x');
      }
    }
  }

  lemma StartersGrow(g: Grammar, starters: seq<seq<int>>, r: nat, h: nat)
    requires StartersBuilt(g, starters, r) && r < |g.rules| && h == g.rules[r].head && h < g.n
    ensures StartersBuilt(g, starters[h := [Base(g, r)] + starters[h]], r + 1)
  {
    hide Base;
    var ls := starters[h := [Base(g, r)] + starters[h]];
    forall x, c | 0 <= x < g.n ensures c in ls[x] <==> exists k: nat :: k < r + 1 && StartsAt(g, k, x, c) {
      assert c in starters[x] <==> exists k: nat :: k < r && StartsAt(g, k, x, c);
      if c in ls[x] && c !in starters[x] {
        assert StartsAt(g, r, x, c);
      }
      if k: nat :| k < r + 1 && StartsAt(g, k, x, c) {
        assert k == r ==> c in ls[x];
      }
    }
  }

  lemma NamesGrow(g: Grammar, rules: seq<Numbered>, names: seq<Option<Name>>, r: nat, name: Name)
    requires NamesBuilt(g, rules, names, r) && r < |g.rules| && name == Name(g.rules[r].head, rules[r].number)
    ensures Base(g, r) < |names| && NamesBuilt(g, rules, names[Base(g, r) := Some(name)], r + 1)
  {
    hide Base, BeginsBelow, Labelled;
    BaseBelow(g, r);
    var b := Base(g, r);
    var ns := names[b := Some(name)];
    BeginsStep(g, r);
    assert b >= g.n;
    forall k: nat | k < r + 1 ensures Labelled(g, rules, ns, k) {
      LabelKept(g, rules, names, r, k, name);
    }
    forall c | g.n <= c < |ns| ensures ns[c].Some? <==> BeginsBelow(g, c, r + 1) {
      assert names[c].Some? <==> BeginsBelow(g, c, r);
    }
  }

  lemma LabelKept(g: Grammar, rules: seq<Numbered>, names: seq<Option<Name>>, r: nat, k: nat, name: Name)
    requires |rules| == |g.rules| && k <= r < |g.rules| && Base(g, r) < |names|
    requires k < r ==> Labelled(g, rules, names, k)
    requires name == Name(g.rules[r].head, rules[r].number)
    ensures Labelled(g, rules, names[Base(g, r) := Some(name)], k)
  {
    hide Base;
    if k < r {
      BaseOrder(g, k, r);
    }
  }

  /** make-parser: the tables and the names, filled in one run through the rules. */
  method MakeTables(nts: seq<string>, rules: seq<Numbered>, ghost g: Grammar)
    returns (t: Tables, names: seq<Option<Name>>)
    requires InNumbers(g, nts, rules) && GoodGrammar(g)
    ensures TablesOf(g, t) && NamesBuilt(g, rules, names, |rules|) && NamesOf(g, names)
    ensures EndersOnce(t)
  {
    hide NoRepeats, Base, ListBuilt, StepsBuilt, StartersBuilt, NamesBuilt, InNumbers, GoodGrammar, TablesOf, NamesOf;
    var n := |nts|;
    var count := CountConfs(rules, g, nts);
    NumbersSizes(g, nts, rules);
    var steps := seq(n + count, c => if c < n then c - n else 0);
    names := seq(n + count, c requires c >= 0 => if c < n then Some(Name(c, 0)) else None);
    var enders := seq(n, x => [x]);
    var starters: seq<seq<int>> := seq(n, x => []);
    var predictors: seq<seq<int>> := seq(n, x => []);
    StartBuilt(g, rules, steps, names, enders, starters, predictors);
    var conf := n;
    var r := 0;
    while r < |rules|
      invariant 0 <= r <= |rules| && conf == Base(g, r)
      invariant |starters| == |enders| == |predictors| == n
      invariant StepsBuilt(g, steps, conf) && ListBuilt(enders, steps, conf, 0 - n)
        && ListBuilt(predictors, steps, conf, 0)
      invariant StartersBuilt(g, starters, r) && NamesBuilt(g, rules, names, r)
    {
      var h := Ind(rules[r].head, nts);
      HeadNumber(g, nts, rules, r, h);
      NamesGrow(g, rules, names, r, Name(h, rules[r].number));
      names := names[conf := Some(Name(h, rules[r].number))];
      StartersGrow(g, starters, r, h);
      starters := starters[h := [conf] + starters[h]];
      conf, steps, predictors := AddSymbolsOf(nts, rules, g, r, conf, steps, predictors, enders);
      StepsGrow(g, steps, r, |rules[r].rhs|);
      ListGrows(enders, steps, conf, 0 - n, h);
      ListStays(predictors, steps, conf, 0, h - n);
      steps := steps[conf := h - n];
      enders := enders[h := [conf] + enders[h]];
      NextBase(g, r);
      conf := conf + 1;
      r := r + 1;
    }
    t := Tables(starters, enders, predictors, steps);
    AllBuilt(g, rules, t, names);
  }

  /** The symbols of rule r, the dot before each of them in turn. */
  method AddSymbolsOf(nts: seq<string>, rules: seq<Numbered>, ghost g: Grammar, r: nat, conf0: nat, steps0: seq<int>,
                      predictors0: seq<seq<int>>, ghost enders: seq<seq<int>>)
    returns (conf: nat, steps: seq<int>, predictors: seq<seq<int>>)
    requires InNumbers(g, nts, rules) && GoodGrammar(g) && r < |rules| && |predictors0| == |enders| == |nts|
    requires r < |g.rules| && conf0 == Base(g, r) && StepsBuilt(g, steps0, conf0)
    requires ListBuilt(predictors0, steps0, conf0, 0) && ListBuilt(enders, steps0, conf0, 0 - |nts|)
    ensures |g.rules[r].rhs| == |rules[r].rhs| && conf == conf0 + |rules[r].rhs| && |predictors| == |nts|
    ensures StepsBuilt(g, steps, conf) && ListBuilt(predictors, steps, conf, 0)
      && ListBuilt(enders, steps, conf, 0 - |nts|)
  {
    hide Base, ListBuilt, StepsBuilt, InNumbers, GoodGrammar;
    steps, predictors, conf := steps0, predictors0, conf0;
    var l := rules[r].rhs;
    var m := 0;
    SameLength(g, nts, rules, r);
    while m < |l|
      invariant 0 <= m <= |l| && conf == conf0 + m && |predictors| == |nts|
      invariant StepsBuilt(g, steps, conf) && ListBuilt(predictors, steps, conf, 0)
        && ListBuilt(enders, steps, conf, 0 - |nts|)
    {
      var x := Ind(l[m], nts);
      SymbolNumber(g, nts, rules, r, m, x);
      StepsGrow(g, steps, r, m);
      ListGrows(predictors, steps, conf, 0, x);
      ListStays(enders, steps, conf, 0 - |nts|, x);
      steps := steps[conf := x];
      predictors := predictors[x := [conf] + predictors[x]];
      conf := conf + 1;
      m := m + 1;
    }
  }

  /** nb_confs without the tokens' items: one for each place of the dot in each rule. */
  method CountConfs(rules: seq<Numbered>, ghost g: Grammar, ghost nts: seq<string>) returns (count: nat)
    requires InNumbers(g, nts, rules)
    ensures g.n + count == Base(g, |g.rules|) && |g.rules| == |rules|
  {
    hide Base, InNumbers;
    count := 0;
    var r := 0;
    NumbersSizes(g, nts, rules);
    FirstBase(g);
    while r < |rules|
      invariant 0 <= r <= |rules| && g.n + count == Base(g, r)
    {
      SameLength(g, nts, rules, r);
      NextBase(g, r);
      count := count + |rules[r].rhs| + 1;
      r := r + 1;
    }
  }

  lemma FirstBase(g: Grammar)
    ensures Base(g, 0) == g.n
  {
  }

  lemma NextBase(g: Grammar, r: nat)
    requires r < |g.rules|
    ensures Base(g, r + 1) == Base(g, r) + |g.rules[r].rhs| + 1
  {
  }

  lemma NumbersSizes(g: Grammar, nts: seq<string>, rules: seq<Numbered>)
    requires InNumbers(g, nts, rules)
    ensures |nts| == g.n && |g.rules| == |rules|
  {
  }

  lemma SameLength(g: Grammar, nts: seq<string>, rules: seq<Numbered>, r: nat)
    requires InNumbers(g, nts, rules) && r < |rules|
    ensures |g.rules| == |rules| && |g.rules[r].rhs| == |rules[r].rhs|
  {
  }

  lemma IsIndex(nts: seq<string>, s: string, x: nat)
    requires NoTwice(nts) && s in nts && x <= |nts| && (x < |nts| <==> s in nts) && (x < |nts| ==> nts[x] == s)
    ensures x == Index(nts, s)
  {
  }

  lemma HeadNumber(g: Grammar, nts: seq<string>, rules: seq<Numbered>, r: nat, h: nat)
    requires InNumbers(g, nts, rules) && r < |rules|
    requires h <= |nts| && (h < |nts| <==> rules[r].head in nts) && (h < |nts| ==> nts[h] == rules[r].head)
    ensures |g.rules| == |rules| && h == g.rules[r].head < g.n == |nts|
  {
    IsIndex(nts, rules[r].head, h);
  }

  lemma SymbolNumber(g: Grammar, nts: seq<string>, rules: seq<Numbered>, r: nat, m: nat, x: nat)
    requires InNumbers(g, nts, rules) && r < |rules| && m < |rules[r].rhs|
    requires x <= |nts| && (x < |nts| <==> rules[r].rhs[m] in nts) && (x < |nts| ==> nts[x] == rules[r].rhs[m])
    ensures |g.rules| == |rules| && |g.rules[r].rhs| == |rules[r].rhs| && x == g.rules[r].rhs[m] < g.n == |nts|
  {
    IsIndex(nts, rules[r].rhs[m], x);
  }

  lemma StartBuilt(g: Grammar, rules: seq<Numbered>, steps: seq<int>, names: seq<Option<Name>>, enders: seq<seq<int>>,
                   starters: seq<seq<int>>, predictors: seq<seq<int>>)
    requires |steps| == |names| == Base(g, |g.rules|) && |rules| == |g.rules|
      && |enders| == |starters| == |predictors| == g.n
    requires forall c :: 0 <= c < |steps| ==> steps[c] == if c < g.n then c - g.n else 0
    requires forall c :: 0 <= c < |names| ==> names[c] == if c < g.n then Some(Name(c, 0)) else None
    requires forall x :: 0 <= x < g.n ==> enders[x] == [x] && starters[x] == [] && predictors[x] == []
    ensures Base(g, 0) == g.n && StepsBuilt(g, steps, g.n) && ListBuilt(enders, steps, g.n, 0 - g.n)
      && ListBuilt(predictors, steps, g.n, 0)
    ensures StartersBuilt(g, starters, 0) && NamesBuilt(g, rules, names, 0)
  {
    forall k: nat | k <= |g.rules| ensures Base(g, k) >= g.n {
    }
    hide Base, StepRight;
    FirstBase(g);
  }

  lemma AllBuilt(g: Grammar, rules: seq<Numbered>, t: Tables, names: seq<Option<Name>>)
    requires GoodGrammar(g) && |rules| == |g.rules|
    requires StepsBuilt(g, t.steps, Base(g, |g.rules|)) && StartersBuilt(g, t.starters, |g.rules|)
      && NamesBuilt(g, rules, names, |g.rules|)
    requires |t.enders| == |t.predictors| == g.n
    requires ListBuilt(t.enders, t.steps, Base(g, |g.rules|), 0 - g.n)
      && ListBuilt(t.predictors, t.steps, Base(g, |g.rules|), 0)
    ensures TablesOf(g, t) && NamesOf(g, names)
    ensures EndersOnce(t)
  {
    hide Base, GoodGrammar, StepsOf, StartersOf, NoRepeats;
    StepsAllBuilt(g, t.steps);
    StartersAllBuilt(g, t.starters);
    forall c | g.n <= c < |names| ensures names[c].Some? <==> exists k: nat :: k < |g.rules| && IsItem(g, c, k, 0) {
      assert BeginsBelow(g, c, |g.rules|) <==> exists k: nat :: k < |g.rules| && IsItem(g, c, k, 0);
    }
  }

  lemma StepsAllBuilt(g: Grammar, steps: seq<int>)
    requires StepsBuilt(g, steps, Base(g, |g.rules|))
    ensures StepsOf(g, steps)
  {
    hide Base;
    forall k, m {:trigger g.rules[k].rhs[m]} | 0 <= k < |g.rules| && 0 <= m < |g.rules[k].rhs|
      ensures Base(g, k) + m < |steps| && steps[Base(g, k) + m] == g.rules[k].rhs[m]
    {
      BaseBelow(g, k);
      assert StepRight(g, steps, k, m);
    }
    forall k | 0 <= k < |g.rules|
      ensures Base(g, k) + |g.rules[k].rhs| < |steps| && steps[Base(g, k) + |g.rules[k].rhs|] == g.rules[k].head - g.n
    {
      BaseBelow(g, k);
      assert StepRight(g, steps, k, |g.rules[k].rhs|);
    }
    AtLeastTokens(g);
  }

  lemma AtLeastTokens(g: Grammar)
    ensures Base(g, |g.rules|) >= g.n
  {
  }

  lemma StartersAllBuilt(g: Grammar, starters: seq<seq<int>>)
    requires StartersBuilt(g, starters, |g.rules|)
    ensures StartersOf(g, starters)
  {
    hide Base;
    forall k | 0 <= k < |g.rules| && g.rules[k].head < g.n ensures Base(g, k) in starters[g.rules[k].head] {
      assert StartsAt(g, k, g.rules[k].head, Base(g, k));
    }
    forall x, c | 0 <= x < g.n && c in starters[x] ensures IsStart(g, c, x) {
      var k: nat :| k < |g.rules| && StartsAt(g, k, x, c);
    }
  }
}
