/** The listed trees of a given grammar. */
module EarleyListing {
  // Everything is told by the definitions of the grammar as they are given.

  import opened EarleyGrammar
  import opened EarleyPrune
  import opened EarleyTrees
  import opened EarleyForest
  import opened EarleyCycles
  import opened EarleyEndless
  import opened EarleyOnce
  import opened EarleyTables
  import opened EarleyUses
  import opened EarleyDefinitions
  import opened EarleyParser
  import opened EarleyAnswers

  // ----- trees of definitions --------------------------------------------------------------------------------------

  /** A name is a symbol, by its number in nts, with the number of one of its rules. */
  ghost predicate Calls(nts: seq<string>, name: Name, s: string, n: nat) {
    name.symbol < |nts| && nts[name.symbol] == s && name.number == n
  }

  /** tree is a parse tree of the symbol over tokens i..j: a token, or one of the symbol's rules, counted
      from 1 in each definition, with parse trees of what it says. */
  ghost predicate DefTree(defs: seq<Def>, nts: seq<string>, input: seq<Token>, tree: Tree, s: string, i: nat, j: nat)
    decreases tree
  {
    match tree
    case Leaf(name, word) =>
      Calls(nts, name, s, 0) && j == i + 1 && i < |input| && s in input[i].symbols && word == input[i].word
    case Node(name, kids) =>
      exists a: nat, b: nat :: IsRule(defs, s, a, b) && Calls(nts, name, s, b + 1)
        && DefKids(defs, nts, input, kids, defs[a].rules[b], i, j)
  }

  ghost predicate DefKids(defs: seq<Def>, nts: seq<string>, input: seq<Token>, kids: seq<Tree>, ss: seq<string>,
    i: nat, j: nat)
    decreases kids
  {
    && |kids| == |ss|
    && if kids == [] then i == j
       else exists h: nat {:trigger DefTree(defs, nts, input, kids[|kids| - 1], ss[|ss| - 1], h, j)}
                          {:trigger DefKids(defs, nts, input, kids[..|kids| - 1], ss[..|ss| - 1], i, h)} ::
         i <= h <= j && DefKids(defs, nts, input, kids[..|kids| - 1], ss[..|ss| - 1], i, h)
           && DefTree(defs, nts, input, kids[|kids| - 1], ss[|ss| - 1], h, j)
  }

  /** The words are the input's, and the first item of each rule has the name of its rule. */
  ghost predicate NamesRules(defs: seq<Def>, input: seq<Token>, g: Grammar, p: Parse) {
    && |p.words| == |input| && (forall i :: 0 <= i < |input| ==> p.words[i] == input[i].word)
    && (forall a: nat, b: nat :: a < |defs| && b < |defs[a].rules| ==> NamesRule(defs, g, p, a, b))
  }

  ghost predicate NamesRule(defs: seq<Def>, g: Grammar, p: Parse, a: nat, b: nat)
    requires a < |defs| && b < |defs[a].rules|
  {
    var k := Place(defs, a) + b;
    k < |g.rules| && Base(g, k) < |p.names| && p.names[Base(g, k)] == Some(Name(g.rules[k].head, b + 1))
  }

  lemma {:induction false} TreeSame(defs: seq<Def>, nts: seq<string>, input: seq<Token>, g: Grammar, p: Parse,
    tree: Tree, x: nat, i: nat, j: nat)
    requires Numbers(defs, nts, input, g) && NamesRules(defs, input, g, p) && |p.names| == Base(g, |g.rules|)
    requires x < |nts|
    ensures SymTree(g, p, tree, x, i, j) <==> DefTree(defs, nts, input, tree, nts[x], i, j)
    decreases tree
  {
    hide Numbers, NamesRules, KidTrees, DefKids, Base;
    match tree
    case Leaf(name, word) =>
      LeafSame(defs, nts, input, g, p, name, x, i);
    case Node(name, kids) =>
      forall k: nat | Heads(g, p, k, x, name) && KidTrees(g, p, kids, g.rules[k].rhs, i, j)
        ensures DefTree(defs, nts, input, tree, nts[x], i, j)
      {
        var a, b := NamedRule(defs, nts, input, g, p, k, name);
        KidsSame(defs, nts, input, g, p, kids, g.rules[k].rhs, defs[a].rules[b], i, j);
        assert IsRule(defs, nts[x], a, b) && Calls(nts, name, nts[x], b + 1);
      }
      forall a: nat, b: nat | IsRule(defs, nts[x], a, b) && Calls(nts, name, nts[x], b + 1)
          && DefKids(defs, nts, input, kids, defs[a].rules[b], i, j)
        ensures SymTree(g, p, tree, x, i, j)
      {
        var k := RuleNamed(defs, nts, input, g, p, a, b, x, name);
        KidsSame(defs, nts, input, g, p, kids, g.rules[k].rhs, defs[a].rules[b], i, j);
      }
  }

  lemma LeafSame(defs: seq<Def>, nts: seq<string>, input: seq<Token>, g: Grammar, p: Parse, name: Name, x: nat, i: nat)
    requires Numbers(defs, nts, input, g) && NamesRules(defs, input, g, p) && x < |nts|
    ensures name == Name(x, 0) <==> Calls(nts, name, nts[x], 0)
    ensures |g.toks| == |input| == |p.words|
    ensures i < |input| ==> (x in g.toks[i] <==> nts[x] in input[i].symbols) && p.words[i] == input[i].word
  {
    hide NamesRule;
    TokenSame(defs, nts, input, g, x, i);
    if Calls(nts, name, nts[x], 0) {
      SameSymbol(defs, nts, input, g, x, name.symbol);
    }
  }

  lemma NamedRule(defs: seq<Def>, nts: seq<string>, input: seq<Token>, g: Grammar, p: Parse, k: nat, name: Name)
    returns (a: nat, b: nat)
    requires Numbers(defs, nts, input, g) && NamesRules(defs, input, g, p)
    requires k < |g.rules| && Base(g, k) < |p.names| && p.names[Base(g, k)] == Some(name)
    ensures a < |defs| && b < |defs[a].rules| && Spells(nts, g.rules[k], defs[a].head, defs[a].rules[b])
    ensures name == Name(g.rules[k].head, b + 1)
  {
    hide Base;
    a, b := RuleAt(defs, |defs|, k);
    assert RuleSpelled(g, nts, defs, a, b) && NamesRule(defs, g, p, a, b);
  }

  lemma RuleNamed(defs: seq<Def>, nts: seq<string>, input: seq<Token>, g: Grammar, p: Parse, a: nat, b: nat, x: nat,
    name: Name)
    returns (k: nat)
    requires Numbers(defs, nts, input, g) && NamesRules(defs, input, g, p) && x < |nts|
    requires IsRule(defs, nts[x], a, b) && Calls(nts, name, nts[x], b + 1)
    ensures Heads(g, p, k, x, name) && Spells(nts, g.rules[k], defs[a].head, defs[a].rules[b])
  {
    hide Base;
    k := Place(defs, a) + b;
    assert RuleSpelled(g, nts, defs, a, b) && NamesRule(defs, g, p, a, b);
    SameSymbol(defs, nts, input, g, x, g.rules[k].head);
    SameSymbol(defs, nts, input, g, x, name.symbol);
  }

  lemma {:induction false} KidsSame(defs: seq<Def>, nts: seq<string>, input: seq<Token>, g: Grammar, p: Parse,
    kids: seq<Tree>, xs: seq<nat>, ss: seq<string>, i: nat, j: nat)
    requires Numbers(defs, nts, input, g) && NamesRules(defs, input, g, p) && |p.names| == Base(g, |g.rules|)
    requires SpellsAll(nts, xs, ss)
    ensures KidTrees(g, p, kids, xs, i, j) <==> DefKids(defs, nts, input, kids, ss, i, j)
    decreases kids
  {
    hide Numbers, NamesRules, SymTree, DefTree, Base;
    if kids != [] && |kids| == |ss| {
      var n := |kids| - 1;
      forall h: nat | i <= h <= j
        ensures KidTrees(g, p, kids[..n], xs[..n], i, h) <==> DefKids(defs, nts, input, kids[..n], ss[..n], i, h)
        ensures SymTree(g, p, kids[n], xs[n], h, j) <==> DefTree(defs, nts, input, kids[n], ss[n], h, j)
      {
        KidsSame(defs, nts, input, g, p, kids[..n], xs[..n], ss[..n], i, h);
        TreeSame(defs, nts, input, g, p, kids[n], xs[n], h, j);
      }
    }
  }

  // ----- a result's trees --------------------------------------------------------------------------------------------

  lemma ResultNames(r: Result)
    requires r.Valid()
    ensures NamesRules(r.parser.defs, r.input, r.G(), r.View())
  {
    hide Parsed, NoWork, AllSetsUsed, GoodGrammar, TablesOf, EndersOnce, Mentions, NoTwice, RulesOf, RuleOf, Base,
      NamesOf, BeginsBelow;
    var defs, g := r.parser.defs, r.G();
    forall a: nat, b: nat | a < |defs| && b < |defs[a].rules| ensures NamesRule(defs, g, r.View(), a, b) {
      RuleListed(defs, a, b);
      var k := Place(defs, a) + b;
      var h := GrammarOf(defs, r.parser.nts, []);
      SameBase(h, g, k);
      assert Labelled(h, RulesOf(defs), r.parser.names, k);
    }
    InputWords(r);
  }

  lemma InputWords(r: Result)
    requires r.Valid()
    ensures |r.View().words| == |r.input| && forall i :: 0 <= i < |r.input| ==> r.View().words[i] == r.input[i].word
  {
    hide Parsed, NoWork, AllSetsUsed, Parser.Valid, NamesOf, Reads;
  }

  /** There is a parse tree of the symbol over tokens i..j with more nodes. */
  ghost predicate LargerTree(r: Result, s: string, i: nat, j: nat, size: nat) {
    exists tree :: DefTree(r.parser.defs, r.parser.nts, r.input, tree, s, i, j) && TreeSize(tree) > size
  }

  ghost predicate TreesOfAnySize(r: Result, s: string, i: nat, j: nat) {
    forall size: nat :: LargerTree(r, s, i, j, size)
  }

  lemma ResultTreeSame(r: Result, x: nat, i: nat, j: nat)
    requires r.Valid() && x < |r.parser.nts| && |r.View().names| == Base(r.G(), |r.G().rules|)
    ensures forall tree :: SymTree(r.G(), r.View(), tree, x, i, j) <==>
              DefTree(r.parser.defs, r.parser.nts, r.input, tree, r.parser.nts[x], i, j)
    ensures Endless(r.G(), r.View(), x, i, j) <==> TreesOfAnySize(r, r.parser.nts[x], i, j)
  {
    hide Result.Valid, Result.G, Result.View, SymTree, DefTree, Base, Numbers, NamesRules;
    ResultNumbers(r);
    ResultNames(r);
    forall tree ensures SymTree(r.G(), r.View(), tree, x, i, j) <==>
        DefTree(r.parser.defs, r.parser.nts, r.input, tree, r.parser.nts[x], i, j) {
      TreeSame(r.parser.defs, r.parser.nts, r.input, r.G(), r.View(), tree, x, i, j);
    }
    forall size: nat ensures HasLarger(r.G(), r.View(), x, i, j, size) <==> LargerTree(r, r.parser.nts[x], i, j, size) {
    }
  }

  /** parse->trees and parse->nb-trees, asked for a symbol over tokens i..j: they come to an end unless
      a parse of the whole input uses the symbol there and it has parse trees of any size there. Then
      the list holds its parse trees if a parse of the whole input uses it there, and else nothing,
      each once if no symbol is defined twice, and the count is the list's length. */
  lemma SymbolTrees(r: Result, x: nat, i: nat, j: nat) returns (trees: seq<Tree>)
    requires r.Valid() && x < |r.parser.nts| && i <= j <= |r.toks|
    ensures r.View().Valid() && x < |r.View().enders| && r.View().Confs(r.View().enders[x])
    ensures
      var p, l, s, defs := r.View(), r.View().enders[x], r.parser.nts[x], r.parser.defs;
      var used := UsedOver(defs, r.input, s, i, j);
      if used && TreesOfAnySize(r, s, i, j) then forall d: nat :: NeverLists(p, d, l, i, j)
      else
        && (forall d: nat :: d > |Items(p)| ==> AlwaysLists(p, d, l, i, j, trees))
        && (forall tree :: tree in trees <==> used && DefTree(defs, r.parser.nts, r.input, tree, s, i, j))
        && (HeadsDiffer(defs) ==> NoRepeats(trees))
  {
    hide Result.Valid, Result.G, Result.View, SymTree, DefTree, Base, UsedOver, Endless, TreesOfAnySize, SymbolKept,
      Items, AlwaysLists, NeverLists, CycleFree, HeadsDiffer, NoRepeats, Parse.Valid, Parse.Confs;
    trees := ResultTrees(r, x, i, j);
    ResultTreeSame(r, x, i, j);
    ResultUses(r, x, i, j);
  }

  /** The same for the goal over the whole input: all its parse trees, unless there are ones of any
      size. */
  lemma WholeTrees(r: Result) returns (trees: seq<Tree>)
    requires r.Valid() && r.parser.defs != []
    ensures r.View().Valid() && |r.View().enders| > 0 && r.View().Confs(r.View().enders[0])
    ensures
      var p, l, defs, n := r.View(), r.View().enders[0], r.parser.defs, |r.input|;
      if TreesOfAnySize(r, defs[0].head, 0, n) then forall d: nat :: NeverLists(p, d, l, 0, n)
      else
        && (forall d: nat :: d > |Items(p)| ==> AlwaysLists(p, d, l, 0, n, trees))
        && (forall tree :: tree in trees <==> DefTree(defs, r.parser.nts, r.input, tree, defs[0].head, 0, n))
        && (HeadsDiffer(defs) ==> NoRepeats(trees))
  {
    hide Result.Valid, Result.G, Result.View, SymTree, DefTree, Base, Endless, TreesOfAnySize,
      Items, AlwaysLists, NeverLists, HeadsDiffer, NoRepeats, Parse.Valid, Parse.Confs;
    ResultSymbols(r);
    trees := GoalTrees(r);
    ResultTreeSame(r, 0, 0, |r.toks|);
  }
}
