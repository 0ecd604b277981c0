/**
 * The right-to-left Earley chart parser (`Earley`) that keeps every
 * derivation tree. The chart has one item set per input position; the set
 * at `pos` is seeded (at the right end, with the wrapper item for `START`;
 * elsewhere by scanning the terminal `input[pos]` into the set at `pos + 1`)
 * and then closed under prediction and completion with a worklist, with a
 * side table of zero-width completions and a cap on the size of the set.
 */
module Earley {
  import opened Grammar
  import opened ParseTree
  import opened EarleyItem
  import opened Derivations

  /** The wrapper nonterminal whose single production is the grammar's start symbol. */
  const START: string := "Start"

  /** A position's set stops growing once it holds more items than this. */
  const EXPANSION_LIMIT: nat := 100

  // ---------------------------------------------------------------------
  // What the parser computes

  /**
   * The caller's obligations: a built grammar whose start symbol is not the
   * wrapper name and none of whose productions uses it.
   */
  ghost predicate Parsable(g: Cfg)
  {
    && g.WellFormed() && g.lhss != []
    && g.Start() != START
    && forall nt, rhs :: nt in g.productions && rhs in g.productions[nt] ==> START !in rhs
  }

  /**
   * What an item in the set at `p` stands for: the trees right of the dot
   * are derivations of the symbols they stand for, together spelling
   * `input[p..finish]`; the production is one of the grammar's or the
   * wrapper's.
   */
  ghost predicate ItemOK(g: Cfg, input: seq<string>, p: nat, it: Item)
  {
    && it.Valid()
    && p <= it.finish <= |input|
    && (forall i :: 0 <= i < |it.parsed| ==> it.parsed[i].sym == it.rhs[it.pos + i] && Derivation(g, it.parsed[i]))
    && LeavesOf(it.parsed) == input[p..it.finish]
    && if it.nt == START then g.lhss != [] && it.rhs == [g.Start()] && it.finish == |input|
       else it.nt in g.productions && it.rhs in g.productions[it.nt]
  }

  /** The set an item finishing at `e` completes into, while the set at `p` is `state`. */
  function Source(states: seq<set<Item>>, p: nat, state: set<Item>, e: nat): set<Item>
  {
    if e == p then state else if e < |states| then states[e] else {}
  }

  /**
   * The set at `p` is closed under completion and prediction, except for
   * consequences still waiting in `queue`.
   */
  ghost predicate ClosedUpTo(g: Cfg, states: seq<set<Item>>, p: nat, state: set<Item>, queue: seq<Item>)
  {
    && (forall w, prev ::
          w in state && w.Valid() && w.Finished() && prev in Source(states, p, state, w.finish) &&
          prev.Valid() && prev.Match(w.nt) ==>
            prev.Advance(w.Complete()) in state || prev.Advance(w.Complete()) in queue)
    && (forall x, rhs ::
          x in state && x.Valid() && !x.Finished() && x.Current() in g.productions &&
          rhs in g.productions[x.Current()] ==>
            Fresh(x.Current(), rhs, p) in state || Fresh(x.Current(), rhs, p) in queue)
  }

  /** Completion: `it` is `prev` advanced over the node of the finished item `w`. */
  predicate Completes(w: Item, prev: Item, it: Item)
  {
    w.Valid() && w.Finished() && prev.Valid() && prev.Match(w.nt) && it == prev.Advance(w.Complete())
  }

  /** Prediction: `it` is the fresh item at `p` for a production of `x`'s next symbol. */
  predicate Predicts(g: Cfg, p: nat, x: Item, rhs: seq<string>, it: Item)
  {
    x.Valid() && !x.Finished() && x.Current() in g.productions && rhs in g.productions[x.Current()] &&
    it == Fresh(x.Current(), rhs, p)
  }

  /**
   * The closure at `p` of `seeds`, given the sets to its right (`later[i]`
   * is the set at `p + 1 + i`): the seeds, every completion of a reached
   * finished item into the item waiting for it (reached too when the
   * finished item is zero-width, else in the set where it finishes), and
   * every prediction from a reached item. A set the worklist builds holds
   * only reached items, whether or not it is cut.
   */
  least predicate Reach(g: Cfg, later: seq<set<Item>>, p: nat, seeds: set<Item>, it: Item)
  {
    || it in seeds
    || (exists w, prev :: Completes(w, prev, it) && Reach(g, later, p, seeds, w) &&
          if w.finish == p then Reach(g, later, p, seeds, prev)
          else p < w.finish <= p + |later| && prev in later[w.finish - p - 1])
    || (exists x, rhs :: Predicts(g, p, x, rhs, it) && Reach(g, later, p, seeds, x))
  }

  /** `it` is one step of the closure at `p` from the items of `state` and the sets to the right. */
  ghost predicate Derived(g: Cfg, states: seq<set<Item>>, p: nat, state: set<Item>, it: Item)
  {
    || (exists w, prev :: w in state && p <= w.finish && prev in Source(states, p, state, w.finish) && Completes(w, prev, it))
    || (exists x, rhs :: x in state && Predicts(g, p, x, rhs, it))
  }

  /**
   * What the worklist at `q` starts from: the wrapper item at the right end;
   * elsewhere the items of the set at `q + 1` scanned over the terminal
   * `input[q]`, or nothing when `input[q]` is a nonterminal.
   */
  function Seeds(g: Cfg, input: seq<string>, states: seq<set<Item>>, q: nat): set<Item>
    requires g.lhss != []
  {
    if q == |input| then {Seed(g, q)}
    else if q < |input| && q + 1 < |states| && !g.IsNonTerminal(input[q]) then Scanned(states[q + 1], input[q])
    else {}
  }

  /** Every item of the chart is reached by the closure of its position's seeds. */
  ghost predicate Grounded(g: Cfg, input: seq<string>, states: seq<set<Item>>, from: nat)
    requires g.lhss != []
  {
    forall q, it :: from <= q < |states| && it in states[q] ==> Reach(g, states[q + 1..], q, Seeds(g, input, states, q), it)
  }

  /** The wrapper item the set at the right end is seeded with. */
  function Seed(g: Cfg, n: nat): (it: Item)
    requires g.lhss != []
    ensures it.Valid() && !it.Finished()
  {
    Fresh(START, [g.Start()], n)
  }

  /** The items scanning terminal `sym` produces from the set to its right. */
  function Scanned(next: set<Item>, sym: string): set<Item>
  {
    set it | it in next && it.Valid() && it.Match(sym) :: it.Advance(Terminal(sym))
  }

  /**
   * The sets from position `from` to the right end are as a chart nothing
   * was cut from has them: the seed is at the right end, each terminal of
   * the input is scanned, and every set is closed.
   */
  ghost predicate SuffixComplete(g: Cfg, input: seq<string>, states: seq<set<Item>>, from: nat)
    requires g.lhss != [] && |states| == |input| + 1
  {
    && (from <= |input| ==> Seed(g, |input|) in states[|input|])
    && (forall q :: from <= q < |input| && !g.IsNonTerminal(input[q]) ==> Scanned(states[q + 1], input[q]) <= states[q])
    && forall q :: from <= q <= |input| ==> ClosedUpTo(g, states, q, states[q], [])
  }

  /** A chart nothing was cut from. */
  ghost predicate ChartComplete(g: Cfg, input: seq<string>, states: seq<set<Item>>)
    requires g.lhss != []
  {
    |states| == |input| + 1 && SuffixComplete(g, input, states, 0)
  }

  /** Every item of the sets from position `from` on stands for what `ItemOK` says. */
  ghost predicate ItemsOK(g: Cfg, input: seq<string>, states: seq<set<Item>>, from: nat)
  {
    forall q, it :: from <= q < |states| && it in states[q] ==> ItemOK(g, input, q, it)
  }

  /** A chart item the results are read from: a finished wrapper item at position 0. */
  predicate IsResultItem(it: Item)
  {
    it.FinishedAt(START) && |it.parsed| == 1 && it.parsed[0].NonTerminal?
  }

  /** A tree the parser may return: a derivation of the whole input from the start symbol. */
  ghost predicate ResultTree(g: Cfg, input: seq<string>, t: Tree)
    requires g.lhss != []
  {
    t.sym == g.Start() && Derivation(g, t) && Leaves(t) == input
  }

  /** What a finished wrapper item at position 0 is known to be. */
  ghost predicate ResultItemOK(g: Cfg, input: seq<string>, it: Item)
    requires g.lhss != []
  {
    IsResultItem(it) && it.rhs == [g.Start()] && it.finish == |input| && ResultTree(g, input, it.CompleteTop())
  }

  // ---------------------------------------------------------------------
  // Each step keeps items meaningful

  lemma {:induction false} LeavesOfCons(t: Tree, ts: seq<Tree>)
    ensures LeavesOf([t] + ts) == Leaves(t) + LeavesOf(ts)
  {
    assert ([t] + ts)[1..] == ts;
  }

  /** The seed stands for the empty suffix. */
  lemma SeedOK(g: Cfg, input: seq<string>)
    requires g.lhss != []
    ensures ItemOK(g, input, |input|, Seed(g, |input|))
  {
  }

  /** Scanning a terminal extends an item one symbol to the left. */
  lemma ScanOK(g: Cfg, input: seq<string>, p: nat, it: Item)
    requires p < |input| && !g.IsNonTerminal(input[p])
    requires ItemOK(g, input, p + 1, it) && it.Match(input[p])
    ensures ItemOK(g, input, p, it.Advance(Terminal(input[p])))
  {
    assert input[p..p + 1] == [input[p]];
    AdvanceOK(g, input, p, p + 1, Terminal(input[p]), it);
  }

  /** Advancing an item that ends at `e` over a derivation tree for `input[p..e]` extends it to `p`. */
  lemma AdvanceOK(g: Cfg, input: seq<string>, p: nat, e: nat, t: Tree, it: Item)
    requires p <= e <= |input| && Derivation(g, t) && Leaves(t) == input[p..e]
    requires ItemOK(g, input, e, it) && it.Match(t.sym)
    ensures ItemOK(g, input, p, it.Advance(t))
  {
    var adv := it.Advance(t);
    LeavesOfCons(t, it.parsed);
    SliceSplit(input, p, e, it.finish);
    forall i | 0 <= i < |adv.parsed|
      ensures adv.parsed[i].sym == adv.rhs[adv.pos + i] && Derivation(g, adv.parsed[i])
    {
      if i > 0 {
        assert adv.parsed[i] == it.parsed[i - 1];
      }
    }
  }

  lemma SliceSplit(input: seq<string>, a: nat, b: nat, c: nat)
    requires a <= b <= c <= |input|
    ensures input[a..c] == input[a..b] + input[b..c]
  {
  }

  /** Predicting a production gives an item that stands for the empty span. */
  lemma PredictOK(g: Cfg, input: seq<string>, p: nat, nt: string, rhs: seq<string>)
    requires p <= |input| && nt != START && nt in g.productions && rhs in g.productions[nt]
    ensures ItemOK(g, input, p, Fresh(nt, rhs, p))
  {
  }

  /** Only a grammar nonterminal can be matched by a completed item. */
  lemma MatchedIsNonTerminal(g: Cfg, input: seq<string>, q: nat, prev: Item, sym: string)
    requires Parsable(g) && ItemOK(g, input, q, prev) && prev.Match(sym)
    requires sym == START || sym in g.productions
    ensures sym != START
  {
    assert sym in prev.rhs;
  }

  /**
   * Completing: a finished item for the span `p..e` turns into a derivation
   * tree, and advancing over it an item ending at `e` extends that item to `p`.
   */
  lemma CompleteOK(g: Cfg, input: seq<string>, p: nat, w: Item, prev: Item)
    requires Parsable(g)
    requires ItemOK(g, input, p, w) && w.Finished()
    requires ItemOK(g, input, w.finish, prev) && prev.Match(w.nt)
    ensures Derivation(g, w.Complete()) && Leaves(w.Complete()) == input[p..w.finish]
    ensures ItemOK(g, input, p, prev.Advance(w.Complete()))
  {
    MatchedIsNonTerminal(g, input, w.finish, prev, w.nt);
    assert Labels(w.parsed) == w.rhs;
    AdvanceOK(g, input, p, w.finish, w.Complete(), prev);
  }

  /** A finished wrapper item at position 0 holds one derivation of the whole input from the start symbol. */
  lemma ResultOK(g: Cfg, input: seq<string>, it: Item)
    requires Parsable(g) && ItemOK(g, input, 0, it) && it.FinishedAt(START)
    ensures ResultItemOK(g, input, it)
  {
    var t := it.parsed[0];
    assert t.sym == g.Start() && g.Start() in g.productions;
    LeavesOfCons(t, []);
    assert [t] + [] == it.parsed;
    assert input[0..it.finish] == input;
  }

  /** Distinct result items give distinct trees: a result item is determined by its tree. */
  lemma ResultItemsInjective(g: Cfg, input: seq<string>, a: Item, b: Item)
    requires g.lhss != [] && ResultItemOK(g, input, a) && ResultItemOK(g, input, b)
    requires a.CompleteTop() == b.CompleteTop()
    ensures a == b
  {
    assert a.parsed == [a.parsed[0]] && b.parsed == [b.parsed[0]];
  }

  /** Closedness of a set depends on the other sets only through the sets its finished items complete into. */
  lemma ClosedUpToSources(g: Cfg, s1: seq<set<Item>>, s2: seq<set<Item>>, p: nat, state: set<Item>, queue: seq<Item>)
    requires forall w :: w in state ==> Source(s1, p, state, w.finish) == Source(s2, p, state, w.finish)
    requires ClosedUpTo(g, s1, p, state, queue)
    ensures ClosedUpTo(g, s2, p, state, queue)
  {
  }

  // ---------------------------------------------------------------------
  // A complete chart holds every derivation

  lemma LeavesOfFrom(cs: seq<Tree>, k: nat)
    requires k < |cs|
    ensures LeavesOf(cs[k..]) == Leaves(cs[k]) + LeavesOf(cs[k + 1..])
  {
    assert cs[k..][1..] == cs[k + 1..];
  }

  /**
   * Within a node `nt -> cs` ending at `e` whose predictor `prev` is in the
   * set at `e`, the item that has recognised the children from `k` on is in
   * the set where their leaves begin.
   */
  lemma {:induction false} ChildrenInChart(g: Cfg, input: seq<string>, states: seq<set<Item>>, t: Tree, e: nat, prev: Item, k: nat)
    requires g.lhss != [] && ChartComplete(g, input, states)
    requires t.NonTerminal? && Derivation(g, t) && e <= |input|
    requires prev in states[e] && prev.Valid() && prev.Match(t.sym)
    requires k <= |t.children|
    requires |LeavesOf(t.children[k..])| <= e && input[e - |LeavesOf(t.children[k..])|..e] == LeavesOf(t.children[k..])
    ensures Item(t.sym, t.children[k..], Labels(t.children), k, e) in states[e - |LeavesOf(t.children[k..])|]
    decreases t, 0, |t.children| - k
  {
    var cs := t.children;
    if k == |cs| {
      assert cs[k..] == [];
      PredictedInChart(g, input, states, e, prev, Labels(cs));
    } else {
      ChildSpan(input, e, cs, k);
      ChildrenInChart(g, input, states, t, e, prev, k + 1);
      ChildStep(g, input, states, t, e, k);
    }
  }

  /** The leaves of children `k..` ending at `e`: those of child `k`, then those of the children after it. */
  lemma ChildSpan(input: seq<string>, e: nat, cs: seq<Tree>, k: nat)
    requires k < |cs| && |LeavesOf(cs[k..])| <= e <= |input|
    requires input[e - |LeavesOf(cs[k..])|..e] == LeavesOf(cs[k..])
    ensures |LeavesOf(cs[k + 1..])| <= |LeavesOf(cs[k..])|
    ensures input[e - |LeavesOf(cs[k + 1..])|..e] == LeavesOf(cs[k + 1..])
    ensures input[e - |LeavesOf(cs[k..])|..e - |LeavesOf(cs[k + 1..])|] == Leaves(cs[k])
  {
    LeavesOfFrom(cs, k);
    SplitSlice(input, e, LeavesOf(cs[k..]), Leaves(cs[k]), LeavesOf(cs[k + 1..]));
  }

  /** In a complete chart, the item predicted for each production of the nonterminal `prev` waits for. */
  lemma PredictedInChart(g: Cfg, input: seq<string>, states: seq<set<Item>>, e: nat, prev: Item, rhs: seq<string>)
    requires g.lhss != [] && ChartComplete(g, input, states) && e <= |input|
    requires prev in states[e] && prev.Valid() && !prev.Finished()
    requires prev.Current() in g.productions && rhs in g.productions[prev.Current()]
    ensures Fresh(prev.Current(), rhs, e) in states[e]
  {
    assert ClosedUpTo(g, states, e, states[e], []);
  }

  /** One child more: the item that has recognised the children from `k + 1` on is advanced over child `k`. */
  lemma {:induction false} ChildStep(g: Cfg, input: seq<string>, states: seq<set<Item>>, t: Tree, e: nat, k: nat)
    requires g.lhss != [] && ChartComplete(g, input, states)
    requires t.NonTerminal? && Derivation(g, t) && e <= |input| && k < |t.children|
    requires |LeavesOf(t.children[k..])| <= e && input[e - |LeavesOf(t.children[k..])|..e] == LeavesOf(t.children[k..])
    requires Item(t.sym, t.children[k + 1..], Labels(t.children), k + 1, e) in states[e - |LeavesOf(t.children[k + 1..])|]
    ensures Item(t.sym, t.children[k..], Labels(t.children), k, e) in states[e - |LeavesOf(t.children[k..])|]
    decreases t, 0, 0
  {
    ChildSpan(input, e, t.children, k);
    var x, j := e - |LeavesOf(t.children[k..])|, e - |LeavesOf(t.children[k + 1..])|;
    ChildItem(t, k, e);
    var next := Item(t.sym, t.children[k + 1..], Labels(t.children), k + 1, e);
    assert next in states[j] && next.Valid() && next.Match(t.children[k].sym);
    assert Leaves(t.children[k]) == input[x..j];
    assert Derivation(g, t.children[k]);
    ChildInChart(g, input, states, t.children[k], x, j, next);
  }

  /** A derivation tree for `input[x..j]` whose label the item `next` in the set at `j` is waiting for. */
  lemma {:induction false} ChildInChart(g: Cfg, input: seq<string>, states: seq<set<Item>>, c: Tree, x: nat, j: nat, next: Item)
    requires g.lhss != [] && ChartComplete(g, input, states)
    requires Derivation(g, c) && x <= j <= |input| && Leaves(c) == input[x..j]
    requires next in states[j] && next.Valid() && next.Match(c.sym)
    ensures next.Advance(c) in states[x]
    decreases c, 2, 0
  {
    if c.Terminal? {
      LeafInChart(g, input, states, x, j, c.sym, next);
    } else {
      NodeInChart(g, input, states, c, x, j, next);
    }
  }

  /** A leaf for `input[x..j]` whose symbol the item `next` in the set at `j` is waiting for. */
  lemma LeafInChart(g: Cfg, input: seq<string>, states: seq<set<Item>>, x: nat, j: nat, s: string, next: Item)
    requires g.lhss != [] && ChartComplete(g, input, states)
    requires x <= j <= |input| && input[x..j] == [s] && !g.IsNonTerminal(s)
    requires next in states[j] && next.Valid() && next.Match(s)
    ensures next.Advance(Terminal(s)) in states[x]
  {
    OneSymbolSlice(input, x, j, s);
    ScannedInChart(g, input, states, x, next);
  }

  /** In a complete chart, an item at `x + 1` waiting for the terminal `input[x]` is scanned into the set at `x`. */
  lemma ScannedInChart(g: Cfg, input: seq<string>, states: seq<set<Item>>, x: nat, next: Item)
    requires g.lhss != [] && ChartComplete(g, input, states)
    requires x < |input| && !g.IsNonTerminal(input[x])
    requires next in states[x + 1] && next.Valid() && next.Match(input[x])
    ensures next.Advance(Terminal(input[x])) in states[x]
  {
    assert next.Advance(Terminal(input[x])) in Scanned(states[x + 1], input[x]);
  }

  /** The item for a node's children from `k + 1` on, advanced over child `k`. */
  lemma ChildItem(t: Tree, k: nat, e: nat)
    requires t.NonTerminal? && k < |t.children|
    ensures Item(t.sym, t.children[k + 1..], Labels(t.children), k + 1, e).Valid()
    ensures Item(t.sym, t.children[k + 1..], Labels(t.children), k + 1, e).Match(t.children[k].sym)
    ensures Item(t.sym, t.children[k + 1..], Labels(t.children), k + 1, e).Advance(t.children[k]) ==
      Item(t.sym, t.children[k..], Labels(t.children), k, e)
  {
    assert [t.children[k]] + t.children[k + 1..] == t.children[k..];
  }

  /** The slice of `input` ending at `e` that spells `left + right`, cut in two. */
  lemma SplitSlice(input: seq<string>, e: nat, whole: seq<string>, left: seq<string>, right: seq<string>)
    requires whole == left + right
    requires |whole| <= e <= |input| && input[e - |whole|..e] == whole
    ensures input[e - |whole|..e - |right|] == left
    ensures input[e - |right|..e] == right
  {
    var x := e - |whole|;
    assert input[x..e - |right|] == input[x..e][..|left|];
    assert input[e - |right|..e] == input[x..e][|left|..];
  }

  lemma OneSymbolSlice(input: seq<string>, x: nat, j: nat, s: string)
    requires x <= j <= |input| && input[x..j] == [s]
    ensures j == x + 1 && input[x] == s
  {
    assert input[x..j][0] == input[x];
  }

  /**
   * A derivation tree for `input[p..e]` whose label the item `prev` in the
   * set at `e` is waiting for: `prev` advanced over it is in the set at `p`.
   */
  lemma {:induction false} NodeInChart(g: Cfg, input: seq<string>, states: seq<set<Item>>, t: Tree, p: nat, e: nat, prev: Item)
    requires g.lhss != [] && ChartComplete(g, input, states)
    requires t.NonTerminal? && Derivation(g, t) && p <= e <= |input| && Leaves(t) == input[p..e]
    requires prev in states[e] && prev.Valid() && prev.Match(t.sym)
    ensures prev.Advance(t) in states[p]
    decreases t, 1, 0
  {
    assert t.children[0..] == t.children;
    ChildrenInChart(g, input, states, t, e, prev, 0);
    var w := Item(t.sym, t.children, Labels(t.children), 0, e);
    assert w in states[p] && w.Valid() && w.Finished() && w.Complete() == t;
    assert prev in Source(states, p, states[p], w.finish);
  }

  /** A complete chart holds, at position 0, the wrapper item finished over every derivation of the input. */
  lemma EveryDerivationInChart(g: Cfg, input: seq<string>, states: seq<set<Item>>, t: Tree)
    requires Parsable(g) && ChartComplete(g, input, states) && ResultTree(g, input, t)
    ensures Seed(g, |input|).Advance(t) in states[0] && IsResultItem(Seed(g, |input|).Advance(t))
  {
    assert input[0..|input|] == input;
    NodeInChart(g, input, states, t, 0, |input|, Seed(g, |input|));
  }

  /** Read off a complete chart, the results hold every derivation of the input. */
  lemma ResultsComplete(g: Cfg, input: seq<string>, states: seq<set<Item>>, results: seq<Tree>)
    requires Parsable(g) && ChartComplete(g, input, states)
    requires (set t | t in results) == set it | it in states[0] && IsResultItem(it) :: it.CompleteTop()
    ensures forall t :: ResultTree(g, input, t) ==> t in results
  {
    var found := set it | it in states[0] && IsResultItem(it) :: it.CompleteTop();
    forall t | ResultTree(g, input, t) ensures t in results {
      EveryDerivationInChart(g, input, states, t);
      var it := Seed(g, |input|).Advance(t);
      assert it in states[0] && IsResultItem(it) && it.CompleteTop() == t;
      assert t in found;
    }
  }

  // ---------------------------------------------------------------------
  // The parser

  /**
   * The loop that advances every item of `source` whose next symbol is
   * `sym` over the tree `t` (a completed node, or a scanned leaf).
   */
  method AdvanceMatching(source: set<Item>, sym: string, t: Tree) returns (adv: seq<Item>)
    requires forall it :: it in source ==> it.Valid()
    ensures forall prev :: prev in source && prev.Match(sym) ==> prev.Advance(t) in adv
    ensures forall x :: x in adv ==> exists prev :: prev in source && prev.Match(sym) && x == prev.Advance(t)
    ensures source == {} ==> adv == []
  {
    adv := [];
    var todo := source;
    while todo != {}
      invariant todo <= source
      invariant source == {} ==> adv == []
      invariant forall prev :: prev in source - todo && prev.Match(sym) ==> prev.Advance(t) in adv
      invariant forall x :: x in adv ==> exists prev :: prev in source && prev.Match(sym) && x == prev.Advance(t)
    {
      var prev :| prev in todo;
      if prev.Match(sym) {
        adv := adv + [prev.Advance(t)];
      }
      todo := todo - {prev};
    }
  }

  /** Prediction: one predicted item per production of `nt`, finishing at `p`. */
  method FreshItems(nt: string, rhss: seq<seq<string>>, p: nat) returns (predicted: seq<Item>)
    ensures forall rhs :: rhs in rhss ==> Fresh(nt, rhs, p) in predicted
    ensures forall x :: x in predicted ==> exists rhs :: rhs in rhss && x == Fresh(nt, rhs, p)
  {
    predicted := [];
    for i := 0 to |rhss|
      invariant forall j :: 0 <= j < i ==> Fresh(nt, rhss[j], p) in predicted
      invariant forall x :: x in predicted ==> exists rhs :: rhs in rhss && x == Fresh(nt, rhs, p)
    {
      predicted := predicted + [Fresh(nt, rhss[i], p)];
    }
  }

  /** The zero-width completions of `sym` applied to a newly predicted item. */
  method AdvanceWithEmpties(item: Item, empties: set<Tree>, sym: string) returns (adv: seq<Item>)
    requires item.Valid() && !item.Finished()
    ensures forall t :: t in empties && t.sym == sym ==> item.Advance(t) in adv
    ensures forall x :: x in adv ==> exists t :: t in empties && t.sym == sym && x == item.Advance(t)
  {
    adv := [];
    var todo := empties;
    while todo != {}
      invariant todo <= empties
      invariant forall t :: t in empties - todo && t.sym == sym ==> item.Advance(t) in adv
      invariant forall x :: x in adv ==> exists t :: t in empties && t.sym == sym && x == item.Advance(t)
    {
      var t :| t in todo;
      if t.sym == sym {
        adv := adv + [item.Advance(t)];
      }
      todo := todo - {t};
    }
  }

  /** Taking an item already in the set off the queue keeps the set closed. */
  lemma ClosedAfterSkip(g: Cfg, states: seq<set<Item>>, p: nat, state: set<Item>, queue: seq<Item>)
    requires queue != [] && queue[0] in state && ClosedUpTo(g, states, p, state, queue)
    ensures ClosedUpTo(g, states, p, state, queue[1..])
  {
    assert forall x :: x in queue ==> x == queue[0] || x in queue[1..];
  }

  /**
   * Adding the item at the head of the queue keeps the set closed once the
   * consequences the new item has are queued: its completions when it is
   * finished, and otherwise its predictions and its advances over the
   * zero-width completions already in the set.
   */
  lemma ClosedAfterAdd(g: Cfg, states: seq<set<Item>>, p: nat, state: set<Item>, queue: seq<Item>, adds: seq<Item>)
    requires queue != [] && queue[0] !in state && queue[0].Valid()
    requires ClosedUpTo(g, states, p, state, queue)
    requires queue[0].Finished() ==>
      forall prev :: prev in Source(states, p, state + {queue[0]}, queue[0].finish) && prev.Valid() && prev.Match(queue[0].nt) ==>
        prev.Advance(queue[0].Complete()) in adds
    requires !queue[0].Finished() && queue[0].Current() in g.productions ==>
      forall rhs :: rhs in g.productions[queue[0].Current()] ==> Fresh(queue[0].Current(), rhs, p) in adds
    requires !queue[0].Finished() ==>
      forall w :: w in state && w.Valid() && w.Finished() && w.finish == p && queue[0].Match(w.nt) ==>
        queue[0].Advance(w.Complete()) in adds
    ensures ClosedUpTo(g, states, p, state + {queue[0]}, queue[1..] + adds)
  {
    var item := queue[0];
    var state' := state + {item};
    var queue' := queue[1..] + adds;
    assert forall x :: x in queue ==> x == item || x in queue';
    assert forall x :: x in adds ==> x in queue';
    forall w, prev |
      w in state' && w.Valid() && w.Finished() && prev in Source(states, p, state', w.finish) &&
      prev.Valid() && prev.Match(w.nt)
      ensures prev.Advance(w.Complete()) in state' || prev.Advance(w.Complete()) in queue'
    {
      if w != item && prev != item {
        assert prev in Source(states, p, state, w.finish);
      }
    }
  }

  /** The trees of the zero-width items finished at `p`: the source's `empties` set. */
  function Empties(state: set<Item>, p: nat): set<Tree>
  {
    set w | w in state && w.Valid() && w.Finished() && w.finish == p :: w.Complete()
  }

  lemma EmptiesAdd(state: set<Item>, p: nat, item: Item)
    ensures Empties(state + {item}, p) ==
      if item.Valid() && item.Finished() && item.finish == p then Empties(state, p) + {item.Complete()} else Empties(state, p)
  {
  }

  /** A step of the closure from reached items reaches its result. */
  lemma DerivedReached(g: Cfg, states: seq<set<Item>>, p: nat, state: set<Item>, seeds: set<Item>, it: Item)
    requires p < |states|
    requires forall x :: x in state ==> Reach(g, states[p + 1..], p, seeds, x)
    requires Derived(g, states, p, state, it)
    ensures Reach(g, states[p + 1..], p, seeds, it)
  {
    var later := states[p + 1..];
    if exists w, prev :: w in state && p <= w.finish && prev in Source(states, p, state, w.finish) && Completes(w, prev, it) {
      var w, prev :| w in state && p <= w.finish && prev in Source(states, p, state, w.finish) && Completes(w, prev, it);
      if w.finish != p {
        assert later[w.finish - p - 1] == states[w.finish];
      }
    }
  }

  /**
   * The worklist loop that builds the set at `p` from the items in `queue0`:
   * an item not yet in the set is added and expanded, completing into the
   * set where it finishes or predicting its next nonterminal. The loop stops
   * early, reporting truncation, once the set holds more than
   * `EXPANSION_LIMIT` items.
   */
  method Close(g: Cfg, input: seq<string>, states: seq<set<Item>>, p: nat, queue0: seq<Item>)
    returns (state: set<Item>, truncated: bool)
    requires Parsable(g)
    requires |states| == |input| + 1 && p <= |input|
    requires forall q, it :: p < q <= |input| && it in states[q] ==> ItemOK(g, input, q, it)
    requires forall it :: it in queue0 ==> ItemOK(g, input, p, it)
    ensures |state| <= EXPANSION_LIMIT + 1
    ensures forall it :: it in state ==> ItemOK(g, input, p, it)
    ensures truncated ==> |state| == EXPANSION_LIMIT + 1
    ensures !truncated ==> ClosedUpTo(g, states, p, state, []) && forall it :: it in queue0 ==> it in state
    ensures queue0 == [] ==> state == {} && !truncated
    ensures forall it :: it in state ==> Reach(g, states[p + 1..], p, (set x | x in queue0), it)
  {
    state := {};
    truncated := false;
    var empties: set<Tree> := {};
    var queue := queue0;
    ghost var seeds := set x | x in queue0;
    while queue != []
      invariant |state| <= EXPANSION_LIMIT + 1
      invariant Building(g, input, states, p, seeds, state, queue, empties)
      invariant forall it :: it in queue0 ==> it in state || it in queue
      invariant queue0 == [] ==> state == {}
      decreases EXPANSION_LIMIT + 1 - |state|, |queue|
    {
      if |state| > EXPANSION_LIMIT {
        truncated := true;
        break;
      }
      state, queue, empties := CloseStep(g, input, states, p, seeds, state, queue, empties);
    }
  }

  /** An item of the set at `p` as the worklist loop keeps it: meaningful, and reached from the seeds. */
  ghost predicate Good(g: Cfg, input: seq<string>, states: seq<set<Item>>, p: nat, seeds: set<Item>, it: Item)
    requires p < |states|
  {
    ItemOK(g, input, p, it) && Reach(g, states[p + 1..], p, seeds, it)
  }

  /**
   * What the worklist loop at `p` keeps: every item in the set and in the
   * queue is good, `empties` records the set's zero-width completions, and
   * the set is closed up to the queue.
   */
  ghost predicate Building(g: Cfg, input: seq<string>, states: seq<set<Item>>, p: nat, seeds: set<Item>,
                           state: set<Item>, queue: seq<Item>, empties: set<Tree>)
    requires p < |states|
  {
    && (forall it :: it in state ==> Good(g, input, states, p, seeds, it))
    && (forall it :: it in queue ==> Good(g, input, states, p, seeds, it))
    && empties == Empties(state, p)
    && ClosedUpTo(g, states, p, state, queue)
  }

  /**
   * One turn of the worklist loop: the item at the head of the queue is
   * taken off, and, when it is new, added to the set and expanded.
   */
  method CloseStep(g: Cfg, input: seq<string>, states: seq<set<Item>>, p: nat, ghost seeds: set<Item>,
                   state: set<Item>, queue: seq<Item>, empties: set<Tree>)
    returns (state': set<Item>, queue': seq<Item>, empties': set<Tree>)
    requires Parsable(g)
    requires |states| == |input| + 1 && p <= |input|
    requires forall q, it :: p < q <= |input| && it in states[q] ==> ItemOK(g, input, q, it)
    requires queue != [] && Building(g, input, states, p, seeds, state, queue, empties)
    ensures Building(g, input, states, p, seeds, state', queue', empties')
    ensures state <= state' && forall it :: it in queue ==> it in state' || it in queue'
    ensures (state' == state && queue' == queue[1..]) || |state'| == |state| + 1
  {
    var item := queue[0];
    assert item in queue && Good(g, input, states, p, seeds, item);
    if item in state {
      BuildingSkip(g, input, states, p, seeds, state, queue, empties);
      state', queue', empties' := state, queue[1..], empties;
    } else {
      var adds := Expand(g, input, states, p, state, empties, item);
      state' := state + {item};
      queue' := queue[1..] + adds;
      empties' := if item.Finished() && item.finish == p then empties + {item.Complete()} else empties;
      AddsGood(g, input, states, p, seeds, state, item, adds);
      BuildingAdd(g, input, states, p, seeds, state, queue, empties, adds, empties');
    }
  }

  /** Taking an item already in the set off the queue keeps the loop's state. */
  lemma BuildingSkip(g: Cfg, input: seq<string>, states: seq<set<Item>>, p: nat, seeds: set<Item>,
                     state: set<Item>, queue: seq<Item>, empties: set<Tree>)
    requires p < |states|
    requires queue != [] && queue[0] in state && Building(g, input, states, p, seeds, state, queue, empties)
    ensures Building(g, input, states, p, seeds, state, queue[1..], empties)
    ensures forall it :: it in queue ==> it in state || it in queue[1..]
  {
    ClosedAfterSkip(g, states, p, state, queue);
    assert forall x :: x in queue ==> x == queue[0] || x in queue[1..];
  }

  /** The expansion of a good item, from a set of good items, is good. */
  lemma AddsGood(g: Cfg, input: seq<string>, states: seq<set<Item>>, p: nat, seeds: set<Item>,
                 state: set<Item>, item: Item, adds: seq<Item>)
    requires p < |states|
    requires forall it :: it in state ==> Good(g, input, states, p, seeds, it)
    requires Good(g, input, states, p, seeds, item)
    requires forall x :: x in adds ==> ItemOK(g, input, p, x) && Derived(g, states, p, state + {item}, x)
    ensures forall x :: x in adds ==> Good(g, input, states, p, seeds, x)
  {
    forall x | x in adds ensures Reach(g, states[p + 1..], p, seeds, x) {
      DerivedReached(g, states, p, state + {item}, seeds, x);
    }
  }

  /** Adding the new item at the head of the queue, and queuing its good expansion, keeps the loop's state. */
  lemma BuildingAdd(g: Cfg, input: seq<string>, states: seq<set<Item>>, p: nat, seeds: set<Item>,
                    state: set<Item>, queue: seq<Item>, empties: set<Tree>, adds: seq<Item>, empties': set<Tree>)
    requires p < |states|
    requires queue != [] && queue[0] !in state && queue[0].Valid()
    requires Building(g, input, states, p, seeds, state, queue, empties)
    requires forall x :: x in adds ==> Good(g, input, states, p, seeds, x)
    requires queue[0].Finished() ==>
      forall prev :: prev in Source(states, p, state + {queue[0]}, queue[0].finish) && prev.Valid() && prev.Match(queue[0].nt) ==>
        prev.Advance(queue[0].Complete()) in adds
    requires !queue[0].Finished() && queue[0].Current() in g.productions ==>
      forall rhs :: rhs in g.productions[queue[0].Current()] ==> Fresh(queue[0].Current(), rhs, p) in adds
    requires !queue[0].Finished() ==>
      forall w :: w in state && w.Valid() && w.Finished() && w.finish == p && queue[0].Match(w.nt) ==>
        queue[0].Advance(w.Complete()) in adds
    requires empties' == if queue[0].Finished() && queue[0].finish == p then empties + {queue[0].Complete()} else empties
    ensures Building(g, input, states, p, seeds, state + {queue[0]}, queue[1..] + adds, empties')
    ensures forall it :: it in queue ==> it in state + {queue[0]} || it in queue[1..] + adds
    ensures |state + {queue[0]}| == |state| + 1
  {
    var item := queue[0];
    assert item in queue;
    ClosedAfterAdd(g, states, p, state, queue, adds);
    EmptiesAdd(state, p, item);
    assert forall x :: x in queue ==> x == item || x in queue[1..];
    assert forall x :: x in queue[1..] + adds ==> x in queue[1..] || x in adds;
  }



  /**
   * The expansion of an item newly added to the set at `p`: a finished item
   * completes into the set where it finishes (the set being built, when it
   * is zero-width); an unfinished one whose next symbol is a nonterminal
   * predicts each of its productions and advances over the zero-width
   * completions of it recorded so far.
   */
  method Expand(g: Cfg, input: seq<string>, states: seq<set<Item>>, p: nat, state: set<Item>, empties: set<Tree>, item: Item)
    returns (adds: seq<Item>)
    requires Parsable(g)
    requires |states| == |input| + 1 && p <= |input|
    requires forall q, it :: p < q <= |input| && it in states[q] ==> ItemOK(g, input, q, it)
    requires forall it :: it in state ==> ItemOK(g, input, p, it)
    requires ItemOK(g, input, p, item)
    requires empties == Empties(state, p)
    ensures forall x :: x in adds ==> ItemOK(g, input, p, x)
    ensures item.Finished() ==>
      forall prev :: prev in Source(states, p, state + {item}, item.finish) && prev.Valid() && prev.Match(item.nt) ==>
        prev.Advance(item.Complete()) in adds
    ensures !item.Finished() && item.Current() in g.productions ==>
      forall rhs :: rhs in g.productions[item.Current()] ==> Fresh(item.Current(), rhs, p) in adds
    ensures !item.Finished() ==>
      forall w :: w in state && w.Valid() && w.Finished() && w.finish == p && item.Match(w.nt) ==>
        item.Advance(w.Complete()) in adds
    ensures forall x :: x in adds ==> Derived(g, states, p, state + {item}, x)
  {
    adds := [];
    if item.Finished() {
      var t := item.Complete();
      var nt := t.sym;
      var end := item.Start();
      var source := Source(states, p, state + {item}, end);
      adds := AdvanceMatching(source, nt, t);
      forall x | x in adds ensures ItemOK(g, input, p, x) && Derived(g, states, p, state + {item}, x) {
        var prev :| prev in source && prev.Match(nt) && x == prev.Advance(t);
        CompleteOK(g, input, p, item, prev);
        assert Completes(item, prev, x);
      }
    } else {
      var nt := item.Current();
      var rhss := g.Expansions(nt);
      if rhss.Some? {
        var predicted := FreshItems(nt, rhss.value, p);
        forall x | x in predicted ensures ItemOK(g, input, p, x) && Derived(g, states, p, state + {item}, x) {
          var rhs :| rhs in rhss.value && x == Fresh(nt, rhs, p);
          PredictOK(g, input, p, nt, rhs);
          assert Predicts(g, p, item, rhs, x);
        }
        var adv := AdvanceWithEmpties(item, empties, nt);
        forall x | x in adv ensures ItemOK(g, input, p, x) && Derived(g, states, p, state + {item}, x) {
          var t :| t in empties && t.sym == nt && x == item.Advance(t);
          var w :| w in state && w.Valid() && w.Finished() && w.finish == p && t == w.Complete();
          CompleteOK(g, input, p, w, item);
          assert Completes(w, item, x);
        }
        forall w | w in state && w.Valid() && w.Finished() && w.finish == p && item.Match(w.nt)
          ensures item.Advance(w.Complete()) in adv
        {
          assert w.Complete() in empties;
        }
        adds := predicted + adv;
      } else {
        forall w | w in state && w.Valid() && w.Finished() && w.finish == p
          ensures !item.Match(w.nt)
        {
          if item.Match(w.nt) {
            MatchedIsNonTerminal(g, input, p, item, w.nt);
          }
        }
      }
    }
  }

  /**
   * One turn of the descending position loop: the queue is seeded (the
   * wrapper item at the right end; elsewhere the items of the set to the
   * right advanced over the terminal `input[pos]`, or nothing when
   * `input[pos]` is a nonterminal) and then closed.
   */
  method StateAt(g: Cfg, input: seq<string>, states: seq<set<Item>>, pos: nat) returns (state: set<Item>, cut: bool)
    requires Parsable(g)
    requires |states| == |input| + 1 && pos <= |input|
    requires ItemsOK(g, input, states, pos + 1)
    ensures |state| <= EXPANSION_LIMIT + 1
    ensures forall it :: it in state ==> ItemOK(g, input, pos, it)
    ensures cut ==> |state| == EXPANSION_LIMIT + 1
    ensures !cut ==> ClosedUpTo(g, states, pos, state, [])
    ensures !cut && pos == |input| ==> Seed(g, |input|) in state
    ensures !cut && pos < |input| && !g.IsNonTerminal(input[pos]) ==> Scanned(states[pos + 1], input[pos]) <= state
    ensures pos < |input| && (g.IsNonTerminal(input[pos]) || states[pos + 1] == {}) ==> state == {} && !cut
    ensures forall it :: it in state ==> Reach(g, states[pos + 1..], pos, Seeds(g, input, states, pos), it)
  {
    var queue: seq<Item> := [];
    if pos == |input| {
      queue := [Fresh(START, [g.Start()], pos)];
      SeedOK(g, input);
    } else {
      var nextSym := input[pos];
      if g.Expansions(nextSym).None? {
        var t := Terminal(nextSym);
        queue := AdvanceMatching(states[pos + 1], nextSym, t);
        forall x | x in queue ensures ItemOK(g, input, pos, x) {
          var prev :| prev in states[pos + 1] && prev.Match(nextSym) && x == prev.Advance(t);
          ScanOK(g, input, pos, prev);
        }
      }
    }
    assert (set x | x in queue) == Seeds(g, input, states, pos);
    state, cut := Close(g, input, states, pos, queue);
  }

  /**
   * The result loop: the tree inside each finished wrapper item of the set
   * at position 0, once each.
   */
  method ExtractResults(g: Cfg, input: seq<string>, state0: set<Item>) returns (results: seq<Tree>)
    requires g.lhss != []
    requires forall it :: it in state0 && it.FinishedAt(START) ==> ResultItemOK(g, input, it)
    ensures (set t | t in results) == set it | it in state0 && IsResultItem(it) :: it.CompleteTop()
    ensures forall i, j :: 0 <= i < j < |results| ==> results[i] != results[j]
    ensures forall t :: t in results ==> ResultTree(g, input, t)
  {
    results := [];
    ghost var from: seq<Item> := [];
    var todo := state0;
    while todo != {}
      invariant todo <= state0 && |from| == |results|
      invariant forall i :: 0 <= i < |results| ==>
        from[i] in state0 && from[i] !in todo && IsResultItem(from[i]) && results[i] == from[i].CompleteTop()
      invariant forall it :: it in state0 && it !in todo && IsResultItem(it) ==> it.CompleteTop() in results
      invariant forall i, j :: 0 <= i < j < |results| ==> results[i] != results[j]
      invariant forall t :: t in results ==> ResultTree(g, input, t)
    {
      var item :| item in todo;
      if item.FinishedAt(START) {
        forall i | 0 <= i < |results| ensures results[i] != item.CompleteTop() {
          if results[i] == item.CompleteTop() {
            ResultItemsInjective(g, input, from[i], item);
          }
        }
        results := results + [item.CompleteTop()];
        from := from + [item];
      }
      todo := todo - {item};
    }
    forall t | t in results ensures exists it :: it in state0 && IsResultItem(it) && t == it.CompleteTop() {
      var i :| 0 <= i < |results| && results[i] == t;
      assert from[i] in state0 && IsResultItem(from[i]);
    }
  }

  /** Storing a closed, seeded set at `pos` extends a complete suffix of the chart by one position. */
  lemma SuffixStep(g: Cfg, input: seq<string>, states: seq<set<Item>>, pos: nat, state: set<Item>)
    requires g.lhss != [] && |states| == |input| + 1 && pos <= |input|
    requires ItemsOK(g, input, states, pos + 1) && SuffixComplete(g, input, states, pos + 1)
    requires forall it :: it in state ==> ItemOK(g, input, pos, it)
    requires ClosedUpTo(g, states, pos, state, [])
    requires pos == |input| ==> Seed(g, |input|) in state
    requires pos < |input| && !g.IsNonTerminal(input[pos]) ==> Scanned(states[pos + 1], input[pos]) <= state
    ensures ItemsOK(g, input, states[pos := state], pos)
    ensures SuffixComplete(g, input, states[pos := state], pos)
  {
    var states' := states[pos := state];
    ItemsStep(g, input, states, pos, state);
    ClosedUpToSources(g, states, states', pos, state, []);
    forall q | pos < q <= |input| ensures ClosedUpTo(g, states', q, states'[q], []) {
      ClosedUpToSources(g, states, states', q, states[q], []);
    }
  }

  /** Storing a set at `pos` keeps the items of the suffix meaningful. */
  lemma ItemsStep(g: Cfg, input: seq<string>, states: seq<set<Item>>, pos: nat, state: set<Item>)
    requires |states| == |input| + 1 && pos <= |input|
    requires ItemsOK(g, input, states, pos + 1)
    requires forall it :: it in state ==> ItemOK(g, input, pos, it)
    ensures ItemsOK(g, input, states[pos := state], pos)
  {
  }

  /** Storing a set reached from its seeds keeps a grounded suffix of the chart grounded. */
  lemma GroundedStep(g: Cfg, input: seq<string>, states: seq<set<Item>>, pos: nat, state: set<Item>)
    requires g.lhss != [] && |states| == |input| + 1 && pos <= |input|
    requires Grounded(g, input, states, pos + 1)
    requires forall it :: it in state ==> Reach(g, states[pos + 1..], pos, Seeds(g, input, states, pos), it)
    ensures Grounded(g, input, states[pos := state], pos)
  {
    var states' := states[pos := state];
    forall q | pos <= q < |states'|
      ensures states'[q + 1..] == states[q + 1..] && Seeds(g, input, states', q) == Seeds(g, input, states, q)
    {
      assert states'[q + 1..] == states[q + 1..];
    }
  }

  /** A closed set holding the seeds holds every item their closure reaches. */
  least lemma ReachInClosed(g: Cfg, states: seq<set<Item>>, p: nat, state: set<Item>, seeds: set<Item>, it: Item)
    requires p < |states| && seeds <= state && ClosedUpTo(g, states, p, state, [])
    requires Reach(g, states[p + 1..], p, seeds, it)
    ensures it in state
  {
    var later := states[p + 1..];
    if it in seeds {
    } else if exists x, rhs :: Predicts(g, p, x, rhs, it) && Reach(g, later, p, seeds, x) {
      var x, rhs :| Predicts(g, p, x, rhs, it) && Reach(g, later, p, seeds, x);
      ReachInClosed(g, states, p, state, seeds, x);
      PredictedInClosed(g, states, p, state, x, rhs, it);
    } else {
      var w, prev :| Completes(w, prev, it) && Reach(g, later, p, seeds, w) &&
                if w.finish == p then Reach(g, later, p, seeds, prev)
                else p < w.finish <= p + |later| && prev in later[w.finish - p - 1];
      ReachInClosed(g, states, p, state, seeds, w);
      if w.finish == p {
        ReachInClosed(g, states, p, state, seeds, prev);
      } else {
        assert later[w.finish - p - 1] == states[w.finish];
      }
      CompletedInClosed(g, states, p, state, w, prev, it);
    }
  }

  lemma CompletedInClosed(g: Cfg, states: seq<set<Item>>, p: nat, state: set<Item>, w: Item, prev: Item, it: Item)
    requires ClosedUpTo(g, states, p, state, []) && w in state && Completes(w, prev, it)
    requires if w.finish == p then prev in state else w.finish < |states| && prev in states[w.finish]
    ensures it in state
  {
    assert prev in Source(states, p, state, w.finish);
  }

  lemma PredictedInClosed(g: Cfg, states: seq<set<Item>>, p: nat, state: set<Item>, x: Item, rhs: seq<string>, it: Item)
    requires ClosedUpTo(g, states, p, state, []) && x in state && Predicts(g, p, x, rhs, it)
    ensures it in state
  {
  }

  /**
   * A chart nothing was cut from, whose items are all reached, holds at each
   * position exactly the items the closure of that position's seeds reaches.
   */
  lemma CompleteChartIsClosure(g: Cfg, input: seq<string>, states: seq<set<Item>>)
    requires g.lhss != [] && ChartComplete(g, input, states) && Grounded(g, input, states, 0)
    ensures forall q, it :: 0 <= q <= |input| ==>
      (it in states[q] <==> Reach(g, states[q + 1..], q, Seeds(g, input, states, q), it))
  {
    forall q, it | 0 <= q <= |input| && Reach(g, states[q + 1..], q, Seeds(g, input, states, q), it)
      ensures it in states[q]
    {
      assert Seeds(g, input, states, q) <= states[q];
      ReachInClosed(g, states, q, states[q], Seeds(g, input, states, q), it);
    }
  }

  /**
   * The closure predicts only what some reached item waits for: with the
   * productions S -> b and A -> c and the input `b`, nothing at the right end
   * waits for A, so a chart whose set there holds A's fresh item is not
   * grounded.
   */
  lemma UnwaitedPredictionUnreached()
    ensures !Grounded(Cfg(["S", "A"], map["S" := [["b"]], "A" := [["c"]]]), ["b"], [{}, {Fresh("A", ["c"], 1)}], 0)
  {
    var g := Cfg(["S", "A"], map["S" := [["b"]], "A" := [["c"]]]);
    var chart := [{}, {Fresh("A", ["c"], 1)}];
    var closed := {Seed(g, 1), Fresh("S", ["b"], 1)};
    var states := [{}, closed];
    assert Seed(g, 1).Current() == "S" && Fresh("S", ["b"], 1).Current() == "b";
    assert ClosedUpTo(g, states, 1, closed, []);
    assert states[2..] == chart[2..] && Seeds(g, ["b"], chart, 1) == {Seed(g, 1)};
    if Reach(g, states[2..], 1, {Seed(g, 1)}, Fresh("A", ["c"], 1)) {
      ReachInClosed(g, states, 1, closed, {Seed(g, 1)}, Fresh("A", ["c"], 1));
    }
    assert Fresh("A", ["c"], 1) in chart[1];
  }

  /** Every set at or left of a nonterminal of the input, from position `from` on, is empty. */
  ghost predicate EmptyFromNonTerminal(g: Cfg, input: seq<string>, states: seq<set<Item>>, from: nat)
    requires |states| == |input| + 1
  {
    forall q, r :: from <= r <= q < |input| && g.IsNonTerminal(input[q]) ==> states[r] == {}
  }

  lemma EmptyStep(g: Cfg, input: seq<string>, states: seq<set<Item>>, pos: nat, state: set<Item>)
    requires |states| == |input| + 1 && pos <= |input|
    requires EmptyFromNonTerminal(g, input, states, pos + 1)
    requires pos < |input| && (g.IsNonTerminal(input[pos]) || states[pos + 1] == {}) ==> state == {}
    ensures EmptyFromNonTerminal(g, input, states[pos := state], pos)
  {
    var states' := states[pos := state];
    forall q, r | pos <= r <= q < |input| && g.IsNonTerminal(input[q]) ensures states'[r] == {} {
      if r == pos && q > pos {
        assert states[pos + 1] == {};
      }
    }
  }

  /**
   * The descending position loop: the set at each position from the right
   * end down to 0, and whether any of them was cut at the size cap.
   */
  method FillChart(g: Cfg, input: seq<string>) returns (states: seq<set<Item>>, truncated: bool)
    requires Parsable(g)
    ensures |states| == |input| + 1
    ensures ItemsOK(g, input, states, 0)
    ensures forall q :: 0 <= q <= |input| ==> |states[q]| <= EXPANSION_LIMIT + 1
    ensures !truncated ==> ChartComplete(g, input, states)
    ensures truncated ==> exists q :: 0 <= q <= |input| && |states[q]| == EXPANSION_LIMIT + 1
    ensures EmptyFromNonTerminal(g, input, states, 0)
    ensures Grounded(g, input, states, 0)
  {
    var n := |input|;
    states := seq(n + 1, _ => {});
    truncated := false;
    var pos := n + 1;
    while pos > 0
      invariant 0 <= pos <= n + 1 && |states| == n + 1
      invariant ItemsOK(g, input, states, pos)
      invariant forall q :: pos <= q <= n ==> |states[q]| <= EXPANSION_LIMIT + 1
      invariant !truncated ==> SuffixComplete(g, input, states, pos)
      invariant truncated ==> exists q :: pos <= q <= n && |states[q]| == EXPANSION_LIMIT + 1
      invariant EmptyFromNonTerminal(g, input, states, pos)
      invariant Grounded(g, input, states, pos)
    {
      pos := pos - 1;
      var state, cut := StateAt(g, input, states, pos);
      ghost var prevStates := states;
      if !truncated && !cut {
        SuffixStep(g, input, states, pos, state);
      }
      ItemsStep(g, input, states, pos, state);
      EmptyStep(g, input, states, pos, state);
      GroundedStep(g, input, states, pos, state);
      states := states[pos := state];
      if cut {
        assert |states[pos]| == EXPANSION_LIMIT + 1;
      } else if truncated {
        ghost var q :| pos < q <= n && |prevStates[q]| == EXPANSION_LIMIT + 1;
        assert states[q] == prevStates[q];
      }
      truncated := truncated || cut;
    }
  }

  /** The parser object: the grammar, and the chart of the last parse (`null` before the first). */
  class Earley {
    const grammar: Cfg
    var lastStates: seq<set<Item>>

    constructor (g: Cfg)
      ensures grammar == g && lastStates == []
    {
      grammar := g;
      lastStates := [];
    }

    /**
     * `parse`: fills the chart from the right end down to position 0 and
     * reads the results off the finished wrapper items at position 0. The
     * returned flag is false when some set was cut at the size cap.
     */
    method Parse(input: seq<string>) returns (ok: bool, results: seq<Tree>)
      requires Parsable(grammar)
      modifies this
      ensures |lastStates| == |input| + 1
      ensures forall q, it :: 0 <= q <= |input| && it in lastStates[q] ==> ItemOK(grammar, input, q, it)
      ensures forall q :: 0 <= q <= |input| ==> |lastStates[q]| <= EXPANSION_LIMIT + 1
      ensures ok ==> ChartComplete(grammar, input, lastStates)
      ensures !ok ==> exists q :: 0 <= q <= |input| && |lastStates[q]| == EXPANSION_LIMIT + 1
      ensures forall q, r :: 0 <= r <= q < |input| && grammar.IsNonTerminal(input[q]) ==> lastStates[r] == {}
      ensures forall it :: it in lastStates[0] && it.FinishedAt(START) ==> IsResultItem(it)
      ensures (set t | t in results) == set it | it in lastStates[0] && IsResultItem(it) :: it.CompleteTop()
      ensures forall i, j :: 0 <= i < j < |results| ==> results[i] != results[j]
      ensures forall t :: t in results ==> ResultTree(grammar, input, t)
      ensures ok ==> forall t :: ResultTree(grammar, input, t) ==> t in results
      ensures Grounded(grammar, input, lastStates, 0)
    {
      var g := grammar;
      var states, truncated := FillChart(g, input);
      forall it: Item | it in states[0] && it.FinishedAt(START) ensures ResultItemOK(g, input, it) {
        ResultOK(g, input, it);
      }
      results := ExtractResults(g, input, states[0]);
      if !truncated {
        ResultsComplete(g, input, states, results);
      }
      lastStates := states;
      ok := !truncated;
    }
  }
}
