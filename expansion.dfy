/**
 * The bounded breadth-first enumerator of derivation trees (`Expansion`).
 * For each nonterminal it keeps the list of derivation trees found so far.
 * Each `expand` rebuilds every list from the previous ones: a production's
 * children are chosen right to left, one tree from the previous list of each
 * nonterminal symbol and the leaf for each terminal. Every new tree is
 * charged its height times its width against a limit; the charge is never
 * refunded, and the first charge that exceeds the limit abandons the round.
 */
module Expansion {
  import opened Wrappers
  import opened Grammar
  import opened ParseTree
  import opened Derivations

  /** The tree list of each nonterminal. */
  type Languages = map<string, seq<Tree>>

  // ---------------------------------------------------------------------
  // The children lists of one production

  /** Every list with `t` in front: the in-place update for a terminal symbol. */
  function Prefixed(t: Tree, strs: seq<seq<Tree>>): (r: seq<seq<Tree>>)
    ensures |r| == |strs|
  {
    seq(|strs|, j requires 0 <= j < |strs| => [t] + strs[j])
  }

  /** Each tree of `ts` in turn in front of every list: the new list for a nonterminal symbol. */
  function Product(ts: seq<Tree>, strs: seq<seq<Tree>>): (r: seq<seq<Tree>>)
    ensures |r| == |ts| * |strs|
    decreases |ts|
  {
    if ts == [] then [] else Product(ts[..|ts| - 1], strs) + Prefixed(ts[|ts| - 1], strs)
  }

  /** The children lists once the symbols `rhs[k..]` have been processed, from the right. */
  function Combos(lgges: Languages, rhs: seq<string>, k: nat): seq<seq<Tree>>
    requires k <= |rhs|
    decreases |rhs| - k
  {
    if k == |rhs| then [[]]
    else if rhs[k] in lgges then Product(lgges[rhs[k]], Combos(lgges, rhs, k + 1))
    else Prefixed(Terminal(rhs[k]), Combos(lgges, rhs, k + 1))
  }

  /** What may stand for `sym` among a new tree's children: a tree of its list, or the leaf of a terminal. */
  predicate Fits(lgges: Languages, sym: string, t: Tree)
  {
    if sym in lgges then t in lgges[sym] else t == Terminal(sym)
  }

  /** How many children lists `rhs[k..]` allows: the list lengths of its nonterminals multiplied. */
  function Choices(lgges: Languages, rhs: seq<string>, k: nat): nat
    requires k <= |rhs|
    decreases |rhs| - k
  {
    if k == |rhs| then 1
    else (if rhs[k] in lgges then |lgges[rhs[k]]| else 1) * Choices(lgges, rhs, k + 1)
  }

  /** The nodes labelled `nt` over each children list. */
  function Nodes(nt: string, strs: seq<seq<Tree>>): (r: seq<Tree>)
    ensures |r| == |strs|
  {
    seq(|strs|, j requires 0 <= j < |strs| => NonTerminal(nt, strs[j]))
  }

  /** The new list of `nt`: the nodes of each production in turn. */
  function TreesFor(lgges: Languages, nt: string, rhss: seq<seq<string>>): seq<Tree>
    decreases |rhss|
  {
    if rhss == [] then []
    else TreesFor(lgges, nt, rhss[..|rhss| - 1]) + Nodes(nt, Combos(lgges, rhss[|rhss| - 1], 0))
  }

  /** Every tree one round builds, nonterminal by nonterminal, in the order they are charged. */
  function AllTrees(g: Cfg, lgges: Languages, nts: seq<string>): seq<Tree>
    requires forall nt :: nt in nts ==> nt in g.productions
    decreases |nts|
  {
    if nts == [] then []
    else AllTrees(g, lgges, nts[..|nts| - 1]) + TreesFor(lgges, nts[|nts| - 1], g.productions[nts[|nts| - 1]])
  }

  /** The lists after a round that stays within the limit. */
  function Next(g: Cfg, lgges: Languages): (next: Languages)
    ensures next.Keys == g.productions.Keys
  {
    map nt | nt in g.productions :: TreesFor(lgges, nt, g.productions[nt])
  }

  /**
   * The lists hold exactly the derivation trees of each nonterminal whose
   * height is at most `h`.
   */
  ghost predicate UpToHeight(g: Cfg, lgges: Languages, h: nat)
  {
    forall nt, t :: nt in lgges ==> (t in lgges[nt] <==> Listed(g, nt, h, t))
  }

  /** A derivation tree of `nt` of height at most `h`. */
  ghost predicate Listed(g: Cfg, nt: string, h: nat, t: Tree)
  {
    t.NonTerminal? && t.sym == nt && Derivation(g, t) && Height(t) <= h
  }

  /** Every list of `small` is contained, duplicates counted, in the same nonterminal's list of `big`. */
  ghost predicate Below(small: Languages, big: Languages)
  {
    forall nt :: nt in small ==> nt in big && multiset(small[nt]) <= multiset(big[nt])
  }

  /**
   * What the enumerator keeps after `k` rounds: every nonterminal has a list,
   * holding exactly its derivation trees of height at most `k + 1`, and the
   * next round would only add to it.
   */
  ghost predicate Invariant(g: Cfg, lgges: Languages, k: nat)
  {
    && g.WellFormed()
    && lgges.Keys == g.productions.Keys
    && UpToHeight(g, lgges, k + 1)
    && Below(lgges, Next(g, lgges))
  }

  // ---------------------------------------------------------------------
  // The charge

  /** What a tree is charged: its height times its width. */
  function Cost(t: Tree): nat
  {
    Height(t) * Width(t)
  }

  /** The total charge of a list of trees. */
  function TotalCost(ts: seq<Tree>): nat
    decreases |ts|
  {
    if ts == [] then 0 else Cost(ts[0]) + TotalCost(ts[1..])
  }

  datatype Charged = Charged(ok: bool, count: int)

  /** Charging the trees in order from `count`, stopping at the first charge past `limit`. */
  function Charge(count: int, ts: seq<Tree>, limit: int): Charged
    decreases |ts|
  {
    if ts == [] then Charged(true, count)
    else if count + Cost(ts[0]) > limit then Charged(false, count + Cost(ts[0]))
    else Charge(count + Cost(ts[0]), ts[1..], limit)
  }

  // ---------------------------------------------------------------------
  // The enumerator

  /** The children lists of a production, built right to left as `expand` does. */
  method CombosOf(lgges: Languages, rhs: seq<string>) returns (strs: seq<seq<Tree>>)
    ensures strs == Combos(lgges, rhs, 0)
  {
    strs := [[]];
    var k := |rhs|;
    while k > 0
      invariant 0 <= k <= |rhs|
      invariant strs == Combos(lgges, rhs, k)
    {
      var sym := rhs[k - 1];
      if sym !in lgges {
        var t := Terminal(sym);
        ghost var before := strs;
        var j := 0;
        while j < |strs|
          invariant 0 <= j <= |strs| == |before|
          invariant forall i :: 0 <= i < j ==> strs[i] == [t] + before[i]
          invariant forall i :: j <= i < |strs| ==> strs[i] == before[i]
        {
          strs := strs[j := [t] + strs[j]];
          j := j + 1;
        }
        assert strs == Prefixed(t, before);
      } else {
        var exps := lgges[sym];
        var newStrs: seq<seq<Tree>> := [];
        var a := 0;
        while a < |exps|
          invariant 0 <= a <= |exps|
          invariant newStrs == Product(exps[..a], strs)
        {
          var t := exps[a];
          var b := 0;
          while b < |strs|
            invariant 0 <= b <= |strs|
            invariant newStrs == Product(exps[..a], strs) + Prefixed(t, strs)[..b]
          {
            assert Prefixed(t, strs)[..b + 1] == Prefixed(t, strs)[..b] + [[t] + strs[b]];
            newStrs := newStrs + [[t] + strs[b]];
            b := b + 1;
          }
          assert exps[..a + 1][..a] == exps[..a];
          a := a + 1;
        }
        assert exps[..a] == exps;
        strs := newStrs;
      }
      k := k - 1;
    }
  }

  /** `Expansion`: the lists, the running charge and the number of completed rounds. */
  class Expansion {
    const grammar: Cfg
    const limit: int
    var lgges: Languages
    var count: int
    var expandCount: nat

    /** The invariant of the enumerator's lists after `expandCount` rounds. */
    ghost predicate Valid()
      reads this`lgges, this`expandCount
    {
      Invariant(grammar, lgges, expandCount)
    }

    /** An empty list for each nonterminal; nothing charged, no rounds done. */
    constructor (grammar: Cfg, limit: int)
      requires grammar.WellFormed()
      ensures Valid() && this.grammar == grammar && this.limit == limit
      ensures lgges.Keys == grammar.productions.Keys && forall nt :: nt in lgges ==> lgges[nt] == []
      ensures count == 0 && expandCount == 0
    {
      var empty: Languages := map[];
      var a := 0;
      while a < |grammar.lhss|
        invariant 0 <= a <= |grammar.lhss|
        invariant forall nt :: nt in empty <==> nt in grammar.lhss[..a]
        invariant forall nt :: nt in empty ==> empty[nt] == []
      {
        empty := empty[grammar.lhss[a] := []];
        assert grammar.lhss[..a + 1] == grammar.lhss[..a] + [grammar.lhss[a]];
        a := a + 1;
      }
      assert grammar.lhss[..a] == grammar.lhss;
      this.grammar := grammar;
      this.limit := limit;
      lgges := empty;
      count := 0;
      expandCount := 0;
      new;
      EmptyValid(grammar, lgges);
    }

    /**
     * `derivations(nt)`: `None` (null) for a symbol that is not a
     * nonterminal; for a nonterminal, after `depth()` rounds, a list holding
     * exactly its derivation trees of height at most `depth() + 1`.
     */
    function Derivations(nt: string): (r: Option<seq<Tree>>)
      reads this
      ensures Valid() ==> (r.Some? <==> grammar.IsNonTerminal(nt))
      ensures Valid() && r.Some? ==> forall t: Tree :: t in r.value <==>
        t.NonTerminal? && t.sym == nt && Derivation(grammar, t) && Height(t) <= expandCount + 1
    {
      if nt in lgges then Some(lgges[nt]) else None
    }

    /** `depth()`: the number of completed rounds; no listed tree is taller than one more. */
    function Depth(): (n: nat)
      reads this
      ensures Valid() ==> forall nt, t :: nt in lgges && t in lgges[nt] ==> Height(t) <= n + 1
    {
      expandCount
    }

    /** The nodes of `nt` over the children lists of one production, appended to `ts` and charged one by one. */
    method AddNodes(nt: string, strs: seq<seq<Tree>>, ts: seq<Tree>) returns (ok: bool, ts': seq<Tree>)
      modifies this`count
      ensures Charged(ok, count) == Charge(old(count), Nodes(nt, strs), limit)
      ensures ok ==> ts' == ts + Nodes(nt, strs)
    {
      ghost var start := count;
      ts' := ts;
      var c := 0;
      while c < |strs|
        invariant 0 <= c <= |strs|
        invariant ts' == ts + Nodes(nt, strs[..c])
        invariant Charge(start, Nodes(nt, strs[..c]), limit) == Charged(true, count)
      {
        var t, ht, wd, _ := NewNonTerminal(nt, strs[c]);
        ChargeOne(start, Nodes(nt, strs[..c]), t, count, limit);
        NodesSnoc(nt, strs, c);
        ts' := ts' + [t];
        count := count + ht * wd;
        if count > limit {
          assert strs == strs[..c + 1] + strs[c + 1..];
          NodesConcat(nt, strs[..c + 1], strs[c + 1..]);
          ChargeStops(start, Nodes(nt, strs[..c + 1]), Nodes(nt, strs[c + 1..]), limit);
          return false, ts';
        }
        c := c + 1;
      }
      assert strs[..c] == strs;
      return true, ts';
    }

    /** The trees of one nonterminal's productions, each charged as it is built. */
    method ExpandNonTerminal(nt: string) returns (ok: bool, ts: seq<Tree>)
      requires nt in grammar.productions
      modifies this`count
      ensures Charged(ok, count) == Charge(old(count), TreesFor(lgges, nt, grammar.productions[nt]), limit)
      ensures ok ==> ts == TreesFor(lgges, nt, grammar.productions[nt])
    {
      var rhss := grammar.productions[nt];
      ghost var start := count;
      ts := [];
      var b := 0;
      while b < |rhss|
        invariant 0 <= b <= |rhss|
        invariant ts == TreesFor(lgges, nt, rhss[..b])
        invariant Charge(start, ts, limit) == Charged(true, count)
      {
        var strs := CombosOf(lgges, rhss[b]);
        ghost var before := ts;
        var done;
        done, ts := AddNodes(nt, strs, ts);
        ChargeConcat(start, before, Nodes(nt, strs), limit);
        TreesForSplit(lgges, nt, rhss, b);
        assert rhss[..b + 1][..b] == rhss[..b];
        if !done {
          ChargeStops(start, before + Nodes(nt, strs), TreesFor(lgges, nt, rhss[b + 1..]), limit);
          return false, ts;
        }
        b := b + 1;
      }
      assert rhss[..b] == rhss;
      return true, ts;
    }

    /** One round's new lists, nonterminal by nonterminal, charging each tree as it is built. */
    method BuildNext() returns (ok: bool, newLgges: Languages)
      requires forall nt :: nt in grammar.productions <==> nt in grammar.lhss
      modifies this`count
      ensures Charged(ok, count) == Charge(old(count), AllTrees(grammar, lgges, grammar.lhss), limit)
      ensures ok ==> newLgges == Next(grammar, lgges)
    {
      var nts := grammar.lhss;
      ghost var start := count;
      newLgges := map[];
      var a := 0;
      while a < |nts|
        invariant 0 <= a <= |nts|
        invariant Charge(start, AllTrees(grammar, lgges, nts[..a]), limit) == Charged(true, count)
        invariant forall nt :: nt in newLgges <==> nt in nts[..a]
        invariant forall nt :: nt in newLgges ==> newLgges[nt] == TreesFor(lgges, nt, grammar.productions[nt])
      {
        var nt := nts[a];
        ghost var before := count;
        var done, ts := ExpandNonTerminal(nt);
        RoundStep(grammar, lgges, nts, a, start, before, limit);
        if !done {
          RoundStops(grammar, lgges, nts, a, start, limit);
          return false, newLgges;
        }
        PrefixSnoc(nts, a);
        newLgges := newLgges[nt := ts];
        a := a + 1;
      }
      WholePrefix(nts, a);
      NextFromParts(grammar, lgges, newLgges);
      return true, newLgges;
    }

    /**
     * `expand()`: builds every nonterminal's new list from the current ones.
     * When every charge stays within the limit, the lists are replaced and
     * one more round is counted; otherwise the lists and the round count are
     * kept, but the charges made so far are not refunded.
     */
    method Expand() returns (ok: bool)
      requires Valid()
      modifies this
      ensures Valid()
      ensures Charged(ok, count) == Charge(old(count), AllTrees(grammar, old(lgges), grammar.lhss), limit)
      ensures ok ==> lgges == Next(grammar, old(lgges)) && expandCount == old(expandCount) + 1
      ensures !ok ==> lgges == old(lgges) && expandCount == old(expandCount)
    {
      var newLgges;
      ok, newLgges := BuildNext();
      if ok {
        NextValid(grammar, lgges, expandCount + 1);
        lgges := newLgges;
        expandCount := expandCount + 1;
      }
    }

    /** `size()`: the lengths of all the lists, added up. */
    method Size() returns (n: nat)
      requires Valid()
      ensures n == TotalSize(grammar.lhss, lgges)
    {
      n := 0;
      var a := 0;
      while a < |grammar.lhss|
        invariant 0 <= a <= |grammar.lhss|
        invariant n == TotalSize(grammar.lhss[..a], lgges)
      {
        var nt := grammar.lhss[a];
        assert grammar.lhss[..a + 1][..a] == grammar.lhss[..a];
        n := n + |lgges[nt]|;
        a := a + 1;
      }
      assert grammar.lhss[..a] == grammar.lhss;
    }
  }

  /** The total length of the lists of `nts`. */
  function TotalSize(nts: seq<string>, lgges: Languages): nat
    decreases |nts|
  {
    if nts == [] then 0
    else TotalSize(nts[..|nts| - 1], lgges) + (if nts[|nts| - 1] in lgges then |lgges[nts[|nts| - 1]]| else 0)
  }

  // ---------------------------------------------------------------------
  // Properties

  /** A list is in `Prefixed(t, strs)` exactly when it is `t` in front of one of `strs`. */
  lemma PrefixedMembers(t: Tree, strs: seq<seq<Tree>>, s: seq<Tree>)
    ensures s in Prefixed(t, strs) <==> |s| > 0 && s[0] == t && s[1..] in strs
  {
    if |s| > 0 && s[0] == t && s[1..] in strs {
      var j :| 0 <= j < |strs| && strs[j] == s[1..];
      assert Prefixed(t, strs)[j] == s;
    }
  }

  /** A list is in `Product(ts, strs)` exactly when it is a tree of `ts` in front of one of `strs`. */
  lemma {:induction false} ProductMembers(ts: seq<Tree>, strs: seq<seq<Tree>>, s: seq<Tree>)
    ensures s in Product(ts, strs) <==> |s| > 0 && s[0] in ts && s[1..] in strs
    decreases |ts|
  {
    if ts != [] {
      var init := ts[..|ts| - 1];
      ProductMembers(init, strs, s);
      PrefixedMembers(ts[|ts| - 1], strs, s);
      assert ts == init + [ts[|ts| - 1]];
    }
  }

  /**
   * The children lists a production yields are exactly the lists with one
   * entry per symbol, each fitting its symbol: the leaf of a terminal, or a
   * tree of a nonterminal's list.
   */
  lemma {:induction false} CombosMembers(lgges: Languages, rhs: seq<string>, k: nat, s: seq<Tree>)
    requires k <= |rhs|
    ensures s in Combos(lgges, rhs, k) <==>
      |s| == |rhs| - k && forall j :: 0 <= j < |s| ==> Fits(lgges, rhs[k + j], s[j])
    decreases |rhs| - k
  {
    if k < |rhs| {
      if |s| > 0 {
        CombosMembers(lgges, rhs, k + 1, s[1..]);
        assert forall j :: 0 < j < |s| ==> s[j] == s[1..][j - 1];
      }
      if rhs[k] in lgges {
        ProductMembers(lgges[rhs[k]], Combos(lgges, rhs, k + 1), s);
      } else {
        PrefixedMembers(Terminal(rhs[k]), Combos(lgges, rhs, k + 1), s);
      }
    } else {
      if |s| == 0 {
        assert s == [];
      }
    }
  }

  /**
   * A production yields as many children lists as the product of the list
   * lengths of its nonterminal symbols; in particular an empty production
   * yields exactly one, the empty list.
   */
  lemma {:induction false} CombosCount(lgges: Languages, rhs: seq<string>, k: nat)
    requires k <= |rhs|
    ensures |Combos(lgges, rhs, k)| == Choices(lgges, rhs, k)
    decreases |rhs| - k
  {
    if k < |rhs| {
      CombosCount(lgges, rhs, k + 1);
    }
  }

  /** A tree is in `Nodes(nt, strs)` exactly when it is a node labelled `nt` over one of `strs`. */
  lemma NodesMembers(nt: string, strs: seq<seq<Tree>>, t: Tree)
    ensures t in Nodes(nt, strs) <==> t.NonTerminal? && t.sym == nt && t.children in strs
  {
    if t.NonTerminal? && t.sym == nt && t.children in strs {
      var j :| 0 <= j < |strs| && strs[j] == t.children;
      assert Nodes(nt, strs)[j] == t;
    }
  }

  /** A new tree of `nt` is a node labelled `nt` over a children list of one of its productions. */
  lemma {:induction false} TreesForMembers(lgges: Languages, nt: string, rhss: seq<seq<string>>, t: Tree)
    ensures t in TreesFor(lgges, nt, rhss) <==>
      t.NonTerminal? && t.sym == nt && exists rhs :: rhs in rhss && t.children in Combos(lgges, rhs, 0)
    decreases |rhss|
  {
    if rhss != [] {
      var init, last := rhss[..|rhss| - 1], rhss[|rhss| - 1];
      TreesForMembers(lgges, nt, init, t);
      NodesMembers(nt, Combos(lgges, last, 0), t);
      assert rhss == init + [last];
      if t in TreesFor(lgges, nt, rhss) {
        if t in TreesFor(lgges, nt, init) {
          var rhs :| rhs in init && t.children in Combos(lgges, rhs, 0);
          assert rhs in rhss;
        } else {
          assert last in rhss;
        }
      }
      if t.NonTerminal? && t.sym == nt && exists rhs :: rhs in rhss && t.children in Combos(lgges, rhs, 0) {
        var rhs :| rhs in rhss && t.children in Combos(lgges, rhs, 0);
        if rhs != last {
          assert rhs in init;
        }
      }
    }
  }

  /** The trees of a list of productions are those of its parts, in order. */
  lemma {:induction false} TreesForConcat(lgges: Languages, nt: string, a: seq<seq<string>>, b: seq<seq<string>>)
    ensures TreesFor(lgges, nt, a + b) == TreesFor(lgges, nt, a) + TreesFor(lgges, nt, b)
    decreases |b|
  {
    if b != [] {
      var init := b[..|b| - 1];
      assert (a + b)[..|a + b| - 1] == a + init;
      assert (a + b)[|a + b| - 1] == b[|b| - 1];
      TreesForConcat(lgges, nt, a, init);
    } else {
      assert a + b == a;
    }
  }

  /** The trees of `rhss` are those before production `b`, then its own, then those after it. */
  lemma TreesForSplit(lgges: Languages, nt: string, rhss: seq<seq<string>>, b: nat)
    requires b < |rhss|
    ensures TreesFor(lgges, nt, rhss) ==
      TreesFor(lgges, nt, rhss[..b]) + Nodes(nt, Combos(lgges, rhss[b], 0)) + TreesFor(lgges, nt, rhss[b + 1..])
  {
    assert rhss[..b + 1][..b] == rhss[..b];
    assert rhss == rhss[..b + 1] + rhss[b + 1..];
    TreesForConcat(lgges, nt, rhss[..b + 1], rhss[b + 1..]);
  }

  lemma NodesSnoc(nt: string, strs: seq<seq<Tree>>, c: nat)
    requires c < |strs|
    ensures Nodes(nt, strs[..c + 1]) == Nodes(nt, strs[..c]) + [NonTerminal(nt, strs[c])]
  {
  }

  lemma NodesConcat(nt: string, a: seq<seq<Tree>>, b: seq<seq<Tree>>)
    ensures Nodes(nt, a + b) == Nodes(nt, a) + Nodes(nt, b)
  {
  }

  /** The trees of a list of nonterminals are those of its parts, in order. */
  lemma {:induction false} AllTreesConcat(g: Cfg, lgges: Languages, a: seq<string>, b: seq<string>)
    requires forall nt :: nt in a + b ==> nt in g.productions
    ensures AllTrees(g, lgges, a + b) == AllTrees(g, lgges, a) + AllTrees(g, lgges, b)
    decreases |b|
  {
    if b != [] {
      var init := b[..|b| - 1];
      assert (a + b)[..|a + b| - 1] == a + init;
      assert (a + b)[|a + b| - 1] == b[|b| - 1];
      AllTreesConcat(g, lgges, a, init);
    } else {
      assert a + b == a;
    }
  }

  lemma AllTreesSplit(g: Cfg, lgges: Languages, nts: seq<string>, a: nat)
    requires a < |nts| && forall nt :: nt in nts ==> nt in g.productions
    ensures AllTrees(g, lgges, nts) == AllTrees(g, lgges, nts[..a + 1]) + AllTrees(g, lgges, nts[a + 1..])
  {
    assert nts == nts[..a + 1] + nts[a + 1..];
    AllTreesConcat(g, lgges, nts[..a + 1], nts[a + 1..]);
  }

  /** Charging the trees of one more nonterminal after those of the ones before it. */
  lemma RoundStep(g: Cfg, lgges: Languages, nts: seq<string>, a: nat, start: int, c: int, limit: int)
    requires a < |nts| && forall nt :: nt in nts ==> nt in g.productions
    requires Charge(start, AllTrees(g, lgges, nts[..a]), limit) == Charged(true, c)
    ensures Charge(start, AllTrees(g, lgges, nts[..a + 1]), limit) ==
      Charge(c, TreesFor(lgges, nts[a], g.productions[nts[a]]), limit)
  {
    assert nts[..a + 1][..a] == nts[..a];
    ChargeConcat(start, AllTrees(g, lgges, nts[..a]), TreesFor(lgges, nts[a], g.productions[nts[a]]), limit);
  }

  /** A round whose charge went past the limit at one nonterminal charges nothing for the later ones. */
  lemma RoundStops(g: Cfg, lgges: Languages, nts: seq<string>, a: nat, start: int, limit: int)
    requires a < |nts| && forall nt :: nt in nts ==> nt in g.productions
    requires !Charge(start, AllTrees(g, lgges, nts[..a + 1]), limit).ok
    ensures Charge(start, AllTrees(g, lgges, nts), limit) == Charge(start, AllTrees(g, lgges, nts[..a + 1]), limit)
  {
    AllTreesSplit(g, lgges, nts, a);
    ChargeStops(start, AllTrees(g, lgges, nts[..a + 1]), AllTrees(g, lgges, nts[a + 1..]), limit);
  }

  lemma WholePrefix<T>(s: seq<T>, a: int)
    requires a == |s|
    ensures s[..a] == s
  {
  }

  lemma PrefixSnoc<T>(s: seq<T>, a: int)
    requires 0 <= a < |s|
    ensures s[..a + 1] == s[..a] + [s[a]]
  {
  }

  /** A map with the new list of every listed nonterminal, and nothing else, is the round's result. */
  lemma NextFromParts(g: Cfg, lgges: Languages, m: Languages)
    requires forall nt :: nt in g.productions <==> nt in g.lhss
    requires forall nt :: nt in m <==> nt in g.lhss
    requires forall nt :: nt in m ==> m[nt] == TreesFor(lgges, nt, g.productions[nt])
    ensures m == Next(g, lgges)
  {
  }

  /**
   * Charging two lists in turn: the second is charged from where the first
   * left off, unless the first already went past the limit.
   */
  lemma {:induction false} ChargeConcat(count: int, a: seq<Tree>, b: seq<Tree>, limit: int)
    ensures Charge(count, a + b, limit) ==
      if Charge(count, a, limit).ok then Charge(Charge(count, a, limit).count, b, limit) else Charge(count, a, limit)
    decreases |a|
  {
    if a == [] {
      assert a + b == b;
    } else {
      assert (a + b)[0] == a[0] && (a + b)[1..] == a[1..] + b;
      ChargeConcat(count + Cost(a[0]), a[1..], b, limit);
    }
  }

  /** Charging one more tree after a list that stayed within the limit. */
  lemma ChargeOne(count: int, done: seq<Tree>, t: Tree, c: int, limit: int)
    requires Charge(count, done, limit) == Charged(true, c)
    ensures Charge(count, done + [t], limit) == Charged(c + Cost(t) <= limit, c + Cost(t))
  {
    ChargeConcat(count, done, [t], limit);
    assert [t][1..] == [];
  }

  /** Once a charge has gone past the limit, nothing after it is charged. */
  lemma ChargeStops(count: int, done: seq<Tree>, rest: seq<Tree>, limit: int)
    requires !Charge(count, done, limit).ok
    ensures Charge(count, done + rest, limit) == Charge(count, done, limit)
  {
    ChargeConcat(count, done, rest, limit);
  }

  /**
   * What charging computes: it succeeds exactly when no running total
   * exceeds the limit, and then ends at the start plus the total cost;
   * otherwise it stops at the first running total past the limit, with
   * nothing refunded. The total never goes down.
   */
  lemma ChargeMeaning(count: int, ts: seq<Tree>, limit: int)
    ensures Charge(count, ts, limit).ok <==> forall k :: 0 < k <= |ts| ==> count + TotalCost(ts[..k]) <= limit
    ensures Charge(count, ts, limit).ok ==> Charge(count, ts, limit).count == count + TotalCost(ts)
    ensures !Charge(count, ts, limit).ok ==>
      exists k :: 0 < k <= |ts| && Charge(count, ts, limit).count == count + TotalCost(ts[..k]) > limit &&
        forall j :: 0 < j < k ==> count + TotalCost(ts[..j]) <= limit
    ensures Charge(count, ts, limit).count >= count
  {
    ChargeSucceeds(count, ts, limit);
    ChargeFails(count, ts, limit);
  }

  /** The running totals of a non-empty list: the first cost, then those of the rest. */
  lemma PrefixCosts(ts: seq<Tree>)
    requires ts != []
    ensures TotalCost(ts[..1]) == Cost(ts[0])
    ensures forall k :: 0 < k <= |ts| ==> TotalCost(ts[..k]) == Cost(ts[0]) + TotalCost(ts[1..][..k - 1])
  {
    assert ts[..1][1..] == [];
    forall k | 0 < k <= |ts|
      ensures TotalCost(ts[..k]) == Cost(ts[0]) + TotalCost(ts[1..][..k - 1])
    {
      assert ts[..k][1..] == ts[1..][..k - 1];
    }
  }

  /** Charging succeeds exactly when no running total exceeds the limit, and then adds the total cost. */
  lemma {:induction false} ChargeSucceeds(count: int, ts: seq<Tree>, limit: int)
    ensures Charge(count, ts, limit).ok <==> forall k :: 0 < k <= |ts| ==> count + TotalCost(ts[..k]) <= limit
    ensures Charge(count, ts, limit).ok ==> Charge(count, ts, limit).count == count + TotalCost(ts)
    ensures Charge(count, ts, limit).count >= count
    decreases |ts|
  {
    if ts != [] {
      var c1 := count + Cost(ts[0]);
      PrefixCosts(ts);
      if c1 <= limit {
        ChargeSucceeds(c1, ts[1..], limit);
        if Charge(count, ts, limit).ok {
          assert ts[..|ts|] == ts;
          forall k | 0 < k <= |ts|
            ensures count + TotalCost(ts[..k]) <= limit
          {
            if k > 1 {
              assert 0 < k - 1 <= |ts[1..]|;
            }
          }
        } else {
          var k :| 0 < k <= |ts[1..]| && c1 + TotalCost(ts[1..][..k]) > limit;
          assert count + TotalCost(ts[..k + 1]) > limit;
        }
      } else {
        assert count + TotalCost(ts[..1]) > limit;
      }
    }
  }

  /** A failed charge stops at the first running total past the limit. */
  lemma {:induction false} ChargeFails(count: int, ts: seq<Tree>, limit: int)
    ensures !Charge(count, ts, limit).ok ==>
      exists k :: 0 < k <= |ts| && Charge(count, ts, limit).count == count + TotalCost(ts[..k]) > limit &&
        forall j :: 0 < j < k ==> count + TotalCost(ts[..j]) <= limit
    decreases |ts|
  {
    if ts != [] {
      var c1 := count + Cost(ts[0]);
      PrefixCosts(ts);
      if c1 <= limit && !Charge(count, ts, limit).ok {
        ChargeFails(c1, ts[1..], limit);
        var k :| 0 < k <= |ts[1..]| && Charge(c1, ts[1..], limit).count == c1 + TotalCost(ts[1..][..k]) > limit &&
          forall j :: 0 < j < k ==> c1 + TotalCost(ts[1..][..j]) <= limit;
        assert Charge(count, ts, limit).count == count + TotalCost(ts[..k + 1]);
        forall j | 0 < j < k + 1
          ensures count + TotalCost(ts[..j]) <= limit
        {
          if j > 1 {
            assert c1 + TotalCost(ts[1..][..j - 1]) <= limit;
          }
        }
      } else if !Charge(count, ts, limit).ok {
        assert Charge(count, ts, limit).count == count + TotalCost(ts[..1]);
      }
    }
  }

  /**
   * One round from lists of trees up to height `h` gives lists of trees up
   * to height `h + 1`: the "trees up to depth n+1" of `expand`, made exact.
   */
  lemma NextUpToHeight(g: Cfg, lgges: Languages, h: nat)
    requires g.WellFormed() && lgges.Keys == g.productions.Keys && h >= 1
    requires UpToHeight(g, lgges, h)
    ensures UpToHeight(g, Next(g, lgges), h + 1)
  {
    var next := Next(g, lgges);
    forall nt, t: Tree | nt in next
      ensures t in next[nt] <==> t.NonTerminal? && t.sym == nt && Derivation(g, t) && Height(t) <= h + 1
    {
      TreesForMembers(lgges, nt, g.productions[nt], t);
      if t in next[nt] {
        var rhs :| rhs in g.productions[nt] && t.children in Combos(lgges, rhs, 0);
        NewTreeIsDerivation(g, lgges, h, nt, rhs, t.children);
      }
      if t.NonTerminal? && t.sym == nt && Derivation(g, t) && Height(t) <= h + 1 {
        DerivationIsNewTree(g, lgges, h, t);
      }
    }
  }

  /** Empty lists hold exactly the derivation trees of height at most 1, of which there are none. */
  lemma EmptyValid(g: Cfg, lgges: Languages)
    requires lgges.Keys == g.productions.Keys && forall nt :: nt in lgges ==> lgges[nt] == []
    ensures UpToHeight(g, lgges, 1) && Below(lgges, Next(g, lgges))
  {
    forall nt, t: Tree | nt in lgges && t.NonTerminal?
      ensures Height(t) > 1
    {
    }
    forall nt | nt in lgges
      ensures multiset(lgges[nt]) <= multiset(Next(g, lgges)[nt])
    {
    }
  }

  /** What a round keeps: its lists are exact up to one more level and the next round only adds to them. */
  lemma NextValid(g: Cfg, lgges: Languages, h: nat)
    requires h >= 1 && Invariant(g, lgges, h - 1)
    ensures Invariant(g, Next(g, lgges), h)
  {
    NextUpToHeight(g, lgges, h);
    NextMono(g, lgges, Next(g, lgges));
  }

  /** A node over a children list of one of its productions is a derivation tree at most one taller. */
  lemma NewTreeIsDerivation(g: Cfg, lgges: Languages, h: nat, nt: string, rhs: seq<string>, s: seq<Tree>)
    requires lgges.Keys == g.productions.Keys && h >= 1 && UpToHeight(g, lgges, h)
    requires nt in g.productions && rhs in g.productions[nt] && s in Combos(lgges, rhs, 0)
    ensures Derivation(g, NonTerminal(nt, s)) && Height(NonTerminal(nt, s)) <= h + 1
  {
    CombosMembers(lgges, rhs, 0, s);
    forall j | 0 <= j < |s|
      ensures s[j].sym == rhs[j] && Derivation(g, s[j]) && Height(s[j]) <= h
    {
      assert Fits(lgges, rhs[j], s[j]);
    }
    assert Labels(s) == rhs;
    MaxHeightBounds(s);
  }

  /** A derivation tree at most one taller than the lists reach is built from them. */
  lemma DerivationIsNewTree(g: Cfg, lgges: Languages, h: nat, t: Tree)
    requires lgges.Keys == g.productions.Keys && UpToHeight(g, lgges, h)
    requires t.NonTerminal? && Derivation(g, t) && Height(t) <= h + 1
    ensures t.children in Combos(lgges, Labels(t.children), 0)
  {
    ChildrenBelow(g, h, t);
    ChildrenFit(g, lgges, h, t.children);
    CombosMembers(lgges, Labels(t.children), 0, t.children);
  }

  /** The children of a derivation tree are derivation trees one level shorter. */
  lemma ChildrenBelow(g: Cfg, h: nat, t: Tree)
    requires t.NonTerminal? && Derivation(g, t) && Height(t) <= h + 1
    ensures forall j :: 0 <= j < |t.children| ==> Derivation(g, t.children[j]) && Height(t.children[j]) <= h
  {
    HeightOfNode(t.sym, t.children);
  }

  /** Children that are derivation trees no taller than the lists reach fit their labels. */
  lemma ChildrenFit(g: Cfg, lgges: Languages, h: nat, s: seq<Tree>)
    requires lgges.Keys == g.productions.Keys && UpToHeight(g, lgges, h)
    requires forall j :: 0 <= j < |s| ==> Derivation(g, s[j]) && Height(s[j]) <= h
    ensures forall j :: 0 <= j < |s| ==> Fits(lgges, Labels(s)[j], s[j])
  {
    forall j | 0 <= j < |s|
      ensures Fits(lgges, Labels(s)[j], s[j])
    {
      ChildFits(g, lgges, h, s[j]);
    }
  }

  /** A derivation tree no taller than the lists reach is listed under its label, or is a leaf. */
  lemma ChildFits(g: Cfg, lgges: Languages, h: nat, c: Tree)
    requires lgges.Keys == g.productions.Keys && UpToHeight(g, lgges, h)
    requires Derivation(g, c) && Height(c) <= h
    ensures Fits(lgges, c.sym, c)
  {
    if c.sym in lgges {
      assert c.NonTerminal?;
      assert Listed(g, c.sym, h, c);
    }
  }

  /** After a round, the lists hold as many trees in all as the round built. */
  lemma {:induction false} SizeCountsNewTrees(g: Cfg, lgges: Languages, nts: seq<string>)
    requires forall nt :: nt in nts ==> nt in g.productions
    ensures TotalSize(nts, Next(g, lgges)) == |AllTrees(g, lgges, nts)|
    decreases |nts|
  {
    if nts != [] {
      SizeCountsNewTrees(g, lgges, nts[..|nts| - 1]);
    }
  }

  // ---------------------------------------------------------------------
  // Rounds only add trees, so a round that adds none finds them all

  /** How often a list occurs in `Prefixed(t, strs)`. */
  lemma {:induction false} PrefixedCount(t: Tree, strs: seq<seq<Tree>>, s: seq<Tree>)
    ensures multiset(Prefixed(t, strs))[s] == if |s| > 0 && s[0] == t then multiset(strs)[s[1..]] else 0
    decreases |strs|
  {
    if strs != [] {
      var init, last := strs[..|strs| - 1], strs[|strs| - 1];
      PrefixedCount(t, init, s);
      assert Prefixed(t, strs) == Prefixed(t, init) + [[t] + last];
      assert strs == init + [last];
      if |s| > 0 && s[0] == t {
        assert [t] + last == s <==> last == s[1..];
      } else {
        assert [t] + last != s;
      }
    }
  }

  /** How often a list occurs in `Product(ts, strs)`: its head's count times its tail's. */
  lemma {:induction false} ProductCount(ts: seq<Tree>, strs: seq<seq<Tree>>, s: seq<Tree>)
    ensures multiset(Product(ts, strs))[s] == if |s| > 0 then multiset(ts)[s[0]] * multiset(strs)[s[1..]] else 0
    decreases |ts|
  {
    if ts != [] {
      var init, last := ts[..|ts| - 1], ts[|ts| - 1];
      ProductCount(init, strs, s);
      PrefixedCount(last, strs, s);
      assert ts == init + [last];
      if |s| > 0 {
        var d: nat := if last == s[0] then 1 else 0;
        assert multiset(ts)[s[0]] == multiset(init)[s[0]] + d;
        AddMul(multiset(init)[s[0]], d, multiset(strs)[s[1..]]);
      }
    }
  }

  lemma AddMul(m: nat, d: nat, c: nat)
    requires d <= 1
    ensures (m + d) * c == m * c + (if d == 1 then c else 0)
  {
  }

  lemma MulMono(a: nat, b: nat, a': nat, b': nat)
    requires a <= a' && b <= b'
    ensures a * b <= a' * b'
  {
    assert a * b <= a' * b;
    assert a' * b <= a' * b';
  }

  /** Larger lists, duplicates counted, give more children lists. */
  lemma {:induction false} CombosMono(small: Languages, big: Languages, rhs: seq<string>, k: nat)
    requires small.Keys == big.Keys && Below(small, big) && k <= |rhs|
    ensures multiset(Combos(small, rhs, k)) <= multiset(Combos(big, rhs, k))
    decreases |rhs| - k
  {
    if k < |rhs| {
      CombosMono(small, big, rhs, k + 1);
      forall s
        ensures multiset(Combos(small, rhs, k))[s] <= multiset(Combos(big, rhs, k))[s]
      {
        CombosStepCount(small, big, rhs, k, s);
      }
    }
  }

  /** One symbol more on the left keeps the counts of `CombosMono` ordered. */
  lemma CombosStepCount(small: Languages, big: Languages, rhs: seq<string>, k: nat, s: seq<Tree>)
    requires small.Keys == big.Keys && Below(small, big) && k < |rhs|
    requires multiset(Combos(small, rhs, k + 1)) <= multiset(Combos(big, rhs, k + 1))
    ensures multiset(Combos(small, rhs, k))[s] <= multiset(Combos(big, rhs, k))[s]
  {
    var rest, rest' := Combos(small, rhs, k + 1), Combos(big, rhs, k + 1);
    if rhs[k] in small {
      ProductCount(small[rhs[k]], rest, s);
      ProductCount(big[rhs[k]], rest', s);
      if |s| > 0 {
        MulMono(multiset(small[rhs[k]])[s[0]], multiset(rest)[s[1..]], multiset(big[rhs[k]])[s[0]], multiset(rest')[s[1..]]);
      }
    } else {
      PrefixedCount(Terminal(rhs[k]), rest, s);
      PrefixedCount(Terminal(rhs[k]), rest', s);
    }
  }

  /** How often a tree occurs in `Nodes(nt, strs)`. */
  lemma {:induction false} NodesCount(nt: string, strs: seq<seq<Tree>>, t: Tree)
    ensures multiset(Nodes(nt, strs))[t] == if t.NonTerminal? && t.sym == nt then multiset(strs)[t.children] else 0
    decreases |strs|
  {
    if strs != [] {
      var init, last := strs[..|strs| - 1], strs[|strs| - 1];
      NodesCount(nt, init, t);
      assert Nodes(nt, strs) == Nodes(nt, init) + [NonTerminal(nt, last)];
      assert strs == init + [last];
    }
  }

  /** Larger lists, duplicates counted, give a larger new list for each nonterminal. */
  lemma {:induction false} TreesForMono(small: Languages, big: Languages, nt: string, rhss: seq<seq<string>>)
    requires small.Keys == big.Keys && Below(small, big)
    ensures multiset(TreesFor(small, nt, rhss)) <= multiset(TreesFor(big, nt, rhss))
    decreases |rhss|
  {
    if rhss != [] {
      var init, last := rhss[..|rhss| - 1], rhss[|rhss| - 1];
      TreesForMono(small, big, nt, init);
      CombosMono(small, big, last, 0);
      forall t
        ensures multiset(Nodes(nt, Combos(small, last, 0)))[t] <= multiset(Nodes(nt, Combos(big, last, 0)))[t]
      {
        NodesCount(nt, Combos(small, last, 0), t);
        NodesCount(nt, Combos(big, last, 0), t);
      }
    }
  }

  /** A round is monotone: larger lists before it give larger lists after it. */
  lemma NextMono(g: Cfg, small: Languages, big: Languages)
    requires small.Keys == big.Keys && Below(small, big)
    ensures Below(Next(g, small), Next(g, big))
  {
    forall nt | nt in Next(g, small)
      ensures multiset(Next(g, small)[nt]) <= multiset(Next(g, big)[nt])
    {
      TreesForMono(small, big, nt, g.productions[nt]);
    }
  }

  /** Lists below others have no larger total size; equal totals mean equal lists, duplicates counted. */
  lemma {:induction false} SizeBelow(nts: seq<string>, small: Languages, big: Languages)
    requires Below(small, big) && forall nt :: nt in nts ==> nt in small
    ensures TotalSize(nts, small) <= TotalSize(nts, big)
    ensures TotalSize(nts, small) == TotalSize(nts, big) ==>
      forall nt :: nt in nts ==> multiset(small[nt]) == multiset(big[nt])
    decreases |nts|
  {
    if nts != [] {
      var init, last := nts[..|nts| - 1], nts[|nts| - 1];
      SizeBelow(init, small, big);
      var a, b := multiset(small[last]), multiset(big[last]);
      assert |a| <= |b| by {
        assert b == a + (b - a);
      }
      if TotalSize(nts, small) == TotalSize(nts, big) {
        assert |a| == |b|;
        assert b == a + (b - a);
        assert b - a == multiset{};
        assert nts == init + [last];
      }
    }
  }

  /**
   * A derivation tree at least `h` tall contains one exactly `h` tall: a
   * node's height is 2 or one more than some child's.
   */
  lemma DerivationOfEveryHeight(g: Cfg, t: Tree, h: nat)
    requires t.NonTerminal? && Derivation(g, t) && 2 <= h <= Height(t)
    ensures exists u: Tree :: u.NonTerminal? && Derivation(g, u) && Height(u) == h
    decreases t
  {
    if Height(t) > h {
      HeightOfNode(t.sym, t.children);
      var i :| 0 <= i < |t.children| && Height(t.children[i]) == Height(t) - 1;
      var c := t.children[i];
      assert Derivation(g, c);
      DerivationOfEveryHeight(g, c, h);
    }
  }

  /**
   * The stop rule of the driver: when a round from lists up to height `h`
   * leaves the total size unchanged, the lists already hold every derivation
   * tree of every nonterminal, of any height.
   */
  lemma AllDerivationsFound(g: Cfg, lgges: Languages, h: nat)
    requires g.WellFormed() && lgges.Keys == g.productions.Keys && h >= 1
    requires UpToHeight(g, lgges, h) && Below(lgges, Next(g, lgges))
    requires TotalSize(g.lhss, Next(g, lgges)) == TotalSize(g.lhss, lgges)
    ensures AllDerivations(g, Next(g, lgges))
  {
    NextUpToHeight(g, lgges, h);
    SameMultisets(g, lgges);
    AllDerivationsFrom(g, lgges, Next(g, lgges), h);
  }

  /** Lists exact up to `h` and `h + 1` that are the same, duplicates counted, hold every derivation tree. */
  lemma AllDerivationsFrom(g: Cfg, lgges: Languages, next: Languages, h: nat)
    requires lgges.Keys == g.productions.Keys && next.Keys == lgges.Keys && h >= 1
    requires UpToHeight(g, lgges, h) && UpToHeight(g, next, h + 1)
    requires forall nt :: nt in lgges ==> multiset(lgges[nt]) == multiset(next[nt])
    ensures AllDerivations(g, next)
  {
    forall nt, t: Tree | nt in next && t.NonTerminal? && t.sym == nt && Derivation(g, t)
      ensures t in next[nt]
    {
      NoTallerDerivation(g, lgges, next, h, t);
      assert t in lgges[nt];
      assert t in multiset(next[nt]);
    }
  }

  /** The lists hold exactly the derivation trees of each nonterminal, of any height. */
  ghost predicate AllDerivations(g: Cfg, lgges: Languages)
  {
    forall nt, t :: nt in lgges ==> (t in lgges[nt] <==> t.NonTerminal? && t.sym == nt && Derivation(g, t))
  }

  /** A round that only adds trees but leaves the total size unchanged leaves every list the same, duplicates counted. */
  lemma SameMultisets(g: Cfg, lgges: Languages)
    requires g.WellFormed() && lgges.Keys == g.productions.Keys && Below(lgges, Next(g, lgges))
    requires TotalSize(g.lhss, Next(g, lgges)) == TotalSize(g.lhss, lgges)
    ensures forall nt :: nt in lgges ==> multiset(lgges[nt]) == multiset(Next(g, lgges)[nt])
  {
    SizeBelow(g.lhss, lgges, Next(g, lgges));
  }

  /** When a round adds no tree, no derivation tree is taller than the lists already reach. */
  lemma NoTallerDerivation(g: Cfg, lgges: Languages, next: Languages, h: nat, t: Tree)
    requires lgges.Keys == g.productions.Keys && h >= 1
    requires UpToHeight(g, lgges, h) && UpToHeight(g, next, h + 1) && next.Keys == lgges.Keys
    requires forall nt :: nt in lgges ==> multiset(lgges[nt]) == multiset(next[nt])
    requires t.NonTerminal? && Derivation(g, t)
    ensures Height(t) <= h
  {
    if Height(t) > h {
      DerivationOfEveryHeight(g, t, h + 1);
      var u: Tree :| u.NonTerminal? && Derivation(g, u) && Height(u) == h + 1;
      SameListsNoNewHeight(g, lgges, next, h, u);
      assert false;
    }
  }

  /** When a round adds no tree, a derivation tree within its reach is within the previous lists' reach. */
  lemma SameListsNoNewHeight(g: Cfg, lgges: Languages, next: Languages, h: nat, u: Tree)
    requires lgges.Keys == g.productions.Keys
    requires UpToHeight(g, lgges, h) && UpToHeight(g, next, h + 1) && next.Keys == lgges.Keys
    requires forall nt :: nt in lgges ==> multiset(lgges[nt]) == multiset(next[nt])
    requires u.NonTerminal? && Derivation(g, u) && Height(u) <= h + 1
    ensures Height(u) <= h
  {
    assert Listed(g, u.sym, h + 1, u);
    assert u in next[u.sym];
    assert u in multiset(lgges[u.sym]);
    assert u in lgges[u.sym];
    assert Listed(g, u.sym, h, u);
  }
}
