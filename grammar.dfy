/**
 * A context-free grammar (`Grammar`): the nonterminals in order of first
 * definition, and for each of them its productions in insertion order. A
 * symbol is a terminal exactly when it has no productions.
 */
module Grammar {
  import opened Wrappers

  /** The grammar's contents once built; every analysis reads this value. */
  datatype Cfg = Cfg(lhss: seq<string>, productions: map<string, seq<seq<string>>>) {

    /** `expansions(sym) != null`: the symbol has productions. */
    predicate IsNonTerminal(sym: string)
    {
      sym in productions
    }

    /** `getStart()`: the first nonterminal defined. */
    function Start(): string
      requires lhss != []
    {
      lhss[0]
    }

    /** `nonTerminals()`: the nonterminals in order of definition. */
    function NonTerminals(): seq<string>
    {
      lhss
    }

    /** `expansions(sym)`: the productions of a nonterminal, `None` (null) for any other symbol. */
    function Expansions(sym: string): Option<seq<seq<string>>>
    {
      if sym in productions then Some(productions[sym]) else None
    }

    /**
     * What `addProduction` guarantees: no nonterminal is listed twice, the
     * listed ones are exactly those with productions, and each has at least one.
     */
    ghost predicate WellFormed()
    {
      && (forall i, j :: 0 <= i < j < |lhss| ==> lhss[i] != lhss[j])
      && (forall nt :: nt in productions <==> nt in lhss)
      && (forall nt :: nt in productions ==> |productions[nt]| > 0)
    }

    /** The grammar after `addProduction(lhs, rhs)`. */
    function Add(lhs: string, rhs: seq<string>): Cfg
    {
      if lhs in productions then Cfg(lhss, productions[lhs := productions[lhs] + [rhs]])
      else Cfg(lhss + [lhs], productions[lhs := [rhs]])
    }
  }

  /** The empty grammar of `new Grammar()`. */
  const Empty: Cfg := Cfg([], map[])

  /** The grammar built by adding the given productions in order. */
  function Build(prods: seq<(string, seq<string>)>): Cfg
  {
    if prods == [] then Empty
    else Build(prods[..|prods| - 1]).Add(prods[|prods| - 1].0, prods[|prods| - 1].1)
  }

  /** The right-hand sides given for `nt`, in order. */
  function ProductionsOf(prods: seq<(string, seq<string>)>, nt: string): seq<seq<string>>
  {
    if prods == [] then []
    else ProductionsOf(prods[..|prods| - 1], nt) +
         (if prods[|prods| - 1].0 == nt then [prods[|prods| - 1].1] else [])
  }

  /** The index of the first production whose left-hand side is `nt`, or |prods| if none. */
  function FirstIndex(prods: seq<(string, seq<string>)>, nt: string): (k: nat)
    ensures k <= |prods| && (k < |prods| ==> prods[k].0 == nt)
    ensures forall i :: 0 <= i < k ==> prods[i].0 != nt
  {
    if prods == [] then 0 else if prods[0].0 == nt then 0 else 1 + FirstIndex(prods[1..], nt)
  }

  /** `expansions` answers null exactly for the symbols that are not listed nonterminals. */
  lemma ExpansionsIsTerminalTest(g: Cfg, sym: string)
    requires g.WellFormed()
    ensures g.Expansions(sym).None? <==> sym !in g.NonTerminals()
    ensures g.Expansions(sym).Some? ==> |g.Expansions(sym).value| > 0
  {
  }

  lemma {:induction false} BuildWellFormed(prods: seq<(string, seq<string>)>)
    ensures Build(prods).WellFormed()
  {
    if prods != [] {
      BuildWellFormed(prods[..|prods| - 1]);
    }
  }

  /** The start symbol is the left-hand side of the very first production added. */
  lemma {:induction false} BuildStart(prods: seq<(string, seq<string>)>)
    requires prods != []
    ensures Build(prods).lhss != [] && Build(prods).Start() == prods[0].0
  {
    if |prods| > 1 {
      BuildStart(prods[..|prods| - 1]);
    }
  }

  /**
   * Each nonterminal holds the right-hand sides given for it, in order and
   * with duplicates; a symbol never used as a left-hand side has none.
   */
  lemma {:induction false} BuildProductions(prods: seq<(string, seq<string>)>, nt: string)
    ensures nt in Build(prods).productions <==> exists i :: 0 <= i < |prods| && prods[i].0 == nt
    ensures nt in Build(prods).productions ==> Build(prods).productions[nt] == ProductionsOf(prods, nt)
  {
    if prods != [] {
      var init := prods[..|prods| - 1];
      BuildProductions(init, nt);
      assert forall i :: 0 <= i < |init| ==> init[i] == prods[i];
      if nt !in Build(init).productions {
        ProductionsOfAbsent(init, nt);
      }
    }
  }

  lemma {:induction false} ProductionsOfAbsent(prods: seq<(string, seq<string>)>, nt: string)
    requires forall i :: 0 <= i < |prods| ==> prods[i].0 != nt
    ensures ProductionsOf(prods, nt) == []
  {
    if prods != [] {
      ProductionsOfAbsent(prods[..|prods| - 1], nt);
    }
  }

  /**
   * The nonterminals are listed without repetition, exactly the left-hand
   * sides used, in order of their first appearance as a left-hand side.
   */
  lemma {:induction false} BuildNonTerminalOrder(prods: seq<(string, seq<string>)>)
    ensures forall nt :: nt in Build(prods).lhss <==> FirstIndex(prods, nt) < |prods|
    ensures forall i, j :: 0 <= i < j < |Build(prods).lhss| ==>
              FirstIndex(prods, Build(prods).lhss[i]) < FirstIndex(prods, Build(prods).lhss[j])
  {
    if prods != [] {
      var init := prods[..|prods| - 1];
      var last := prods[|prods| - 1];
      BuildNonTerminalOrder(init);
      BuildWellFormed(init);
      var l, l' := Build(init).lhss, Build(prods).lhss;
      forall nt | FirstIndex(init, nt) < |init|
        ensures FirstIndex(prods, nt) == FirstIndex(init, nt)
      {
        FirstIndexOfPrefix(init, prods, nt);
      }
      forall nt | FirstIndex(init, nt) == |init|
        ensures FirstIndex(prods, nt) == if nt == last.0 then |init| else |prods|
      {
        FirstIndexPastPrefix(init, prods, nt);
      }
      if last.0 !in l {
        assert l' == l + [last.0];
        forall i, j | 0 <= i < j < |l'|
          ensures FirstIndex(prods, l'[i]) < FirstIndex(prods, l'[j])
        {
          if j == |l| {
            assert l'[i] == l[i] && l[i] in l;
          } else {
            assert l'[i] == l[i] && l'[j] == l[j] && l[i] in l && l[j] in l;
          }
        }
      }
    }
  }

  lemma {:induction false} FirstIndexOfPrefix(init: seq<(string, seq<string>)>, prods: seq<(string, seq<string>)>, nt: string)
    requires init <= prods
    requires FirstIndex(init, nt) < |init|
    ensures FirstIndex(prods, nt) == FirstIndex(init, nt)
  {
    if init[0].0 != nt {
      assert init[1..] <= prods[1..];
      FirstIndexOfPrefix(init[1..], prods[1..], nt);
    }
  }

  lemma {:induction false} FirstIndexPastPrefix(init: seq<(string, seq<string>)>, prods: seq<(string, seq<string>)>, nt: string)
    requires |prods| == |init| + 1 && init <= prods
    requires FirstIndex(init, nt) == |init|
    ensures FirstIndex(prods, nt) == if nt == prods[|init|].0 then |init| else |prods|
  {
    if init != [] {
      assert init[1..] <= prods[1..];
      FirstIndexPastPrefix(init[1..], prods[1..], nt);
    }
  }

  /** `Grammar`: built by `addProduction`, then only read. */
  class Grammar {
    var lhss: seq<string>
    var productions: map<string, seq<seq<string>>>

    function Frozen(): Cfg
      reads this
    {
      Cfg(lhss, productions)
    }

    ghost predicate Valid()
      reads this
    {
      Frozen().WellFormed()
    }

    constructor ()
      ensures Valid() && Frozen() == Empty
    {
      lhss := [];
      productions := map[];
    }

    /**
     * `addProduction(lhs, rhs)`: appends `rhs` to the productions of `lhs`,
     * listing `lhs` as a new nonterminal the first time it is seen; every other
     * nonterminal keeps its productions.
     */
    method AddProduction(lhs: string, rhs: seq<string>)
      requires Valid()
      modifies this
      ensures Valid() && Frozen() == old(Frozen()).Add(lhs, rhs)
      ensures lhss == if lhs in old(productions) then old(lhss) else old(lhss) + [lhs]
      ensures productions.Keys == old(productions).Keys + {lhs}
      ensures productions[lhs] == (if lhs in old(productions) then old(productions)[lhs] else []) + [rhs]
      ensures forall nt :: nt in old(productions) && nt != lhs ==> productions[nt] == old(productions)[nt]
    {
      if lhs in productions {
        productions := productions[lhs := productions[lhs] + [rhs]];
      } else {
        lhss := lhss + [lhs];
        productions := productions[lhs := [rhs]];
      }
    }
  }
}
