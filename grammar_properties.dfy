/**
 * Statically computable properties of a grammar (`GrammarProperties`):
 * unreachable, unrealizable, nullable and cyclic nonterminals, and whether
 * some string has infinitely many derivations. Each set is computed by the
 * source's worklist or `while (changed)` loop and characterised here as a
 * fixed point together with the leastness that makes it the intended one.
 */
module GrammarProperties {
  import opened Grammar

  // ---------------------------------------------------------------------
  // Specifications

  /** `sym` occurs in some production of `nt`. */
  ghost predicate Uses(g: Cfg, nt: string, sym: string)
  {
    nt in g.productions && exists rhs :: rhs in g.productions[nt] && sym in rhs
  }

  /** A set holding the start symbol and every nonterminal used by one of its members. */
  ghost predicate ReachClosed(g: Cfg, r: set<string>)
    requires g.lhss != []
  {
    && g.Start() in r
    && forall nt, sym :: nt in r && Uses(g, nt, sym) && g.IsNonTerminal(sym) ==> sym in r
  }

  /** The unreachable set: the nonterminals outside the least reach-closed set. */
  ghost predicate IsUnreachableSet(g: Cfg, u: set<string>)
    requires g.lhss != []
  {
    && u <= g.productions.Keys
    && ReachClosed(g, g.productions.Keys - u)
    && forall r :: ReachClosed(g, r) ==> g.productions.Keys - u <= r
  }

  /** No symbol of `rhs` is in `s`. */
  predicate Avoids(rhs: seq<string>, s: set<string>)
  {
    forall i :: 0 <= i < |rhs| ==> rhs[i] !in s
  }

  /** Some production avoids `s`. */
  predicate SomeAvoids(prods: seq<seq<string>>, s: set<string>)
  {
    exists k :: 0 <= k < |prods| && Avoids(prods[k], s)
  }

  /** A set of realizable nonterminals: it holds `nt` whenever some production of `nt` uses only terminals and members. */
  ghost predicate RealizeClosed(g: Cfg, r: set<string>)
  {
    forall nt :: nt in g.productions && SomeAvoids(g.productions[nt], g.productions.Keys - r) ==> nt in r
  }

  /**
   * The unrealizable set: a nonterminal is outside it iff one of its
   * productions avoids it, and what is outside it lies in every
   * realize-closed set (it is built from terminals in finitely many steps).
   */
  ghost predicate IsUnrealizableSet(g: Cfg, u: set<string>)
  {
    && u <= g.productions.Keys
    && (forall nt :: nt in g.productions ==> (nt !in u <==> SomeAvoids(g.productions[nt], u)))
    && forall r :: RealizeClosed(g, r) ==> g.productions.Keys - u <= r
  }

  /** Every symbol of `rhs` is in `s`. */
  predicate Within(rhs: seq<string>, s: set<string>)
  {
    forall i :: 0 <= i < |rhs| ==> rhs[i] in s
  }

  /** Some production lies within `s`. */
  predicate SomeWithin(prods: seq<seq<string>>, s: set<string>)
  {
    exists k :: 0 <= k < |prods| && Within(prods[k], s)
  }

  /** A set holding every nonterminal with a production made only of members. */
  ghost predicate NullClosed(g: Cfg, r: set<string>)
  {
    forall nt :: nt in g.productions && SomeWithin(g.productions[nt], r) ==> nt in r
  }

  /**
   * The nullable set: a nonterminal is in it iff one of its productions
   * consists of members only, and it lies in every null-closed set.
   */
  ghost predicate IsNullableSet(g: Cfg, n: set<string>)
  {
    && n <= g.productions.Keys
    && (forall nt :: nt in g.productions ==> (nt in n <==> SomeWithin(g.productions[nt], n)))
    && forall r :: NullClosed(g, r) ==> n <= r
  }

  // ---------------------------------------------------------------------
  // Unreachable

  /**
   * The inner loops of the traversal: every nonterminal occurring in a
   * production of `nt` is appended to the queue (terminals are skipped).
   */
  method EnqueueUsed(g: Cfg, nt: string, queue: seq<string>) returns (q: seq<string>)
    requires nt in g.productions
    ensures |q| >= |queue| && q[..|queue|] == queue
    ensures forall i :: |queue| <= i < |q| ==> Uses(g, nt, q[i]) && g.IsNonTerminal(q[i])
    ensures forall sym :: Uses(g, nt, sym) && g.IsNonTerminal(sym) ==> sym in q
  {
    var prods := g.productions[nt];
    q := queue;
    for k := 0 to |prods|
      invariant |q| >= |queue| && q[..|queue|] == queue
      invariant forall i :: |queue| <= i < |q| ==> Uses(g, nt, q[i]) && g.IsNonTerminal(q[i])
      invariant forall k', sym :: 0 <= k' < k && sym in prods[k'] && g.IsNonTerminal(sym) ==> sym in q
    {
      var rhs := prods[k];
      for i := 0 to |rhs|
        invariant |q| >= |queue| && q[..|queue|] == queue
        invariant forall i :: |queue| <= i < |q| ==> Uses(g, nt, q[i]) && g.IsNonTerminal(q[i])
        invariant forall k', sym :: 0 <= k' < k && sym in prods[k'] && g.IsNonTerminal(sym) ==> sym in q
        invariant forall i' :: 0 <= i' < i && g.IsNonTerminal(rhs[i']) ==> rhs[i'] in q
      {
        if g.IsNonTerminal(rhs[i]) {
          assert rhs in g.productions[nt] && rhs[i] in rhs;
          q := q + [rhs[i]];
        }
      }
    }
  }

  /** `complement(s)`: the listed nonterminals not in `s`. */
  method Complement(g: Cfg, s: set<string>) returns (rest: set<string>)
    requires g.WellFormed()
    ensures rest == g.productions.Keys - s
  {
    rest := {};
    for i := 0 to |g.lhss|
      invariant rest == (set j | 0 <= j < i :: g.lhss[j]) - s
    {
      if g.lhss[i] !in s {
        rest := rest + {g.lhss[i]};
      }
    }
    assert forall nt :: nt in g.productions ==> exists j :: 0 <= j < |g.lhss| && g.lhss[j] == nt;
  }

  /** `computeUnreachable`: breadth-first traversal from the start symbol, then the complement. */
  method ComputeUnreachable(g: Cfg) returns (unreachable: set<string>)
    requires g.WellFormed() && g.lhss != []
    ensures IsUnreachableSet(g, unreachable)
  {
    var keys := g.productions.Keys;
    var reachable: set<string> := {};
    var queue := [g.Start()];
    while queue != []
      invariant reachable <= keys && forall i :: 0 <= i < |queue| ==> queue[i] in keys
      invariant g.Start() in reachable || g.Start() in queue
      invariant forall nt, sym :: nt in reachable && Uses(g, nt, sym) && g.IsNonTerminal(sym) ==>
                  sym in reachable || sym in queue
      invariant forall r :: ReachClosed(g, r) ==> reachable <= r && forall i :: 0 <= i < |queue| ==> queue[i] in r
      decreases keys - reachable, |queue|
    {
      var nt := queue[0];
      queue := queue[1..];
      if nt !in reachable {
        ghost var before := queue;
        reachable := reachable + {nt};
        queue := EnqueueUsed(g, nt, queue);
        forall r | ReachClosed(g, r)
          ensures forall i :: 0 <= i < |queue| ==> queue[i] in r
        {
          forall i | 0 <= i < |queue| ensures queue[i] in r {
            if i < |before| { assert queue[i] == before[i]; }
          }
        }
      }
    }
    unreachable := Complement(g, reachable);
  }

  // ---------------------------------------------------------------------
  // Unrealizable

  /** The innermost loop: a production is realizable when none of its symbols is unrealizable. */
  method AvoidsLoop(rhs: seq<string>, s: set<string>) returns (ok: bool)
    ensures ok == Avoids(rhs, s)
  {
    ok := true;
    for i := 0 to |rhs|
      invariant Avoids(rhs[..i], s)
    {
      if rhs[i] in s {
        return false;
      }
    }
    assert rhs[..|rhs|] == rhs;
  }

  /** The loop over the productions of one nonterminal, stopping at the first realizable one. */
  method SomeAvoidsLoop(prods: seq<seq<string>>, s: set<string>) returns (realizable: bool)
    ensures realizable == SomeAvoids(prods, s)
  {
    realizable := false;
    for k := 0 to |prods|
      invariant forall k' :: 0 <= k' < k ==> !Avoids(prods[k'], s)
    {
      realizable := AvoidsLoop(prods[k], s);
      if realizable {
        return;
      }
    }
  }

  /** One pass of the `for (nt : unrealizable)` loop: finds some member with a realizable production. */
  method FindRealizable(g: Cfg, u: set<string>) returns (found: bool, nt: string)
    requires u <= g.productions.Keys
    ensures found ==> nt in u && SomeAvoids(g.productions[nt], u)
    ensures !found ==> forall x :: x in u ==> !SomeAvoids(g.productions[x], u)
  {
    var todo := u;
    while todo != {}
      invariant todo <= u
      invariant forall x :: x in u - todo ==> !SomeAvoids(g.productions[x], u)
    {
      var x :| x in todo;
      var realizable := SomeAvoidsLoop(g.productions[x], u);
      if realizable {
        return true, x;
      }
      todo := todo - {x};
    }
    return false, "";
  }

  lemma SomeAvoidsShrinks(prods: seq<seq<string>>, s: set<string>, t: set<string>)
    requires t <= s && SomeAvoids(prods, s)
    ensures SomeAvoids(prods, t)
  {
    var k :| 0 <= k < |prods| && Avoids(prods[k], s);
    assert Avoids(prods[k], t);
  }

  /** `computeUnrealizable`: start from every nonterminal and remove realizable ones one at a time. */
  method ComputeUnrealizable(g: Cfg) returns (unrealizable: set<string>)
    requires g.WellFormed()
    ensures IsUnrealizableSet(g, unrealizable)
  {
    var keys := g.productions.Keys;
    unrealizable := set i | 0 <= i < |g.lhss| :: g.lhss[i];
    assert unrealizable == keys by {
      assert forall nt :: nt in keys ==> exists j :: 0 <= j < |g.lhss| && g.lhss[j] == nt;
    }
    var changed := true;
    while changed
      invariant unrealizable <= keys
      invariant forall nt :: nt in keys - unrealizable ==> SomeAvoids(g.productions[nt], unrealizable)
      invariant forall r :: RealizeClosed(g, r) ==> keys - unrealizable <= r
      invariant !changed ==> forall nt :: nt in unrealizable ==> !SomeAvoids(g.productions[nt], unrealizable)
      decreases |unrealizable| + (if changed then 1 else 0)
    {
      changed := false;
      var found, nt := FindRealizable(g, unrealizable);
      if found {
        ghost var before := unrealizable;
        unrealizable := unrealizable - {nt};
        changed := true;
        forall x | x in keys - unrealizable
          ensures SomeAvoids(g.productions[x], unrealizable)
        {
          SomeAvoidsShrinks(g.productions[x], before, unrealizable);
        }
        forall r | RealizeClosed(g, r)
          ensures keys - unrealizable <= r
        {
          assert keys - r <= before;
          SomeAvoidsShrinks(g.productions[nt], before, keys - r);
        }
      }
    }
  }

  // ---------------------------------------------------------------------
  // Nullable

  /** The innermost loop: a production is empty when all of its symbols are nullable. */
  method WithinLoop(rhs: seq<string>, s: set<string>) returns (ok: bool)
    ensures ok == Within(rhs, s)
  {
    ok := true;
    for i := 0 to |rhs|
      invariant Within(rhs[..i], s)
    {
      if rhs[i] !in s {
        return false;
      }
    }
    assert rhs[..|rhs|] == rhs;
  }

  /** The loop over the productions of one nonterminal, stopping at the first empty one. */
  method SomeWithinLoop(prods: seq<seq<string>>, s: set<string>) returns (empty: bool)
    ensures empty == SomeWithin(prods, s)
  {
    empty := false;
    for k := 0 to |prods|
      invariant forall k' :: 0 <= k' < k ==> !Within(prods[k'], s)
    {
      empty := WithinLoop(prods[k], s);
      if empty {
        return;
      }
    }
  }

  /** One pass of the `for (nt : nonTerminals())` loop: the first non-member with an empty production. */
  method FindNullable(g: Cfg, n: set<string>) returns (found: bool, nt: string)
    requires g.WellFormed()
    ensures found ==> nt in g.productions && nt !in n && SomeWithin(g.productions[nt], n)
    ensures !found ==> forall x :: x in g.productions && x !in n ==> !SomeWithin(g.productions[x], n)
  {
    for i := 0 to |g.lhss|
      invariant forall j :: 0 <= j < i && g.lhss[j] !in n ==> !SomeWithin(g.productions[g.lhss[j]], n)
    {
      var x := g.lhss[i];
      if x !in n {
        var empty := SomeWithinLoop(g.productions[x], n);
        if empty {
          return true, x;
        }
      }
    }
    assert forall x :: x in g.productions ==> exists j :: 0 <= j < |g.lhss| && g.lhss[j] == x;
    return false, "";
  }

  lemma SomeWithinGrows(prods: seq<seq<string>>, s: set<string>, t: set<string>)
    requires s <= t && SomeWithin(prods, s)
    ensures SomeWithin(prods, t)
  {
    var k :| 0 <= k < |prods| && Within(prods[k], s);
    assert Within(prods[k], t);
  }

  /** `computeNullable`: start from nothing and add nullable nonterminals one at a time. */
  method ComputeNullable(g: Cfg) returns (nullable: set<string>)
    requires g.WellFormed()
    ensures IsNullableSet(g, nullable)
  {
    var keys := g.productions.Keys;
    nullable := {};
    var changed := true;
    while changed
      invariant nullable <= keys
      invariant forall nt :: nt in nullable ==> SomeWithin(g.productions[nt], nullable)
      invariant forall r :: NullClosed(g, r) ==> nullable <= r
      invariant !changed ==> forall nt :: nt in keys - nullable ==> !SomeWithin(g.productions[nt], nullable)
      decreases |keys - nullable| + (if changed then 1 else 0)
    {
      changed := false;
      var found, nt := FindNullable(g, nullable);
      if found {
        ghost var before := nullable;
        nullable := nullable + {nt};
        changed := true;
        assert keys - nullable == (keys - before) - {nt};
        forall x | x in nullable
          ensures SomeWithin(g.productions[x], nullable)
        {
          SomeWithinGrows(g.productions[x], before, nullable);
        }
        forall r | NullClosed(g, r)
          ensures nullable <= r
        {
          SomeWithinGrows(g.productions[nt], before, r);
        }
      }
    }
  }

  // ---------------------------------------------------------------------
  // Cyclic

  /** The number of symbols of `rhs` outside `n`, counted left to right (`nonNullCount`). */
  function NonNullCount(rhs: seq<string>, n: set<string>): nat
  {
    if rhs == [] then 0 else NonNullCount(rhs[..|rhs| - 1], n) + (if rhs[|rhs| - 1] in n then 0 else 1)
  }

  /**
   * What one production adds to its nonterminal's trivial-expansion set: all
   * of its symbols when every one is nullable, the one non-nullable symbol
   * when there is exactly one and it is a nonterminal, otherwise nothing.
   */
  function Contribution(g: Cfg, n: set<string>, rhs: seq<string>): set<string>
  {
    var c := NonNullCount(rhs, n);
    if c == 0 then set i | 0 <= i < |rhs| :: rhs[i]
    else if c == 1 then set i | 0 <= i < |rhs| && g.IsNonTerminal(rhs[i]) && rhs[i] !in n :: rhs[i]
    else {}
  }

  /** The trivial-expansion set of a nonterminal with productions `prods`. */
  function TrivialSet(g: Cfg, n: set<string>, prods: seq<seq<string>>): set<string>
  {
    if prods == [] then {} else TrivialSet(g, n, prods[..|prods| - 1]) + Contribution(g, n, prods[|prods| - 1])
  }

  /** The `trivialExpansion` map before closing: only nonterminals with a non-empty set are keys. */
  function TrivialExpansions(g: Cfg, n: set<string>): map<string, set<string>>
  {
    map nt | nt in g.productions && TrivialSet(g, n, g.productions[nt]) != {} :: TrivialSet(g, n, g.productions[nt])
  }

  /** `f[t] <= f[nt]` whenever `t` is in `f[nt]` and has a set. */
  ghost predicate TransitivelyClosed(f: map<string, set<string>>)
  {
    forall nt, t :: nt in f && t in f[nt] && t in f ==> f[t] <= f[nt]
  }

  /** A transitively closed family over the same keys that extends `te`. */
  ghost predicate ClosedFamily(te: map<string, set<string>>, f: map<string, set<string>>)
  {
    && f.Keys == te.Keys
    && (forall nt :: nt in te ==> te[nt] <= f[nt])
    && TransitivelyClosed(f)
  }

  /** `f` lies below every closed family extending `te`. */
  ghost predicate BelowClosed(te: map<string, set<string>>, f: map<string, set<string>>)
  {
    forall h :: ClosedFamily(te, h) ==> forall nt :: nt in f && nt in h ==> f[nt] <= h[nt]
  }

  /**
   * `nt` derives itself in one or more trivial steps: it is in its own set
   * in every closed family extending the trivial expansions.
   */
  ghost predicate InOwnClosure(te: map<string, set<string>>, nt: string)
  {
    nt in te && forall h :: ClosedFamily(te, h) ==> nt in h[nt]
  }

  ghost predicate IsCyclicSet(g: Cfg, n: set<string>, c: set<string>)
  {
    && c <= g.productions.Keys
    && forall nt :: nt in c <==> InOwnClosure(TrivialExpansions(g, n), nt)
  }

  /** Every symbol any trivial-expansion set can hold. */
  ghost function Targets(te: map<string, set<string>>): set<string>
  {
    set nt, s | nt in te && s in te[nt] :: s
  }

  /** The (key, target) pairs still absent from `f`: the closure's termination measure. */
  ghost function Missing(te: map<string, set<string>>, f: map<string, set<string>>): set<(string, string)>
  {
    set nt, s | nt in f && s in Targets(te) && s !in f[nt] :: (nt, s)
  }

  /** `f` extends `te` pointwise, within the targets, over the same keys. */
  ghost predicate Between(te: map<string, set<string>>, f: map<string, set<string>>)
  {
    && f.Keys == te.Keys
    && forall nt :: nt in f ==> te[nt] <= f[nt] <= Targets(te)
  }

  /** The count of non-nullable symbols is 0 exactly when every symbol is nullable. */
  lemma {:induction false} NonNullCountZero(rhs: seq<string>, n: set<string>)
    ensures NonNullCount(rhs, n) == 0 <==> Within(rhs, n)
  {
    if rhs != [] {
      var init := rhs[..|rhs| - 1];
      NonNullCountZero(init, n);
      assert forall i :: 0 <= i < |init| ==> init[i] == rhs[i];
    }
  }

  lemma {:induction false} NonNullCountOne(rhs: seq<string>, n: set<string>, j: nat)
    requires j < |rhs| && rhs[j] !in n
    requires forall i :: 0 <= i < |rhs| && i != j ==> rhs[i] in n
    ensures NonNullCount(rhs, n) == 1
  {
    var init := rhs[..|rhs| - 1];
    assert forall i :: 0 <= i < |init| ==> init[i] == rhs[i];
    if j == |rhs| - 1 {
      NonNullCountZero(init, n);
    } else {
      NonNullCountOne(init, n, j);
    }
  }

  lemma {:induction false} NonNullCountTwo(rhs: seq<string>, n: set<string>, i: nat, j: nat)
    requires i < j < |rhs| && rhs[i] !in n && rhs[j] !in n
    ensures NonNullCount(rhs, n) >= 2
  {
    var init := rhs[..|rhs| - 1];
    assert forall k :: 0 <= k < |init| ==> init[k] == rhs[k];
    if j == |rhs| - 1 {
      NonNullCountPositive(init, n, i);
    } else {
      NonNullCountTwo(init, n, i, j);
    }
  }

  lemma {:induction false} NonNullCountPositive(rhs: seq<string>, n: set<string>, i: nat)
    requires i < |rhs| && rhs[i] !in n
    ensures NonNullCount(rhs, n) >= 1
  {
    NonNullCountZero(rhs, n);
  }

  /**
   * The trivial-expansion rule: an all-nullable production contributes all of
   * its symbols; one with a single non-nullable symbol contributes that symbol
   * if it is a nonterminal; one with two or more contributes nothing.
   */
  lemma TrivialExpansionRule(g: Cfg, n: set<string>, rhs: seq<string>)
    ensures Within(rhs, n) ==> Contribution(g, n, rhs) == set i | 0 <= i < |rhs| :: rhs[i]
    ensures forall j :: 0 <= j < |rhs| && rhs[j] !in n && (forall i :: 0 <= i < |rhs| && i != j ==> rhs[i] in n) ==>
              Contribution(g, n, rhs) == if g.IsNonTerminal(rhs[j]) then {rhs[j]} else {}
    ensures forall i, j :: 0 <= i < j < |rhs| && rhs[i] !in n && rhs[j] !in n ==> Contribution(g, n, rhs) == {}
  {
    NonNullCountZero(rhs, n);
    forall j | 0 <= j < |rhs| && rhs[j] !in n && (forall i :: 0 <= i < |rhs| && i != j ==> rhs[i] in n)
      ensures Contribution(g, n, rhs) == if g.IsNonTerminal(rhs[j]) then {rhs[j]} else {}
    {
      NonNullCountOne(rhs, n, j);
    }
    forall i, j | 0 <= i < j < |rhs| && rhs[i] !in n && rhs[j] !in n
      ensures Contribution(g, n, rhs) == {}
    {
      NonNullCountTwo(rhs, n, i, j);
    }
  }

  lemma {:induction false} ContributionInTrivialSet(g: Cfg, n: set<string>, prods: seq<seq<string>>, k: nat)
    requires k < |prods|
    ensures Contribution(g, n, prods[k]) <= TrivialSet(g, n, prods)
  {
    if k < |prods| - 1 {
      var init := prods[..|prods| - 1];
      assert init[k] == prods[k];
      ContributionInTrivialSet(g, n, init, k);
    }
  }

  /** The `nonNullCount` loop. */
  method CountNonNull(rhs: seq<string>, n: set<string>) returns (count: nat)
    ensures count == NonNullCount(rhs, n)
  {
    count := 0;
    for i := 0 to |rhs|
      invariant count == NonNullCount(rhs[..i], n)
    {
      assert rhs[..i + 1][..i] == rhs[..i];
      if rhs[i] !in n {
        count := count + 1;
      }
    }
    assert rhs[..|rhs|] == rhs;
  }

  /** The loop over one nonterminal's productions that fills its trivial-expansion set. */
  method TrivialSetLoop(g: Cfg, n: set<string>, prods: seq<seq<string>>) returns (s: set<string>)
    ensures s == TrivialSet(g, n, prods)
  {
    s := {};
    for k := 0 to |prods|
      invariant s == TrivialSet(g, n, prods[..k])
    {
      assert prods[..k + 1][..k] == prods[..k];
      var rhs := prods[k];
      var nonNullCount := CountNonNull(rhs, n);
      if nonNullCount == 0 {
        s := s + set i | 0 <= i < |rhs| :: rhs[i];
      } else if nonNullCount == 1 {
        ghost var before := s;
        for i := 0 to |rhs|
          invariant s == before + set i' | 0 <= i' < i && g.IsNonTerminal(rhs[i']) && rhs[i'] !in n :: rhs[i']
        {
          if g.IsNonTerminal(rhs[i]) && rhs[i] !in n {
            s := s + {rhs[i]};
          }
        }
      }
    }
    assert prods[..|prods|] == prods;
  }

  /** The first loop of `computeCyclic`: one trivial-expansion set per nonterminal, kept when non-empty. */
  method BuildTrivialExpansions(g: Cfg, n: set<string>) returns (te: map<string, set<string>>)
    requires g.WellFormed()
    ensures te == TrivialExpansions(g, n)
  {
    te := map[];
    for i := 0 to |g.lhss|
      invariant forall nt :: nt in te ==> nt in g.lhss[..i]
      invariant forall nt :: nt in te ==> nt in g.productions && te[nt] == TrivialSet(g, n, g.productions[nt]) != {}
      invariant forall j :: 0 <= j < i && TrivialSet(g, n, g.productions[g.lhss[j]]) != {} ==> g.lhss[j] in te
    {
      var nt := g.lhss[i];
      var s := TrivialSetLoop(g, n, g.productions[nt]);
      if s != {} {
        te := te[nt := s];
      }
      assert g.lhss[..i + 1] == g.lhss[..i] + [nt];
    }
    assert g.lhss[..|g.lhss|] == g.lhss;
    TrivialExpansionsFromParts(g, n, te);
  }

  /** A map holding exactly the non-empty trivial sets, each under its nonterminal, is `TrivialExpansions`. */
  lemma TrivialExpansionsFromParts(g: Cfg, n: set<string>, te: map<string, set<string>>)
    requires g.WellFormed()
    requires forall nt :: nt in te ==> nt in g.productions && te[nt] == TrivialSet(g, n, g.productions[nt]) != {}
    requires forall j :: 0 <= j < |g.lhss| && TrivialSet(g, n, g.productions[g.lhss[j]]) != {} ==> g.lhss[j] in te
    ensures te == TrivialExpansions(g, n)
  {
    forall nt | nt in g.productions && TrivialSet(g, n, g.productions[nt]) != {}
      ensures nt in te
    {
      var j :| 0 <= j < |g.lhss| && g.lhss[j] == nt;
    }
  }

  lemma SameSizeSubset(a: set<string>, b: set<string>)
    requires a <= b && |b| <= |a|
    ensures a == b
  {
    assert b == a + (b - a);
    assert |b| == |a| + |b - a|;
  }

  /**
   * The inner loop for one key: `exp.addAll` of the set of each target in a
   * copy of `exp`, reading the map as it is being updated.
   */
  method AbsorbTargets(te: map<string, set<string>>, f: map<string, set<string>>, nt: string)
    returns (f': map<string, set<string>>)
    requires nt in f && Between(te, f) && BelowClosed(te, f)
    ensures Between(te, f') && BelowClosed(te, f')
    ensures forall x :: x in f ==> f[x] <= f'[x]
    ensures forall x :: x in f && x != nt ==> f'[x] == f[x]
    ensures forall t :: t in f[nt] && t in f' ==> f'[t] <= f'[nt]
  {
    f' := f;
    var clone := f[nt];
    var pending := clone;
    while pending != {}
      invariant pending <= clone
      invariant Between(te, f') && BelowClosed(te, f')
      invariant forall x :: x in f ==> f[x] <= f'[x]
      invariant forall x :: x in f && x != nt ==> f'[x] == f[x]
      invariant forall t :: t in clone - pending && t in f' ==> f'[t] <= f'[nt]
    {
      var target :| target in pending;
      if target in f' {
        AbsorbOne(te, f, f', nt, target);
        f' := f'[nt := f'[nt] + f'[target]];
      }
      pending := pending - {target};
    }
  }

  /** Adding the set of one target of `nt` to the set of `nt` keeps the map between `te` and every closed family. */
  lemma AbsorbOne(te: map<string, set<string>>, f: map<string, set<string>>, g: map<string, set<string>>, nt: string, target: string)
    requires f.Keys == g.Keys && nt in f && nt in g && target in f[nt] && target in g
    requires Between(te, g) && BelowClosed(te, g)
    requires forall x :: x in f ==> f[x] <= g[x]
    ensures Between(te, g[nt := g[nt] + g[target]]) && BelowClosed(te, g[nt := g[nt] + g[target]])
    ensures forall x :: x in f ==> f[x] <= g[nt := g[nt] + g[target]][x]
  {
    var g' := g[nt := g[nt] + g[target]];
    forall h | ClosedFamily(te, h)
      ensures forall x :: x in g' && x in h ==> g'[x] <= h[x]
    {
      assert target in h[nt];
    }
  }

  /** One pass of the `while (changed)` loop over every key of the map. */
  method ClosurePass(te: map<string, set<string>>, f: map<string, set<string>>)
    returns (f': map<string, set<string>>, changed: bool)
    requires Between(te, f) && BelowClosed(te, f)
    ensures Between(te, f') && BelowClosed(te, f')
    ensures forall x :: x in f ==> f[x] <= f'[x]
    ensures !changed ==> f' == f && TransitivelyClosed(f')
    ensures changed ==> exists x :: x in f && f'[x] != f[x]
  {
    f' := f;
    changed := false;
    var todo := f.Keys;
    while todo != {}
      invariant todo <= f.Keys
      invariant Between(te, f') && BelowClosed(te, f')
      invariant forall x :: x in f ==> f[x] <= f'[x]
      invariant !changed ==> f' == f
      invariant !changed ==> forall x, t :: x in f && x !in todo && t in f'[x] && t in f' ==> f'[t] <= f'[x]
      invariant changed ==> exists x :: x in f && f'[x] != f[x]
    {
      var nt :| nt in todo;
      var expClone := f'[nt];
      ghost var prev := f';
      f' := AbsorbTargets(te, f', nt);
      if |f'[nt]| > |expClone| {
        changed := true;
      } else if !changed {
        SameSizeSubset(expClone, f'[nt]);
        assert f' == prev;
      }
      todo := todo - {nt};
    }
  }

  /** The transitive-closure loop of `computeCyclic`. */
  method CloseTrivialExpansions(te: map<string, set<string>>) returns (f: map<string, set<string>>)
    ensures ClosedFamily(te, f) && BelowClosed(te, f)
  {
    f := te;
    var changed := true;
    while changed
      invariant Between(te, f) && BelowClosed(te, f)
      invariant !changed ==> TransitivelyClosed(f)
      decreases Missing(te, f), if changed then 1 else 0
    {
      ghost var prev := f;
      f, changed := ClosurePass(te, f);
      if changed {
        ghost var x :| x in prev && f[x] != prev[x];
        ghost var s :| s in f[x] && s !in prev[x];
        assert (x, s) in Missing(te, prev) - Missing(te, f);
        assert Missing(te, f) <= Missing(te, prev);
      }
    }
  }

  /** `computeCyclic`: the nonterminals that occur in their own closed trivial-expansion set. */
  method ComputeCyclic(g: Cfg, nullable: set<string>) returns (cyclic: set<string>)
    requires g.WellFormed()
    ensures IsCyclicSet(g, nullable, cyclic)
  {
    var te := BuildTrivialExpansions(g, nullable);
    var f := CloseTrivialExpansions(te);
    cyclic := {};
    var todo := f.Keys;
    while todo != {}
      invariant todo <= f.Keys
      invariant forall nt :: nt in cyclic <==> nt in f && nt !in todo && nt in f[nt]
    {
      var nt :| nt in todo;
      if nt in f[nt] {
        cyclic := cyclic + {nt};
      }
      todo := todo - {nt};
    }
    CyclicFromClosure(te, f, cyclic);
  }

  /** Reading the cyclic nonterminals off the least closed family. */
  lemma CyclicFromClosure(te: map<string, set<string>>, f: map<string, set<string>>, cyclic: set<string>)
    requires ClosedFamily(te, f) && BelowClosed(te, f)
    requires forall nt :: nt in cyclic <==> nt in f && nt in f[nt]
    ensures cyclic <= te.Keys
    ensures forall nt :: nt in cyclic <==> InOwnClosure(te, nt)
  {
    forall nt ensures nt in cyclic <==> InOwnClosure(te, nt) {
      if nt in cyclic {
        forall h | ClosedFamily(te, h) ensures nt in h[nt] { }
      }
    }
  }

  /** A production A -> A makes A cyclic. */
  lemma SelfProductionIsCyclic(g: Cfg, n: set<string>, a: string)
    requires a in g.productions && [a] in g.productions[a]
    ensures InOwnClosure(TrivialExpansions(g, n), a)
  {
    var prods := g.productions[a];
    var k :| 0 <= k < |prods| && prods[k] == [a];
    TrivialExpansionRule(g, n, [a]);
    assert a in Contribution(g, n, [a]);
    ContributionInTrivialSet(g, n, prods, k);
  }

  /** A nonterminal that expands trivially to `b`, which expands trivially back to it, is cyclic. */
  lemma TrivialCycle(te: map<string, set<string>>, a: string, b: string)
    requires a in te && b in te && b in te[a] && a in te[b]
    ensures InOwnClosure(te, a) && InOwnClosure(te, b)
  {
    forall h | ClosedFamily(te, h)
      ensures a in h[a] && b in h[b]
    {
      assert b in h[a] && a in h[b];
      assert h[b] <= h[a] && h[a] <= h[b];
    }
  }

  // ---------------------------------------------------------------------
  // Relations between the sets

  /** The characterisations pin each set down: two nullable sets are equal. */
  lemma NullableSetUnique(g: Cfg, a: set<string>, b: set<string>)
    requires IsNullableSet(g, a) && IsNullableSet(g, b)
    ensures a == b
  {
    assert NullClosed(g, a);
    assert NullClosed(g, b);
  }

  /** Two unrealizable sets are equal. */
  lemma UnrealizableSetUnique(g: Cfg, a: set<string>, b: set<string>)
    requires IsUnrealizableSet(g, a) && IsUnrealizableSet(g, b)
    ensures a == b
  {
    var keys := g.productions.Keys;
    assert keys - (keys - a) == a;
    assert keys - (keys - b) == b;
    assert RealizeClosed(g, keys - a);
    assert RealizeClosed(g, keys - b);
  }

  /** Two unreachable sets are equal. */
  lemma UnreachableSetUnique(g: Cfg, a: set<string>, b: set<string>)
    requires g.lhss != []
    requires IsUnreachableSet(g, a) && IsUnreachableSet(g, b)
    ensures a == b
  {
    var keys := g.productions.Keys;
    assert keys - a == keys - b;
    assert a == keys - (keys - a);
  }

  /** A nullable nonterminal is realizable: it derives the empty string. */
  lemma NullableIsRealizable(g: Cfg, n: set<string>, u: set<string>)
    requires IsNullableSet(g, n) && IsUnrealizableSet(g, u)
    ensures n * u == {}
  {
    var r := g.productions.Keys - u;
    forall nt | nt in g.productions && SomeWithin(g.productions[nt], r)
      ensures nt in r
    {
      var k :| 0 <= k < |g.productions[nt]| && Within(g.productions[nt][k], r);
      assert Avoids(g.productions[nt][k], u);
    }
    assert NullClosed(g, r);
  }

  /** A production of terminals only makes its nonterminal realizable. */
  lemma TerminalProductionIsRealizable(g: Cfg, u: set<string>, nt: string, rhs: seq<string>)
    requires IsUnrealizableSet(g, u) && nt in g.productions && rhs in g.productions[nt]
    requires forall i :: 0 <= i < |rhs| ==> !g.IsNonTerminal(rhs[i])
    ensures nt !in u
  {
    var k :| 0 <= k < |g.productions[nt]| && g.productions[nt][k] == rhs;
    assert Avoids(rhs, u);
  }

  /** An empty production makes its nonterminal nullable. */
  lemma EmptyProductionIsNullable(g: Cfg, n: set<string>, nt: string)
    requires IsNullableSet(g, n) && nt in g.productions && [] in g.productions[nt]
    ensures nt in n
  {
    var k :| 0 <= k < |g.productions[nt]| && g.productions[nt][k] == [];
    assert Within(g.productions[nt][k], n);
  }

  // ---------------------------------------------------------------------
  // The property object

  /** `GrammarProperties`: the four sets, computed once when the object is built. */
  class GrammarProperties {
    const grammar: Cfg
    const unreachable: set<string>
    const unrealizable: set<string>
    const nullable: set<string>
    const cyclic: set<string>

    constructor (g: Cfg)
      requires g.WellFormed() && g.lhss != []
      ensures grammar == g
      ensures IsUnreachableSet(g, unreachable) && IsUnrealizableSet(g, unrealizable)
      ensures IsNullableSet(g, nullable) && IsCyclicSet(g, nullable, cyclic)
    {
      var ur := ComputeUnreachable(g);
      var uz := ComputeUnrealizable(g);
      var n := ComputeNullable(g);
      var c := ComputeCyclic(g, n);
      grammar, unreachable, unrealizable, nullable, cyclic := g, ur, uz, n, c;
    }

    /** `infinitelyAmbiguous()`: some cyclic nonterminal is neither unreachable nor unrealizable. */
    method InfinitelyAmbiguous() returns (ambiguous: bool)
      ensures ambiguous <==> exists nt :: nt in cyclic && nt !in unreachable && nt !in unrealizable
    {
      var todo := cyclic;
      while todo != {}
        invariant todo <= cyclic
        invariant forall nt :: nt in cyclic - todo ==> nt in unreachable || nt in unrealizable
      {
        var nt :| nt in todo;
        if nt !in unreachable && nt !in unrealizable {
          return true;
        }
        todo := todo - {nt};
      }
      return false;
    }
  }
}
