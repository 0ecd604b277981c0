/**
 * The command-line driver (`Main`): the grammar and the optional sentence
 * are read from the argument list, and the trees to show are chosen, with
 * their heading, either by parsing the sentence or by enumerating the
 * derivation trees of the start symbol round by round. Printing the page is
 * not modelled; what it would show is returned as an `Outcome`.
 */
module Driver {
  import opened Wrappers
  import opened Grammar
  import opened ParseTree
  import opened Derivations
  import Earley
  import EarleyItem
  import Expansion
  import GrammarProperties

  /** The charge limit the enumerator is built with. */
  const LIMIT: int := 10000

  /** The character standing for the empty string; it never becomes a symbol. */
  const EMPTY: char := '\U{03B5}'

  // ---------------------------------------------------------------------
  // Symbols

  /**
   * `Character.isWhitespace`: the space, line and paragraph separators other
   * than the no-break spaces, and the controls U+0009 to U+000D and U+001C to
   * U+001F.
   */
  predicate IsWhitespace(c: char)
  {
    || ('\U{0009}' <= c <= '\U{000D}')
    || ('\U{001C}' <= c <= '\U{001F}')
    || c == ' ' || c == '\U{1680}'
    || ('\U{2000}' <= c <= '\U{2006}')
    || ('\U{2008}' <= c <= '\U{200A}')
    || c == '\U{2028}' || c == '\U{2029}' || c == '\U{205F}' || c == '\U{3000}'
  }

  /** A character `symList` turns into a symbol. */
  predicate Kept(c: char)
  {
    !IsWhitespace(c) && c != EMPTY
  }

  /** The symbols of `s`: each kept character as a one-character string, in order. */
  function Symbols(s: string): seq<string>
    decreases |s|
  {
    if s == [] then [] else Symbols(s[..|s| - 1]) + (if Kept(s[|s| - 1]) then [[s[|s| - 1]]] else [])
  }

  /** `symList`: a scan of the characters of `s`, appending the kept ones. */
  method SymList(s: string) returns (exp: seq<string>)
    ensures exp == Symbols(s)
  {
    exp := [];
    for i := 0 to |s|
      invariant exp == Symbols(s[..i])
    {
      assert s[..i + 1][..i] == s[..i];
      if Kept(s[i]) {
        exp := exp + [[s[i]]];
      }
    }
    assert s[..|s|] == s;
  }

  /** One character gives one symbol, or none when it is white space or 'ε'. */
  lemma SymbolsOfChar(c: char)
    ensures Symbols([c]) == if Kept(c) then [[c]] else []
  {
    assert [c][..0] == [];
  }

  /** The symbols of a concatenation are those of its parts, in order. */
  lemma {:induction false} SymbolsConcat(a: string, b: string)
    ensures Symbols(a + b) == Symbols(a) + Symbols(b)
    decreases |b|
  {
    if b == [] {
      assert a + b == a;
    } else {
      var init := b[..|b| - 1];
      SymbolsConcat(a, init);
      assert (a + b)[..|a + b| - 1] == a + init;
      assert (a + b)[|a + b| - 1] == b[|b| - 1];
    }
  }

  /** Every symbol is one kept character of the string. */
  lemma {:induction false} SymbolsShape(s: string)
    ensures forall x :: x in Symbols(s) ==> |x| == 1 && Kept(x[0]) && x[0] in s
    decreases |s|
  {
    if s != [] {
      SymbolsShape(s[..|s| - 1]);
      forall x | x in Symbols(s[..|s| - 1]) ensures x[0] in s {
        assert x[0] in s[..|s| - 1];
      }
    }
  }

  /** A string of kept characters keeps them all, one symbol each. */
  lemma {:induction false} SymbolsOfKept(s: string)
    requires forall i :: 0 <= i < |s| ==> Kept(s[i])
    ensures |Symbols(s)| == |s| && forall i :: 0 <= i < |s| ==> Symbols(s)[i] == [s[i]]
    decreases |s|
  {
    if s != [] {
      SymbolsOfKept(s[..|s| - 1]);
    }
  }

  /** Spelling the symbols out again and re-reading them gives the same symbols. */
  lemma {:induction false} SymbolsIdempotent(s: string)
    ensures Symbols(Spell(Symbols(s))) == Symbols(s)
    decreases |s|
  {
    if s != [] {
      var init, c := s[..|s| - 1], s[|s| - 1];
      SymbolsIdempotent(init);
      var tail := if Kept(c) then [[c]] else [];
      SpellConcat(Symbols(init), tail);
      SymbolsConcat(Spell(Symbols(init)), Spell(tail));
      if Kept(c) {
        assert Spell(tail) == [c] by {
          assert tail[1..] == [];
        }
        SymbolsOfChar(c);
      }
    }
  }

  /** The characters of a list of symbols, run together. */
  function Spell(syms: seq<string>): string
  {
    if syms == [] then "" else syms[0] + Spell(syms[1..])
  }

  lemma {:induction false} SpellConcat(a: seq<string>, b: seq<string>)
    ensures Spell(a + b) == Spell(a) + Spell(b)
  {
    if a != [] {
      assert (a + b)[1..] == a[1..] + b;
      SpellConcat(a[1..], b);
    } else {
      assert a + b == b;
    }
  }

  // ---------------------------------------------------------------------
  // Arguments

  /** `s.split("[|]", -1)`: the pieces between the bars, empty ones kept; an empty string is one empty piece. */
  function Split(s: string): (pieces: seq<string>)
    ensures |pieces| >= 1
    decreases |s|
  {
    if s == [] then [""]
    else
      var rest := Split(s[1..]);
      if s[0] == '|' then [""] + rest else [[s[0]] + rest[0]] + rest[1..]
  }

  /** The pieces put back together with a bar between each two. */
  function Join(pieces: seq<string>): string
    requires |pieces| >= 1
  {
    if |pieces| == 1 then pieces[0] else pieces[0] + "|" + Join(pieces[1..])
  }

  /** Splitting loses nothing: joining the pieces gives the argument back. */
  lemma {:induction false} JoinSplit(s: string)
    ensures Join(Split(s)) == s
    decreases |s|
  {
    if s != [] {
      var rest := Split(s[1..]);
      JoinSplit(s[1..]);
      if s[0] == '|' {
        assert ([""] + rest)[1..] == rest;
      } else {
        var pieces := [[s[0]] + rest[0]] + rest[1..];
        if |rest| == 1 {
          assert Join(pieces) == [s[0]] + rest[0];
        } else {
          assert pieces[1..] == rest[1..];
          assert Join(pieces) == [s[0]] + (rest[0] + "|" + Join(rest[1..]));
        }
      }
    }
  }

  /** No piece holds a bar. */
  lemma {:induction false} SplitPiecesBarFree(s: string)
    ensures forall p :: p in Split(s) ==> '|' !in p
    decreases |s|
  {
    if s != [] {
      SplitPiecesBarFree(s[1..]);
      var rest := Split(s[1..]);
      if s[0] != '|' {
        assert rest[0] in rest;
        forall p | p in Split(s) ensures '|' !in p {
          if p != [s[0]] + rest[0] {
            assert p in rest[1..];
          }
        }
      }
    }
  }

  /** Joining bar-free pieces and splitting again gives the same pieces: empty alternatives survive. */
  lemma {:induction false} SplitJoin(pieces: seq<string>)
    requires |pieces| >= 1 && forall p :: p in pieces ==> '|' !in p
    ensures Split(Join(pieces)) == pieces
    decreases |pieces|
  {
    if |pieces| == 1 {
      SplitBarFree(pieces[0]);
    } else {
      SplitJoin(pieces[1..]);
      SplitBarThen(pieces[0], Join(pieces[1..]));
    }
  }

  /** A bar-free string is a single piece. */
  lemma {:induction false} SplitBarFree(s: string)
    requires '|' !in s
    ensures Split(s) == [s]
    decreases |s|
  {
    if s != [] {
      assert '|' !in s[1..] by {
        forall i | 0 <= i < |s[1..]| ensures s[1..][i] != '|' {
          assert s[1..][i] == s[i + 1];
        }
      }
      SplitBarFree(s[1..]);
      assert [s[0]] + s[1..] == s;
    }
  }

  /** A bar-free string, a bar, then more: the first piece is that string. */
  lemma {:induction false} SplitBarThen(p: string, rest: string)
    requires '|' !in p
    ensures Split(p + "|" + rest) == [p] + Split(rest)
    decreases |p|
  {
    if p == [] {
      assert p + "|" + rest == "|" + rest;
      assert ("|" + rest)[1..] == rest;
    } else {
      var s := p + "|" + rest;
      assert s[0] == p[0];
      assert s[1..] == p[1..] + "|" + rest;
      assert '|' !in p[1..] by {
        forall i | 0 <= i < |p[1..]| ensures p[1..][i] != '|' {
          assert p[1..][i] == p[i + 1];
        }
      }
      SplitBarThen(p[1..], rest);
      assert [p[0]] + p[1..] == p;
    }
  }

  /** The productions of one `lhs rhs` argument pair: one per piece of `rhs`, in order. */
  function PairProductions(lhs: string, rhs: string): (prods: seq<(string, seq<string>)>)
    ensures |prods| == |Split(rhs)| >= 1
    ensures forall j :: 0 <= j < |prods| ==> prods[j] == (lhs, Symbols(Split(rhs)[j]))
  {
    var pieces := Split(rhs);
    seq(|pieces|, j requires 0 <= j < |pieces| => (lhs, Symbols(pieces[j])))
  }

  /** The productions of the first `n` argument pairs, in order. */
  function ArgProductions(args: seq<string>, n: nat): seq<(string, seq<string>)>
    requires 2 * n <= |args|
  {
    if n == 0 then [] else ArgProductions(args, n - 1) + PairProductions(args[2 * n - 2], args[2 * n - 1])
  }

  /** The grammar the arguments describe: all their pairs; an odd last argument is the sentence, not a production. */
  function ArgGrammar(args: seq<string>): Cfg
  {
    Build(ArgProductions(args, |args| / 2))
  }

  /** The sentence to parse: the last argument when their number is odd. */
  function Sentence(args: seq<string>): Option<string>
  {
    if |args| % 2 == 1 then Some(args[|args| - 1]) else None
  }

  /** The sentence argument is never read as part of a production pair. */
  lemma SentenceApart(args: seq<string>)
    ensures Sentence(args).Some? <==> 2 * (|args| / 2) == |args| - 1
    ensures Sentence(args).Some? ==> Sentence(args).value == args[2 * (|args| / 2)]
    ensures Sentence(args).None? ==> 2 * (|args| / 2) == |args|
  {
  }

  lemma BuildSnoc(prods: seq<(string, seq<string>)>, p: (string, seq<string>))
    ensures Build(prods + [p]) == Build(prods).Add(p.0, p.1)
  {
    assert (prods + [p])[..|prods|] == prods;
  }

  /** Taking one more element of `b` after all of `a`. */
  lemma AppendPrefix<T>(a: seq<T>, b: seq<T>, j: nat)
    requires j <= |b|
    ensures j == 0 ==> a + b[..j] == a
    ensures j > 0 ==> a + b[..j] == (a + b[..j - 1]) + [b[j - 1]]
    ensures j == |b| ==> a + b[..j] == a + b
  {
    if j == 0 {
      assert b[..j] == [];
    } else {
      assert b[..j] == b[..j - 1] + [b[j - 1]];
    }
    if j == |b| {
      assert b[..j] == b;
    }
  }

  /** The grammar-building loop: `addProduction` for each piece of each pair. */
  method BuildGrammar(args: seq<string>) returns (g: Grammar)
    ensures fresh(g) && g.Valid() && g.Frozen() == ArgGrammar(args)
  {
    g := new Grammar();
    var i := 1;
    ghost var n := 0;
    while i < |args|
      invariant i == 2 * n + 1 && 2 * n <= |args|
      invariant fresh(g) && g.Valid()
      invariant g.Frozen() == Build(ArgProductions(args, n))
    {
      AddPair(g, args[i - 1], args[i], ArgProductions(args, n));
      ArgProductionsNext(args, n);
      i, n := i + 2, n + 1;
    }
    Half(|args|, n);
  }

  lemma Half(len: nat, n: nat)
    requires 2 * n <= len <= 2 * n + 1
    ensures len / 2 == n
  {
  }

  /** The inner loop for one pair: one production of `lhs` per piece of `rhs`. */
  method AddPair(g: Grammar, lhs: string, rhs: string, ghost before: seq<(string, seq<string>)>)
    requires g.Valid() && g.Frozen() == Build(before)
    modifies g
    ensures g.Valid() && g.Frozen() == Build(before + PairProductions(lhs, rhs))
  {
    var pieces := Split(rhs);
    ghost var pair := PairProductions(lhs, rhs);
    AppendPrefix(before, pair, 0);
    for j := 0 to |pieces|
      invariant g.Valid()
      invariant g.Frozen() == Build(before + pair[..j])
    {
      var syms := SymList(pieces[j]);
      AppendPrefix(before, pair, j + 1);
      BuildSnoc(before + pair[..j], (lhs, syms));
      g.AddProduction(lhs, syms);
    }
    AppendPrefix(before, pair, |pieces|);
  }

  lemma ArgProductionsNext(args: seq<string>, n: nat)
    requires 2 * n + 2 <= |args|
    ensures ArgProductions(args, n + 1) == ArgProductions(args, n) + PairProductions(args[2 * n], args[2 * n + 1])
  {
  }

  /** The first production of the arguments is the first pair's first piece. */
  lemma {:induction false} ArgProductionsFirst(args: seq<string>, n: nat)
    requires 1 <= n && 2 * n <= |args|
    ensures ArgProductions(args, n) != [] && ArgProductions(args, n)[0].0 == args[0]
  {
    if n > 1 {
      ArgProductionsFirst(args, n - 1);
    }
  }

  /** Every right-hand side the arguments give is a list of one-character symbols. */
  lemma {:induction false} ArgProductionsShort(args: seq<string>, n: nat)
    requires 2 * n <= |args|
    ensures forall i, x :: 0 <= i < |ArgProductions(args, n)| && x in ArgProductions(args, n)[i].1 ==> |x| == 1
  {
    if n > 0 {
      ArgProductionsShort(args, n - 1);
      var pieces := Split(args[2 * n - 1]);
      forall j | 0 <= j < |pieces| ensures forall x :: x in Symbols(pieces[j]) ==> |x| == 1 {
        SymbolsShape(pieces[j]);
      }
    }
  }

  /** A right-hand side of a built grammar was given, for that nonterminal, by one of the productions. */
  lemma {:induction false} ProductionsOfMember(prods: seq<(string, seq<string>)>, nt: string, rhs: seq<string>)
    requires rhs in ProductionsOf(prods, nt)
    ensures exists i :: 0 <= i < |prods| && prods[i] == (nt, rhs)
  {
    var init := prods[..|prods| - 1];
    if rhs in ProductionsOf(init, nt) {
      ProductionsOfMember(init, nt, rhs);
      var i :| 0 <= i < |init| && init[i] == (nt, rhs);
      assert prods[i] == init[i];
    } else {
      assert prods[|prods| - 1] == (nt, rhs);
    }
  }

  /** Two or more arguments give a well-formed grammar whose start symbol is the first argument. */
  lemma ArgGrammarStart(args: seq<string>)
    requires |args| >= 2
    ensures ArgGrammar(args).WellFormed() && ArgGrammar(args).lhss != [] && ArgGrammar(args).Start() == args[0]
  {
    var prods := ArgProductions(args, |args| / 2);
    ArgProductionsFirst(args, |args| / 2);
    BuildWellFormed(prods);
    BuildStart(prods);
  }

  /**
   * A grammar read from the arguments can be given to the parser when its
   * start symbol is not the wrapper name: no production can use the wrapper
   * name, since every symbol is one character long.
   */
  lemma ArgGrammarParsable(args: seq<string>)
    requires |args| >= 2 && args[0] != Earley.START
    ensures Earley.Parsable(ArgGrammar(args)) && ArgGrammar(args).Start() == args[0]
  {
    var prods := ArgProductions(args, |args| / 2);
    var g := Build(prods);
    ArgGrammarStart(args);
    ArgProductionsShort(args, |args| / 2);
    forall nt, rhs | nt in g.productions && rhs in g.productions[nt]
      ensures Earley.START !in rhs
    {
      BuildProductions(prods, nt);
      ProductionsOfMember(prods, nt, rhs);
      assert |Earley.START| == 5;
    }
  }

  // ---------------------------------------------------------------------
  // Enumeration

  /** Why the enumeration loop stopped. */
  datatype Stop = DepthReached | ChargeExceeded | SizeUnchanged

  /** `maxDepth`: the bound on the number of rounds, nine more than there are nonterminals. */
  function MaxDepth(g: Cfg): (n: nat)
    ensures n > |g.lhss|
  {
    |g.lhss| + 9
  }

  /** The lists after some rounds, the charge of the last of them, and the total number of trees listed. */
  datatype Progress = Progress(lgges: Expansion.Languages, charged: Expansion.Charged, size: nat)

  /**
   * Where `k` rounds of `expand` lead from the empty lists with nothing
   * charged: round `k` rebuilds the lists from those of round `k - 1`, and
   * charges the trees it builds from the count the earlier rounds left.
   */
  ghost function After(g: Cfg, k: nat): Progress
    requires g.WellFormed()
    decreases k, 3
  {
    if k == 0 then Progress(Unexpanded(g), Expansion.Charged(true, 0), 0) else Step(g, k)
  }

  /** Round `k` itself, from where round `k - 1` left off. */
  ghost function Step(g: Cfg, k: nat): Progress
    requires g.WellFormed() && k >= 1
    decreases k, 2
  {
    Progress(Rebuilt(g, k), Charged(g, k), Sized(g, k))
  }

  /** The lists round `k` builds from those of round `k - 1`. */
  ghost function Rebuilt(g: Cfg, k: nat): Expansion.Languages
    requires g.WellFormed() && k >= 1
    decreases k, 0
  {
    Expansion.Next(g, After(g, k - 1).lgges)
  }

  /** Round `k` charges the trees it builds from the count the earlier rounds left. */
  ghost function Charged(g: Cfg, k: nat): Expansion.Charged
    requires g.WellFormed() && k >= 1
    decreases k, 0
  {
    var prev := After(g, k - 1);
    Expansion.Charge(prev.charged.count, Expansion.AllTrees(g, prev.lgges, g.lhss), LIMIT)
  }

  /** The total number of trees in the lists round `k` builds. */
  ghost function Sized(g: Cfg, k: nat): nat
    requires g.WellFormed() && k >= 1
    decreases k, 1
  {
    Expansion.TotalSize(g.lhss, Rebuilt(g, k))
  }

  /**
   * The lists and the count after round `k`, rebuilt and charged once more,
   * are those of round `k + 1`, whose size is that of the rebuilt lists; the
   * charge says whether round `k + 1` fits.
   */
  lemma RoundStep(g: Cfg, k: nat, before: Expansion.Languages, count: int, charged: Expansion.Charged)
    requires g.WellFormed()
    requires before == Round(g, k) && count == Ledger(g, k).count
    requires charged == Expansion.Charge(count, Expansion.AllTrees(g, before, g.lhss), LIMIT)
    ensures charged.ok == Fits(g, k + 1) && charged.count == Ledger(g, k + 1).count
    ensures Expansion.Next(g, before) == Round(g, k + 1)
  {
    assert After(g, k + 1) == Step(g, k + 1);
    assert Step(g, k + 1) == Progress(Rebuilt(g, k + 1), Charged(g, k + 1), Sized(g, k + 1));
  }

  /** The size recorded after `k` rounds is the total size of their lists. */
  lemma RoundSize(g: Cfg, k: nat)
    requires g.WellFormed()
    ensures After(g, k).size == Expansion.TotalSize(g.lhss, Round(g, k))
  {
    if k == 0 {
      EmptySize(g.lhss, Unexpanded(g));
    } else {
      assert After(g, k) == Step(g, k);
      assert Step(g, k) == Progress(Rebuilt(g, k), Charged(g, k), Sized(g, k));
    }
  }

  /** The lists after `k` rounds that each stayed within the charge limit. */
  ghost function Round(g: Cfg, k: nat): Expansion.Languages
    requires g.WellFormed()
  {
    After(g, k).lgges
  }

  /** An empty list for each nonterminal. */
  ghost function Unexpanded(g: Cfg): (lgges: Expansion.Languages)
    ensures lgges.Keys == g.productions.Keys && forall nt :: nt in lgges ==> lgges[nt] == []
  {
    map nt | nt in g.productions :: []
  }

  /** Lists that are all empty, one per nonterminal, are the unexpanded ones. */
  lemma UnexpandedIs(g: Cfg, lgges: Expansion.Languages)
    requires lgges.Keys == g.productions.Keys && forall nt :: nt in lgges ==> lgges[nt] == []
    ensures lgges == Unexpanded(g)
  {
  }

  /** The charge after `k` rounds: whether round `k` stayed within the limit, and the running count. */
  ghost function Ledger(g: Cfg, k: nat): Expansion.Charged
    requires g.WellFormed()
  {
    After(g, k).charged
  }

  /** Round `k` stays within the charge limit. */
  ghost predicate Fits(g: Cfg, k: nat)
    requires g.WellFormed()
  {
    Ledger(g, k).ok
  }

  /** Round `k` leaves the total number of trees as round `k - 1` left it. */
  ghost predicate SizeRepeats(g: Cfg, k: nat)
    requires g.WellFormed() && k >= 1
  {
    After(g, k).size == After(g, k - 1).size
  }

  /**
   * What each of the first `n` rounds does, in order: whether it stays
   * within the charge limit, and whether it leaves the total size unchanged.
   */
  ghost function Trace(g: Cfg, n: nat): (t: seq<(bool, bool)>)
    requires g.WellFormed()
    ensures |t| == n
  {
    seq(n, j requires 0 <= j < n => (Fits(g, j + 1), SizeRepeats(g, j + 1)))
  }


  /**
   * When a loop of at most `max` rounds, whose rounds do what `t` says,
   * stops after `depth` rounds, and why: every round so far stayed within
   * the limit and changed the size; it stops for an unchanged size as soon
   * as a round leaves the size as it was, for the charge when the next round
   * would go past the limit, and otherwise once `max` rounds are done.
   */
  ghost predicate StopsAfter(max: nat, t: seq<(bool, bool)>, depth: nat, stop: Stop)
    requires |t| == max
  {
    && depth <= max
    && (forall k :: 0 <= k < depth ==> t[k].0)
    && (forall k :: 0 <= k < depth - 1 ==> !t[k].1)
    && (stop == SizeUnchanged <==> depth >= 1 && t[depth - 1].1)
    && (stop == ChargeExceeded ==> depth < max && !t[depth].0)
    && (stop == DepthReached ==> depth == max)
  }

  /** The stop rule of the enumeration: the loop over the grammar's rounds, at most the number of nonterminals plus nine. */
  ghost predicate StopRule(g: Cfg, depth: nat, stop: Stop)
    requires g.WellFormed()
  {
    StopsAfter(MaxDepth(g), Trace(g, MaxDepth(g)), depth, stop)
  }

  /** A loop stops at one depth for one reason only. */
  lemma StopsAfterUnique(max: nat, t: seq<(bool, bool)>, d1: nat, s1: Stop, d2: nat, s2: Stop)
    requires |t| == max && StopsAfter(max, t, d1, s1) && StopsAfter(max, t, d2, s2)
    ensures d1 == d2 && s1 == s2
  {
  }

  /**
   * The stop rule spelled out for round `k`: rounds up to `depth` stayed
   * within the charge limit, rounds before `depth` changed the total size,
   * round `depth` repeated the size exactly when the loop stopped for that,
   * and a stop for the charge means round `depth + 1` went past the limit.
   */
  lemma StopRuleAt(g: Cfg, depth: nat, stop: Stop, k: nat)
    requires g.WellFormed() && StopRule(g, depth, stop) && k >= 1
    ensures depth <= MaxDepth(g)
    ensures stop == DepthReached ==> depth == MaxDepth(g)
    ensures k <= depth ==> Fits(g, k)
    ensures k < depth ==> !SizeRepeats(g, k)
    ensures k == depth ==> (stop == SizeUnchanged <==> SizeRepeats(g, k))
    ensures stop == SizeUnchanged ==> depth >= 1
    ensures stop == ChargeExceeded && k == depth + 1 ==> depth < MaxDepth(g) && !Fits(g, k)
  {
    if k <= MaxDepth(g) {
      assert Trace(g, MaxDepth(g))[k - 1] == (Fits(g, k), SizeRepeats(g, k));
    }
  }

  /** Rounds `1` to `n` all stayed within the limit and each changed the total size. */
  ghost predicate Clean(g: Cfg, n: nat)
    requires g.WellFormed()
  {
    n == 0 || (Clean(g, n - 1) && Fits(g, n) && !SizeRepeats(g, n))
  }

  /** After `n` clean rounds, the first `n` entries of the trace all read "fits, size changed". */
  lemma {:induction false} CleanTrace(g: Cfg, n: nat)
    requires g.WellFormed() && n <= MaxDepth(g) && Clean(g, n)
    ensures forall j :: 0 <= j < n ==> Trace(g, MaxDepth(g))[j] == (true, false)
  {
    if n > 0 {
      CleanTrace(g, n - 1);
    }
  }

  /** `k` clean rounds followed by one past the charge limit stop the loop after `k` rounds, for the charge. */
  lemma ChargeStops(g: Cfg, k: nat)
    requires g.WellFormed() && k < MaxDepth(g) && Clean(g, k) && !Fits(g, k + 1)
    ensures StopRule(g, k, ChargeExceeded)
  {
    CleanTrace(g, k);
    StopsForCharge(MaxDepth(g), Trace(g, MaxDepth(g)), k);
  }

  /** `k - 1` clean rounds followed by one within the limit that keeps the size stop the loop after `k` rounds. */
  lemma SizeStops(g: Cfg, k: nat)
    requires g.WellFormed() && 1 <= k <= MaxDepth(g) && Clean(g, k - 1) && Fits(g, k) && SizeRepeats(g, k)
    ensures StopRule(g, k, SizeUnchanged)
  {
    CleanTrace(g, k - 1);
    StopsForSize(MaxDepth(g), Trace(g, MaxDepth(g)), k);
  }

  /** As many clean rounds as the bound allows stop the loop at the bound. */
  lemma DepthStops(g: Cfg)
    requires g.WellFormed() && Clean(g, MaxDepth(g))
    ensures StopRule(g, MaxDepth(g), DepthReached)
  {
    CleanTrace(g, MaxDepth(g));
    StopsAtMax(MaxDepth(g), Trace(g, MaxDepth(g)));
  }

  lemma StopsForCharge(max: nat, t: seq<(bool, bool)>, k: nat)
    requires |t| == max && k < max && !t[k].0
    requires forall j :: 0 <= j < k ==> t[j] == (true, false)
    ensures StopsAfter(max, t, k, ChargeExceeded)
  {
  }

  lemma StopsForSize(max: nat, t: seq<(bool, bool)>, k: nat)
    requires |t| == max && 1 <= k <= max && t[k - 1] == (true, true)
    requires forall j :: 0 <= j < k - 1 ==> t[j] == (true, false)
    ensures StopsAfter(max, t, k, SizeUnchanged)
  {
  }

  lemma StopsAtMax(max: nat, t: seq<(bool, bool)>)
    requires |t| == max
    requires forall j :: 0 <= j < max ==> t[j] == (true, false)
    ensures StopsAfter(max, t, max, DepthReached)
  {
  }

  /**
   * The enumeration loop: rounds of `expand` until the depth reaches the
   * number of nonterminals plus nine, a round is refused for going past the
   * charge limit, or a round leaves the total number of trees as it was
   * (the count before the first round being 0). In the last case the lists
   * hold every derivation tree, so the enumeration is complete.
   */
  method Enumerate(g: Cfg) returns (trees: seq<Tree>, depth: nat, stop: Stop)
    requires g.WellFormed() && g.lhss != []
    ensures StopRule(g, depth, stop)
    ensures g.Start() in Round(g, depth) && trees == Round(g, depth)[g.Start()]
    ensures forall t: Tree :: t in trees <==> t.NonTerminal? && t.sym == g.Start() && Derivation(g, t) && Height(t) <= depth + 1
    ensures stop == SizeUnchanged ==> forall t: Tree :: t.NonTerminal? && t.sym == g.Start() && Derivation(g, t) ==> t in trees
  {
    var lgges := new Expansion.Expansion(g, LIMIT);
    UnexpandedIs(g, lgges.lgges);
    stop := ExpandRounds(lgges);
    depth := lgges.Depth();
    StartTrees(lgges);
    trees := lgges.Derivations(g.Start()).value;
    if stop == SizeUnchanged {
      AllStartTrees(lgges);
    }
  }

  /** The loop of the enumeration, from the empty lists with nothing charged. */
  method ExpandRounds(lgges: Expansion.Expansion) returns (stop: Stop)
    requires lgges.Valid() && lgges.limit == LIMIT
    requires lgges.lgges == Unexpanded(lgges.grammar) && lgges.count == 0 && lgges.expandCount == 0
    modifies lgges
    ensures lgges.Valid()
    ensures StopRule(lgges.grammar, lgges.expandCount, stop)
    ensures lgges.lgges == Round(lgges.grammar, lgges.expandCount)
    ensures stop == SizeUnchanged ==> Expansion.AllDerivations(lgges.grammar, lgges.lgges)
  {
    var g := lgges.grammar;
    var maxDepth := MaxDepth(g);
    var lastSize := 0;
    while lgges.Depth() < maxDepth
      invariant lgges.Valid() && lgges.grammar == g && lgges.limit == LIMIT
      invariant lgges.expandCount <= maxDepth
      invariant lgges.lgges == Round(lgges.grammar, lgges.expandCount)
      invariant lgges.count == Ledger(lgges.grammar, lgges.expandCount).count
      invariant Clean(g, lgges.expandCount)
      invariant lastSize == After(g, lgges.expandCount).size
      decreases maxDepth - lgges.expandCount
    {
      var done, why, size := LoopBody(lgges, lastSize, lgges.expandCount);
      if done {
        return why;
      }
      lastSize := size;
    }
    DepthStops(g);
    stop := DepthReached;
  }

  /**
   * The body of the enumeration loop after `k` clean rounds: `expand`, then
   * `size()`; the loop ends at a refused round or an unchanged size, as the
   * stop rule says, and otherwise goes on after `k + 1` clean rounds.
   */
  method LoopBody(lgges: Expansion.Expansion, lastSize: nat, ghost k: nat) returns (done: bool, stop: Stop, size: nat)
    requires lgges.Valid() && lgges.limit == LIMIT && lgges.expandCount == k && k < MaxDepth(lgges.grammar)
    requires lgges.lgges == Round(lgges.grammar, k) && lgges.count == Ledger(lgges.grammar, k).count
    requires Clean(lgges.grammar, k) && lastSize == After(lgges.grammar, k).size
    modifies lgges
    ensures lgges.Valid()
    ensures lgges.lgges == Round(lgges.grammar, lgges.expandCount)
    ensures done ==> StopRule(lgges.grammar, lgges.expandCount, stop)
    ensures done && stop == SizeUnchanged ==> Expansion.AllDerivations(lgges.grammar, lgges.lgges)
    ensures !done ==> lgges.expandCount == k + 1 && lgges.count == Ledger(lgges.grammar, k + 1).count
    ensures !done ==> Clean(lgges.grammar, k + 1) && size == After(lgges.grammar, k + 1).size
  {
    var ok;
    ok, size := ExpandOnce(lgges, k);
    LoopStep(lgges.grammar, k, ok, size, lastSize);
    done := !ok || size == lastSize;
    stop := if ok then SizeUnchanged else ChargeExceeded;
  }

  /**
   * What the loop makes of round `k + 1` after `k` clean rounds: a refused
   * round stops it for the charge after `k` rounds, a repeated size stops it
   * after `k + 1`, and otherwise `k + 1` rounds are clean.
   */
  lemma LoopStep(g: Cfg, k: nat, ok: bool, size: nat, lastSize: nat)
    requires g.WellFormed() && k < MaxDepth(g) && Clean(g, k) && lastSize == After(g, k).size
    requires ok == Fits(g, k + 1) && (ok ==> size == After(g, k + 1).size)
    ensures !ok ==> StopRule(g, k, ChargeExceeded)
    ensures ok && size == lastSize ==> SizeRepeats(g, k + 1) && StopRule(g, k + 1, SizeUnchanged)
    ensures ok && size != lastSize ==> Clean(g, k + 1)
  {
    if !ok {
      ChargeStops(g, k);
    } else if size == lastSize {
      SizeStops(g, k + 1);
    }
  }

  /**
   * One round of the loop: `expand`, then, if it stayed within the limit,
   * the new total size. A round that leaves the size unchanged has found
   * every derivation tree.
   */
  method ExpandOnce(lgges: Expansion.Expansion, ghost k: nat) returns (ok: bool, size: nat)
    requires lgges.Valid() && lgges.limit == LIMIT && lgges.expandCount == k
    requires lgges.lgges == Round(lgges.grammar, k) && lgges.count == Ledger(lgges.grammar, k).count
    modifies lgges
    ensures lgges.Valid()
    ensures ok == Fits(lgges.grammar, k + 1)
    ensures lgges.expandCount == if ok then k + 1 else k
    ensures lgges.lgges == Round(lgges.grammar, lgges.expandCount)
    ensures ok ==> lgges.count == Ledger(lgges.grammar, k + 1).count
    ensures ok ==> size == Expansion.TotalSize(lgges.grammar.lhss, lgges.lgges) == After(lgges.grammar, k + 1).size
    ensures ok && SizeRepeats(lgges.grammar, k + 1) ==> Expansion.AllDerivations(lgges.grammar, lgges.lgges)
  {
    ghost var before := lgges.lgges;
    ok := ExpandStep(lgges, k);
    size := 0;
    if ok {
      size := MeasureRound(lgges, k, before);
    }
  }

  /** `size()` after round `k + 1`: that round's recorded size; when it repeats, every derivation tree is listed. */
  method MeasureRound(lgges: Expansion.Expansion, ghost k: nat, ghost before: Expansion.Languages) returns (size: nat)
    requires lgges.Valid() && lgges.expandCount == k + 1
    requires before == Round(lgges.grammar, k) && Expansion.Invariant(lgges.grammar, before, k)
    requires lgges.lgges == Round(lgges.grammar, k + 1) && lgges.lgges == Expansion.Next(lgges.grammar, before)
    ensures size == Expansion.TotalSize(lgges.grammar.lhss, lgges.lgges) == After(lgges.grammar, k + 1).size
    ensures SizeRepeats(lgges.grammar, k + 1) ==> Expansion.AllDerivations(lgges.grammar, lgges.lgges)
  {
    var g := lgges.grammar;
    size := lgges.Size();
    RoundSize(g, k);
    RoundSize(g, k + 1);
    if SizeRepeats(g, k + 1) {
      Expansion.AllDerivationsFound(g, before, k + 1);
    }
  }

  /** `expand` once more, from the lists and count of round `k`: round `k + 1` when it fits. */
  method ExpandStep(lgges: Expansion.Expansion, ghost k: nat) returns (ok: bool)
    requires lgges.Valid() && lgges.limit == LIMIT && lgges.expandCount == k
    requires lgges.lgges == Round(lgges.grammar, k) && lgges.count == Ledger(lgges.grammar, k).count
    modifies lgges
    ensures lgges.Valid()
    ensures ok == Fits(lgges.grammar, k + 1)
    ensures lgges.expandCount == if ok then k + 1 else k
    ensures lgges.lgges == Round(lgges.grammar, lgges.expandCount)
    ensures ok ==> lgges.count == Ledger(lgges.grammar, k + 1).count
    ensures ok ==> lgges.lgges == Expansion.Next(lgges.grammar, Round(lgges.grammar, k))
  {
    ghost var before := lgges.lgges;
    ghost var count := lgges.count;
    ok := lgges.Expand();
    RoundStep(lgges.grammar, k, before, count, Expansion.Charged(ok, lgges.count));
  }



  /** Lists holding every derivation tree hold, for the start symbol, every derivation tree of the grammar. */
  lemma AllStartTrees(lgges: Expansion.Expansion)
    requires lgges.Valid() && lgges.grammar.lhss != [] && Expansion.AllDerivations(lgges.grammar, lgges.lgges)
    ensures lgges.Derivations(lgges.grammar.Start()).Some?
    ensures forall t: Tree :: t.NonTerminal? && t.sym == lgges.grammar.Start() && Derivation(lgges.grammar, t) ==>
      t in lgges.Derivations(lgges.grammar.Start()).value
  {
    StartTrees(lgges);
  }

  /** The enumerator's list for the start symbol: its derivation trees of height at most the depth plus one. */
  lemma StartTrees(lgges: Expansion.Expansion)
    requires lgges.Valid() && lgges.grammar.lhss != []
    ensures lgges.Derivations(lgges.grammar.Start()).Some?
    ensures forall t: Tree :: t in lgges.Derivations(lgges.grammar.Start()).value <==>
      t.NonTerminal? && t.sym == lgges.grammar.Start() && Derivation(lgges.grammar, t) && Height(t) <= lgges.Depth() + 1
  {
    var g := lgges.grammar;
    assert g.IsNonTerminal(g.Start()) by {
      assert g.lhss[0] in g.lhss;
    }
  }

  /** Lists that are all empty have total size 0. */
  lemma {:induction false} EmptySize(nts: seq<string>, lgges: Expansion.Languages)
    requires forall nt :: nt in lgges ==> lgges[nt] == []
    ensures Expansion.TotalSize(nts, lgges) == 0
    decreases |nts|
  {
    if nts != [] {
      EmptySize(nts[..|nts| - 1], lgges);
    }
  }

  // ---------------------------------------------------------------------
  // Headings

  /** How much the parser found, as the heading over a parsed sentence reports it. */
  datatype Verdict = Partial | NoTrees | OneTree | ManyTrees

  /** The verdict for a parse: incomplete, or else by the number of trees found. */
  function VerdictOf(full: bool, count: nat): (v: Verdict)
    ensures v == Partial <==> !full
    ensures v == NoTrees <==> full && count == 0
    ensures v == OneTree <==> full && count == 1
    ensures v == ManyTrees <==> full && count >= 2
  {
    if !full then Partial
    else if count == 0 then NoTrees
    else if count == 1 then OneTree
    else ManyTrees
  }

  function VerdictText(v: Verdict): string
  {
    match v
    case Partial => "Some of the derivations"
    case NoTrees => "There are no derivations"
    case OneTree => "Derivation tree"
    case ManyTrees => "Derivation trees"
  }

  /** What precedes the quoted sentence in a parse heading. */
  function VerdictPrefix(v: Verdict): string
  {
    VerdictText(v) + " for '"
  }

  /**
   * The heading over the trees of a parsed sentence: the verdict, then the
   * sentence in quotes. Both read back from it, so different verdicts or
   * sentences give different headings.
   */
  function ParseHeading(v: Verdict, sentence: string): (h: string)
    ensures ReadParseHeading(h) == Some((v, sentence))
  {
    ReadQuotedOwn(v, sentence, Partial);
    ReadQuotedOwn(v, sentence, NoTrees);
    ReadQuotedOwn(v, sentence, OneTree);
    ReadQuotedOwn(v, sentence, ManyTrees);
    VerdictPrefix(v) + sentence + "'"
  }

  /** The sentence of a heading with verdict `v`, if `h` has that shape. */
  function ReadQuoted(h: string, v: Verdict): Option<string>
  {
    var p := VerdictPrefix(v);
    if |h| > |p| && h[..|p|] == p && h[|h| - 1] == '\'' then Some(h[|p|..|h| - 1]) else None
  }

  /** Reading a parse heading back: the first verdict whose shape fits, and the quoted sentence. */
  function ReadParseHeading(h: string): Option<(Verdict, string)>
  {
    if ReadQuoted(h, Partial).Some? then Some((Partial, ReadQuoted(h, Partial).value))
    else if ReadQuoted(h, NoTrees).Some? then Some((NoTrees, ReadQuoted(h, NoTrees).value))
    else if ReadQuoted(h, OneTree).Some? then Some((OneTree, ReadQuoted(h, OneTree).value))
    else if ReadQuoted(h, ManyTrees).Some? then Some((ManyTrees, ReadQuoted(h, ManyTrees).value))
    else None
  }

  /** The prefixes of two different verdicts differ at some position both have. */
  lemma PrefixesDiffer(v: Verdict, w: Verdict) returns (k: nat)
    requires v != w
    ensures k < |VerdictPrefix(v)| && k < |VerdictPrefix(w)| && VerdictPrefix(v)[k] != VerdictPrefix(w)[k]
  {
    if (v == OneTree && w == ManyTrees) || (v == ManyTrees && w == OneTree) {
      k := 15;
    } else {
      k := 0;
    }
  }

  /** A heading reads back with its own verdict and sentence, and with no other verdict. */
  lemma ReadQuotedOwn(v: Verdict, sentence: string, w: Verdict)
    ensures ReadQuoted(VerdictPrefix(v) + sentence + "'", w) == if w == v then Some(sentence) else None
  {
    var p := VerdictPrefix(v);
    var h := VerdictPrefix(v) + sentence + "'";
    assert h == p + (sentence + "'");
    assert h[..|p|] == p;
    assert h[|p|..|h| - 1] == sentence;
    if w != v {
      var k := PrefixesDiffer(v, w);
      assert h[k] == p[k];
    }
  }

  function Digit(d: nat): (c: char)
    requires d < 10
    ensures '0' <= c <= '9' && c as int - '0' as int == d
  {
    (d + '0' as int) as char
  }

  predicate AllDigits(s: string)
  {
    forall i :: 0 <= i < |s| ==> '0' <= s[i] <= '9'
  }

  /** `Integer.toString` of a non-negative number: its decimal digits, with no leading zero. */
  function NatToString(n: nat): (s: string)
    ensures |s| >= 1 && AllDigits(s)
    ensures |s| > 1 ==> s[0] != '0'
    ensures n >= 10 <==> |s| > 1
    decreases n
  {
    if n < 10 then [Digit(n)] else NatToString(n / 10) + [Digit(n % 10)]
  }

  /** The number a string of decimal digits stands for. */
  function DigitsValue(s: string): nat
    requires AllDigits(s)
  {
    if s == [] then 0 else 10 * DigitsValue(s[..|s| - 1]) + (s[|s| - 1] as int - '0' as int)
  }

  /** Reading the digits back gives the number. */
  lemma {:induction false} DigitsValueInverse(n: nat)
    ensures DigitsValue(NatToString(n)) == n
    decreases n
  {
    if n >= 10 {
      var s := NatToString(n);
      assert s[..|s| - 1] == NatToString(n / 10);
      DigitsValueInverse(n / 10);
    }
  }

  const ALL_TREES: string := "All derivation trees"
  const DEPTH_PREFIX: string := "Derivation trees of depth at most "

  /**
   * The heading over an enumeration: complete, or cut at the depth reached.
   * Completeness always reads back from it, and the depth when incomplete.
   */
  function EnumHeading(finite: bool, depth: nat): (h: string)
    ensures ReadEnumHeading(h) == Some((finite, if finite then 0 else depth))
  {
    DepthHeadingReadsBack(depth);
    if finite then ALL_TREES else DEPTH_PREFIX + NatToString(depth)
  }

  /** Reading an enumeration heading back: whether it was complete and, if not, the depth. */
  function ReadEnumHeading(h: string): Option<(bool, nat)>
  {
    if h == ALL_TREES then Some((true, 0))
    else if |h| > |DEPTH_PREFIX| && h[..|DEPTH_PREFIX|] == DEPTH_PREFIX && AllDigits(h[|DEPTH_PREFIX|..]) then
      Some((false, DigitsValue(h[|DEPTH_PREFIX|..])))
    else None
  }

  /** A depth heading is not the complete one, and its digits give the depth back. */
  lemma DepthHeadingReadsBack(depth: nat)
    ensures ReadEnumHeading(DEPTH_PREFIX + NatToString(depth)) == Some((false, depth))
  {
    var h := DEPTH_PREFIX + NatToString(depth);
    assert h[0] == 'D' && ALL_TREES[0] == 'A';
    assert h[..|DEPTH_PREFIX|] == DEPTH_PREFIX;
    assert h[|DEPTH_PREFIX|..] == NatToString(depth);
    DigitsValueInverse(depth);
  }

  // ---------------------------------------------------------------------
  // Sorting by the `Ascending` comparator

  predicate AllNodes(ts: seq<Tree>)
  {
    forall t :: t in ts ==> t.NonTerminal?
  }

  predicate SortedAscending(ts: seq<Tree>)
    requires AllNodes(ts)
  {
    forall i, j :: 0 <= i < j < |ts| ==> Ascending(ts[i], ts[j]) <= 0
  }

  /** Inserting a tree after every tree that does not come after it. */
  function InsertTree(t: Tree, ts: seq<Tree>): (r: seq<Tree>)
    requires t.NonTerminal? && AllNodes(ts)
    ensures multiset(r) == multiset(ts) + multiset{t}
    ensures AllNodes(r)
  {
    if ts == [] || Ascending(t, ts[0]) < 0 then [t] + ts
    else
      assert ts == [ts[0]] + ts[1..];
      [ts[0]] + InsertTree(t, ts[1..])
  }

  /** `Collections.sort` with `Ascending`: the trees inserted one at a time, first to last. */
  function SortTrees(ts: seq<Tree>): (r: seq<Tree>)
    requires AllNodes(ts)
    ensures multiset(r) == multiset(ts)
    ensures AllNodes(r)
  {
    if ts == [] then []
    else
      assert ts == ts[..|ts| - 1] + [ts[|ts| - 1]];
      InsertTree(ts[|ts| - 1], SortTrees(ts[..|ts| - 1]))
  }

  lemma {:induction false} InsertSorted(t: Tree, ts: seq<Tree>)
    requires t.NonTerminal? && AllNodes(ts) && SortedAscending(ts)
    ensures SortedAscending(InsertTree(t, ts))
    decreases |ts|
  {
    if ts != [] && Ascending(t, ts[0]) >= 0 {
      var rest := InsertTree(t, ts[1..]);
      assert InsertTree(t, ts) == [ts[0]] + rest;
      InsertSorted(t, ts[1..]);
      forall j | 0 <= j < |rest| ensures Ascending(ts[0], rest[j]) <= 0 {
        assert rest[j] in multiset(rest);
        if rest[j] == t {
          AscendingIsComparator(t, ts[0], t);
        } else {
          assert rest[j] in ts[1..];
          var k :| 0 <= k < |ts| - 1 && ts[1..][k] == rest[j];
          assert ts[k + 1] == rest[j];
        }
      }
      ConsSorted(ts[0], rest);
    } else {
      forall j | 0 <= j < |ts| ensures Ascending(t, ts[j]) <= 0 {
        if j > 0 {
          AscendingIsComparator(t, ts[0], ts[j]);
        }
      }
      ConsSorted(t, ts);
    }
  }

  lemma ConsSorted(x: Tree, rest: seq<Tree>)
    requires x.NonTerminal? && AllNodes(rest) && SortedAscending(rest)
    requires forall j :: 0 <= j < |rest| ==> Ascending(x, rest[j]) <= 0
    ensures AllNodes([x] + rest) && SortedAscending([x] + rest)
  {
    var r := [x] + rest;
    forall i, j | 0 <= i < j < |r| ensures Ascending(r[i], r[j]) <= 0 {
      if i == 0 {
        assert r[j] == rest[j - 1];
      } else {
        assert r[i] == rest[i - 1] && r[j] == rest[j - 1];
      }
    }
  }

  /** The sorted trees are in ascending order. */
  lemma {:induction false} SortTreesSorted(ts: seq<Tree>)
    requires AllNodes(ts)
    ensures SortedAscending(SortTrees(ts))
    decreases |ts|
  {
    if ts != [] {
      SortTreesSorted(ts[..|ts| - 1]);
      InsertSorted(ts[|ts| - 1], SortTrees(ts[..|ts| - 1]));
    }
  }

  // ---------------------------------------------------------------------
  // The program

  /** Each tree occurs at most once. */
  ghost predicate Distinct(ts: seq<Tree>)
  {
    forall t :: multiset(ts)[t] <= 1
  }

  lemma {:induction false} DistinctByIndex(ts: seq<Tree>)
    requires forall i, j :: 0 <= i < j < |ts| ==> ts[i] != ts[j]
    ensures Distinct(ts)
    decreases |ts|
  {
    if ts != [] {
      var init, last := ts[..|ts| - 1], ts[|ts| - 1];
      assert ts == init + [last];
      DistinctByIndex(init);
      assert last !in init;
    }
  }

  /**
   * What the program shows for a sentence, given whether the parse ran to
   * the end and the chart it filled: each tree once, exactly the trees of the
   * finished wrapper items at position 0, each a derivation of the sentence;
   * a heading that names the verdict; a chart every item of which the
   * closure of its position's seeds reaches; and either a complete chart,
   * each set exactly its closure, with every derivation among the trees, or a
   * set cut at the size cap, so that closure has more than `EXPANSION_LIMIT`
   * items.
   */
  ghost predicate ParseShown(g: Cfg, sentence: string, full: bool, chart: seq<set<EarleyItem.Item>>,
                             heading: string, trees: seq<Tree>)
    requires g.lhss != []
  {
    var input := Symbols(sentence);
    && |chart| == |input| + 1
    && (forall q, it :: 0 <= q <= |input| && it in chart[q] ==> Earley.ItemOK(g, input, q, it))
    && (forall q :: 0 <= q <= |input| ==> |chart[q]| <= Earley.EXPANSION_LIMIT + 1)
    && (set t | t in trees) == (set it | it in chart[0] && Earley.IsResultItem(it) :: it.CompleteTop())
    && (forall t :: t in trees ==> Earley.ResultTree(g, input, t))
    && Distinct(trees)
    && heading == ParseHeading(VerdictOf(full, |trees|), sentence)
    && Earley.Grounded(g, input, chart, 0)
    && (full ==> Earley.ChartComplete(g, input, chart) && forall t :: Earley.ResultTree(g, input, t) ==> t in trees)
    && (full ==> forall q, it :: 0 <= q <= |input| ==>
                   (it in chart[q] <==> Earley.Reach(g, chart[q + 1..], q, Earley.Seeds(g, input, chart, q), it)))
    && (!full ==> exists q :: 0 <= q <= |input| && |chart[q]| == Earley.EXPANSION_LIMIT + 1)
  }

  /**
   * What the program shows without a sentence, given the depth the loop
   * stopped at and why: the loop stopped by its rule; the heading says
   * "all" exactly when the size repeated, and the depth otherwise; the trees
   * are the start symbol's list after that many rounds, which holds its
   * derivation trees of height at most the depth plus one, and all of them
   * when the size repeated.
   */
  ghost predicate EnumShown(g: Cfg, depth: nat, stop: Stop, heading: string, trees: seq<Tree>)
    requires g.WellFormed() && g.lhss != []
  {
    && StopRule(g, depth, stop)
    && heading == EnumHeading(stop == SizeUnchanged, depth)
    && g.Start() in Round(g, depth) && multiset(trees) == multiset(Round(g, depth)[g.Start()])
    && (forall t: Tree :: t in trees <==> t.NonTerminal? && t.sym == g.Start() && Derivation(g, t) && Height(t) <= depth + 1)
    && (stop == SizeUnchanged ==> forall t: Tree :: t.NonTerminal? && t.sym == g.Start() && Derivation(g, t) ==> t in trees)
  }

  /** The grammar alone fixes where the enumeration stops, why, its heading and its trees, duplicates counted. */
  lemma EnumShownUnique(g: Cfg, d1: nat, s1: Stop, h1: string, ts: seq<Tree>, d2: nat, s2: Stop, h2: string, us: seq<Tree>)
    requires g.WellFormed() && g.lhss != []
    requires EnumShown(g, d1, s1, h1, ts) && EnumShown(g, d2, s2, h2, us)
    ensures d1 == d2 && s1 == s2 && h1 == h2 && multiset(ts) == multiset(us)
  {
    StopsAfterUnique(MaxDepth(g), Trace(g, MaxDepth(g)), d1, s1, d2, s2);
  }

  /** The trees a parse returns are nodes, since the start symbol is a nonterminal. */
  lemma ResultsAreNodes(g: Cfg, input: seq<string>, trees: seq<Tree>)
    requires g.WellFormed() && g.lhss != []
    requires forall t :: t in trees ==> Earley.ResultTree(g, input, t)
    ensures AllNodes(trees)
  {
    assert g.IsNonTerminal(g.Start()) by {
      assert g.lhss[0] in g.lhss;
    }
  }

  /** The parsing branch: the sentence's symbols parsed, and the heading for what was found. */
  method ParseSentence(g: Cfg, sentence: string)
    returns (full: bool, ghost chart: seq<set<EarleyItem.Item>>, heading: string, trees: seq<Tree>)
    requires Earley.Parsable(g)
    ensures AllNodes(trees) && ParseShown(g, sentence, full, chart, heading, trees)
  {
    var parser := new Earley.Earley(g);
    var input := SymList(sentence);
    full, trees := parser.Parse(input);
    chart := parser.lastStates;
    if full {
      Earley.CompleteChartIsClosure(g, input, chart);
    }
    ResultsAreNodes(g, input, trees);
    DistinctByIndex(trees);
    heading := ParseHeading(VerdictOf(full, |trees|), sentence);
  }

  /** The enumeration branch: the trees of the start symbol, and the heading saying how far they go. */
  method EnumerateTrees(g: Cfg) returns (depth: nat, stop: Stop, heading: string, trees: seq<Tree>)
    requires g.WellFormed() && g.lhss != []
    ensures AllNodes(trees) && EnumShown(g, depth, stop, heading, trees)
  {
    trees, depth, stop := Enumerate(g);
    heading := EnumHeading(stop == SizeUnchanged, depth);
  }

  /** Sorting keeps what a parse shows: the same trees, as many, each once. */
  lemma PermutedParseShown(g: Cfg, sentence: string, full: bool, chart: seq<set<EarleyItem.Item>>,
                           heading: string, ts: seq<Tree>, us: seq<Tree>)
    requires g.lhss != [] && multiset(ts) == multiset(us)
    requires ParseShown(g, sentence, full, chart, heading, ts)
    ensures ParseShown(g, sentence, full, chart, heading, us)
  {
    SameElements(ts, us);
    assert (set t | t in ts) == (set t | t in us);
  }

  /** Sorting keeps what an enumeration shows: the same trees, as many. */
  lemma PermutedEnumShown(g: Cfg, depth: nat, stop: Stop, heading: string, ts: seq<Tree>, us: seq<Tree>)
    requires g.WellFormed() && g.lhss != [] && multiset(ts) == multiset(us)
    requires EnumShown(g, depth, stop, heading, ts)
    ensures EnumShown(g, depth, stop, heading, us)
  {
    SameElements(ts, us);
  }

  /** Lists that are the same, duplicates counted, have the same length and the same members. */
  lemma SameElements(ts: seq<Tree>, us: seq<Tree>)
    requires multiset(ts) == multiset(us)
    ensures |ts| == |us| && forall t :: t in ts <==> t in us
  {
    assert |ts| == |multiset(ts)| == |multiset(us)| == |us|;
    forall t ensures t in ts <==> t in us {
      assert t in ts <==> t in multiset(ts);
      assert t in us <==> t in multiset(us);
    }
  }

  /** The grammar's problems, the headline and the trees the program reports. */
  datatype Report = Report(
    grammar: Cfg,
    unreachable: set<string>,
    unrealizable: set<string>,
    nullable: set<string>,
    cyclic: set<string>,
    ambiguous: bool,
    heading: string,
    trees: seq<Tree>)

  /** What a run ends with: the usage message, or a report. */
  datatype Outcome = Usage | Shown(report: Report)

  /** The analyses reported are the grammar's own. */
  ghost predicate PropertiesShown(r: Report)
    requires r.grammar.lhss != []
  {
    var g := r.grammar;
    && GrammarProperties.IsUnreachableSet(g, r.unreachable)
    && GrammarProperties.IsUnrealizableSet(g, r.unrealizable)
    && GrammarProperties.IsNullableSet(g, r.nullable)
    && GrammarProperties.IsCyclicSet(g, r.nullable, r.cyclic)
    && (r.ambiguous <==> exists nt :: nt in r.cyclic && nt !in r.unreachable && nt !in r.unrealizable)
  }

  /**
   * The program: fewer than two arguments give the usage message. Otherwise
   * the argument pairs give the grammar, its problems are computed, and then
   * an odd last argument is parsed, or else the derivation trees are
   * enumerated; the trees are shown in ascending order.
   */
  method Run(args: seq<string>) returns (out: Outcome)
    requires |args| >= 2 && |args| % 2 == 1 ==> args[0] != Earley.START
    ensures out.Usage? <==> |args| < 2
    ensures out.Shown? ==>
      && out.report.grammar == ArgGrammar(args) && out.report.grammar.lhss != []
      && out.report.grammar.WellFormed() && out.report.grammar.Start() == args[0]
      && PropertiesShown(out.report)
      && AllNodes(out.report.trees) && SortedAscending(out.report.trees)
    ensures out.Shown? && Sentence(args).Some? ==>
      exists full: bool, chart: seq<set<EarleyItem.Item>> ::
        ParseShown(ArgGrammar(args), Sentence(args).value, full, chart, out.report.heading, out.report.trees)
    ensures out.Shown? && Sentence(args).None? ==>
      exists depth: nat, stop: Stop :: EnumShown(ArgGrammar(args), depth, stop, out.report.heading, out.report.trees)
  {
    if |args| < 2 {
      return Usage;
    }
    var builder := BuildGrammar(args);
    var g := builder.Frozen();
    ArgGrammarStart(args);
    var properties := new GrammarProperties.GrammarProperties(g);
    var ambiguous := properties.InfinitelyAmbiguous();
    if |args| % 2 == 1 {
      ArgGrammarParsable(args);
      var full, heading, found;
      ghost var chart;
      full, chart, heading, found := ParseSentence(g, args[|args| - 1]);
      var trees := SortTrees(found);
      SortTreesSorted(found);
      PermutedParseShown(g, args[|args| - 1], full, chart, heading, found, trees);
      out := Shown(Report(g, properties.unreachable, properties.unrealizable, properties.nullable,
                          properties.cyclic, ambiguous, heading, trees));
    } else {
      var depth, stop, heading, found;
      depth, stop, heading, found := EnumerateTrees(g);
      var trees := SortTrees(found);
      SortTreesSorted(found);
      PermutedEnumShown(g, depth, stop, heading, found, trees);
      out := Shown(Report(g, properties.unreachable, properties.unrealizable, properties.nullable,
                          properties.cyclic, ambiguous, heading, trees));
    }
  }

}
