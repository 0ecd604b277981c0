/**
 * Items of the right-to-left Earley parser (`EarleyItem`). An item records a
 * production `nt -> rhs` whose symbols from `pos` to the end have been
 * recognised, the trees built for them (head first, since trees are
 * prepended as the dot moves left), and `finish`, the input position where
 * the recognised part ends. The source caches its hash code; here the hash
 * is a function of the five fields, so it is fixed at construction.
 */
module EarleyItem {
  import Hashes
  import Cons
  import opened ParseTree

  datatype Item = Item(nt: string, parsed: seq<Tree>, rhs: seq<string>, pos: nat, finish: nat)
  {
    /** The shape every constructed item has: the dot lies within `rhs` and one tree per symbol right of it. */
    predicate Valid()
    {
      pos <= |rhs| && |parsed| == |rhs| - pos
    }

    /** `finished()`: the dot has reached the left end of the production. */
    predicate Finished()
    {
      pos == 0
    }

    /** `current()`: the symbol left of the dot; the source throws on a finished item. */
    function Current(): (sym: string)
      requires Valid() && !Finished()
      ensures sym in rhs
    {
      rhs[pos - 1]
    }

    /**
     * `finished(nt)`: a finished item for `sym`, one whose completion is a
     * node labelled `sym`.
     */
    function FinishedAt(sym: string): (r: bool)
      ensures r <==> Finished() && nt == sym
    {
      pos == 0 && nt == sym
    }

    /** `match(sym)`: the symbol left of the dot is `sym`. */
    predicate Match(sym: string)
      requires Valid()
    {
      pos > 0 && rhs[pos - 1] == sym
    }

    /** The advancing constructor: the source throws on a finished item. */
    function Advance(t: Tree): (it: Item)
      requires Valid() && !Finished()
      ensures it.Valid() && it.pos < pos
      ensures it.parsed == Cons.Cons(t, parsed) && it.parsed[1..] == parsed
      ensures it.nt == nt && it.rhs == rhs && it.finish == finish && it.Start() == Start()
    {
      Item(nt, [t] + parsed, rhs, pos - 1, finish)
    }

    /** `complete()`: the node for `nt` whose children are the parsed trees, head first. */
    function Complete(): (t: Tree)
      requires Valid() && Finished()
      ensures t.NonTerminal? && t.sym == nt && |t.children| == |rhs|
    {
      NonTerminal(nt, parsed)
    }

    /**
     * `start()`: the input position fixed when the item was created, where
     * its recognised part ends; the completer resumes the items waiting there.
     */
    function Start(): (n: nat)
      ensures n == finish
    {
      finish
    }

    /** `completeTop()`: the single parsed tree, which must be a node; the source throws otherwise. */
    function CompleteTop(): (t: Tree)
      requires Finished() && |parsed| == 1 && parsed[0].NonTerminal?
      ensures t.NonTerminal? && t in parsed
    {
      parsed[0]
    }
  }

  /** The constructor for an item at the right end of a production. */
  function Fresh(nt: string, rhs: seq<string>, finish: nat): (it: Item)
    ensures it.Valid() && it.nt == nt && it.rhs == rhs && it.finish == finish
    ensures it.parsed == [] && it.pos == |rhs|
    ensures it.Finished() <==> rhs == []
  {
    Item(nt, [], rhs, |rhs|, finish)
  }

  /**
   * `equals`: all five fields, the parsed lists compared as `Cons` lists of
   * trees. It is equality of the values, so a `HashSet` of items is a set of
   * values.
   */
  function ItemEquals(a: Item, b: Item): (r: bool)
    ensures r <==> a == b
  {
    ChildrenEqualIsListEquality(a.parsed, b.parsed);
    a.finish == b.finish && a.pos == b.pos && a.nt == b.nt && a.rhs == b.rhs &&
    Cons.IterableEquals(a.parsed, b.parsed, TreeEquals)
  }

  /**
   * `realHashCode`, without 32-bit wrap-around: the `Cons` list of parsed
   * trees hashes as the list read from its last element to its head.
   */
  function ItemHash(it: Item): (h: int)
    ensures h == 13 * it.finish + 19 * it.pos + 23 * Hashes.StringHash(it.nt) +
                 29 * Hashes.ListHash(it.rhs, Hashes.StringHash) +
                 (if it.parsed == [] then 1 else 37 * Hashes.ListHash(Cons.Reverse(it.parsed), TreeHash))
  {
    13 * it.finish + 19 * it.pos + 23 * Hashes.StringHash(it.nt) +
    29 * Hashes.ListHash(it.rhs, Hashes.StringHash) +
    (if it.parsed == [] then 1 else 37 * Cons.ConsHash(it.parsed, TreeHash))
  }

  /**
   * `finished(nt)` picks the items whose completion is a node for `nt`, with
   * one child per symbol of the production, the parsed trees in order.
   */
  lemma FinishedAtCompletes(it: Item, sym: string)
    requires it.Valid()
    ensures it.FinishedAt(sym) <==> it.Finished() && it.Complete().sym == sym
    ensures it.FinishedAt(sym) ==> |it.Complete().children| == |it.rhs| && it.Complete().children == it.parsed
  {
  }

  /** `match(sym)` holds exactly when the item is unfinished and `current()` is `sym`. */
  lemma MatchIsCurrent(it: Item, sym: string)
    requires it.Valid()
    ensures it.Match(sym) <==> !it.Finished() && it.Current() == sym
  {
  }

  /**
   * Advancing `|rhs|` times from a fresh item reaches a finished item whose
   * parsed list is the trees supplied, last one first; completing it gives a
   * node with one child per symbol of the production.
   */
  lemma {:induction false} AdvanceAll(nt: string, rhs: seq<string>, finish: nat, ts: seq<Tree>)
    requires |ts| == |rhs|
    ensures AdvanceSeq(Fresh(nt, rhs, finish), ts).Finished()
    ensures AdvanceSeq(Fresh(nt, rhs, finish), ts).Complete() == NonTerminal(nt, ts)
  {
    AdvanceSeqParsed(Fresh(nt, rhs, finish), ts);
  }

  /** Advancing with the trees of `ts`, rightmost first. */
  function AdvanceSeq(it: Item, ts: seq<Tree>): (r: Item)
    requires it.Valid() && |ts| <= it.pos
    ensures r.Valid()
    decreases |ts|
  {
    if ts == [] then it else AdvanceSeq(it.Advance(ts[|ts| - 1]), ts[..|ts| - 1])
  }

  lemma {:induction false} AdvanceSeqParsed(it: Item, ts: seq<Tree>)
    requires it.Valid() && |ts| <= it.pos
    ensures AdvanceSeq(it, ts).parsed == ts + it.parsed
    ensures AdvanceSeq(it, ts).pos == it.pos - |ts|
    ensures AdvanceSeq(it, ts).nt == it.nt && AdvanceSeq(it, ts).rhs == it.rhs
    decreases |ts|
  {
    if ts != [] {
      var init, last := ts[..|ts| - 1], ts[|ts| - 1];
      AdvanceSeqParsed(it.Advance(last), init);
      SnocAppend(init, last, it.parsed, ts);
    }
  }

  lemma SnocAppend<T>(init: seq<T>, last: T, rest: seq<T>, s: seq<T>)
    requires s != [] && init == s[..|s| - 1] && last == s[|s| - 1]
    ensures init + ([last] + rest) == s + rest
  {
    assert s == init + [last];
  }
}
