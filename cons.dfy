/**
 * Immutable singly-linked lists (`Cons<T>` in the source). A list value is
 * modelled by the sequence of its elements, head first; the empty sequence
 * stands for the `null` list. Because every field of a cell is final, a list
 * is fully described by that sequence: consing builds a new sequence and
 * never touches the tail it is built on.
 */
module Cons {
  import Hashes

  /** `new Cons(head, tail)`. */
  function Cons<T>(head: T, tail: seq<T>): (r: seq<T>)
    ensures |r| == |tail| + 1 && r[0] == head && r[1..] == tail
  {
    [head] + tail
  }

  /**
   * `Cons.equals` on a non-null receiver: the other list must be non-null,
   * heads equal under `eq`, and the tails both null or equal. It holds
   * exactly for lists of the same length that are pairwise equal.
   */
  function ConsEquals<T>(xs: seq<T>, ys: seq<T>, eq: (T, T) -> bool): (r: bool)
    requires xs != []
    ensures r <==> Pairwise(xs, ys, eq)
    decreases |xs|
  {
    var r := ys != [] && eq(xs[0], ys[0]) &&
      (if xs[1..] == [] then ys[1..] == [] else ConsEquals(xs[1..], ys[1..], eq));
    PairwiseCons(xs, ys, eq);
    r
  }

  /**
   * `Cons.hashCode` on a non-null receiver: head + 31 * (tail hash, or 1 for
   * null). Read from the last element back, this is the `ArrayList` hash of
   * the reversed list.
   */
  function ConsHash<T>(xs: seq<T>, h: T -> int): (r: int)
    requires xs != []
    ensures r == Hashes.ListHash(Reverse(xs), h)
    decreases |xs|
  {
    assert Reverse(xs)[..|xs| - 1] == Reverse(xs[1..]);
    h(xs[0]) + 31 * (if xs[1..] == [] then 1 else ConsHash(xs[1..], h))
  }

  /** `ConsIterable.equals`: null equals only null, otherwise `Cons.equals`. */
  function IterableEquals<T>(xs: seq<T>, ys: seq<T>, eq: (T, T) -> bool): (r: bool)
    ensures r <==> Pairwise(xs, ys, eq)
  {
    if xs == [] then ys == [] else ConsEquals(xs, ys, eq)
  }

  /** `ConsIterable.hashCode`: 1 for the null list, otherwise `Cons.hashCode`. */
  function IterableHash<T>(xs: seq<T>, h: T -> int): (r: int)
    ensures r == Hashes.ListHash(Reverse(xs), h)
  {
    if xs == [] then 1 else ConsHash(xs, h)
  }

  /** The elements in the opposite order. */
  function Reverse<T>(xs: seq<T>): (r: seq<T>)
    ensures |r| == |xs| && forall i :: 0 <= i < |xs| ==> r[i] == xs[|xs| - 1 - i]
  {
    if xs == [] then [] else Reverse(xs[1..]) + [xs[0]]
  }

  /** Pairwise equality of two sequences under an element equality. */
  ghost predicate Pairwise<T>(xs: seq<T>, ys: seq<T>, eq: (T, T) -> bool)
  {
    |xs| == |ys| && forall i :: 0 <= i < |xs| ==> eq(xs[i], ys[i])
  }

  /** Two non-empty lists are pairwise equal exactly when their heads are equal and their tails pairwise equal. */
  lemma PairwiseCons<T>(xs: seq<T>, ys: seq<T>, eq: (T, T) -> bool)
    requires xs != []
    ensures Pairwise(xs, ys, eq) <==> ys != [] && eq(xs[0], ys[0]) && Pairwise(xs[1..], ys[1..], eq)
  {
    if ys != [] && eq(xs[0], ys[0]) && Pairwise(xs[1..], ys[1..], eq) {
      forall i | 0 <= i < |xs| ensures eq(xs[i], ys[i]) {
        if i > 0 { assert xs[1..][i - 1] == xs[i] && ys[1..][i - 1] == ys[i]; }
      }
    }
    if Pairwise(xs, ys, eq) && ys != [] {
      forall i | 0 <= i < |xs[1..]| ensures eq(xs[1..][i], ys[1..][i]) {
        assert eq(xs[i + 1], ys[i + 1]);
      }
    }
  }

  /** Lists equal under `eq` hash equally, provided `eq` is consistent with `h`. */
  lemma {:induction false} EqualListsHashEqually<T>(xs: seq<T>, ys: seq<T>, eq: (T, T) -> bool, h: T -> int)
    requires forall x, y :: eq(x, y) ==> h(x) == h(y)
    requires IterableEquals(xs, ys, eq)
    ensures IterableHash(xs, h) == IterableHash(ys, h)
    decreases |xs|
  {
    if xs != [] {
      if xs[1..] != [] {
        EqualListsHashEqually(xs[1..], ys[1..], eq, h);
      }
    }
  }

  /** `ConsIterator`: a cursor over a list, advanced by `Next`. */
  class ConsIterator<T> {
    var list: seq<T>

    constructor (list: seq<T>)
      ensures this.list == list
    {
      this.list := list;
    }

    function HasNext(): (b: bool)
      reads this
      ensures b <==> |list| > 0
    {
      list != []
    }

    method Next() returns (x: T)
      requires HasNext()
      modifies this
      ensures x == old(list)[0] && list == old(list)[1..]
    {
      x := list[0];
      list := list[1..];
    }
  }

  /**
   * A for-each loop over `Cons.iterable(list)`: it yields the head, then the
   * elements of the tail in order, and nothing for the null list.
   */
  method Iterate<T>(list: seq<T>) returns (visited: seq<T>)
    ensures visited == list
  {
    var it := new ConsIterator(list);
    visited := [];
    while it.HasNext()
      invariant visited + it.list == list
      decreases |it.list|
    {
      var x := it.Next();
      visited := visited + [x];
    }
  }
}
