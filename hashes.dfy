/**
 * The Java hash codes the model needs, over unbounded integers: the 32-bit
 * wrap-around of Java `int` arithmetic is not modelled, so only the shape of
 * each formula (and hence "equal values hash equally") carries over.
 */
module Hashes {

  /** `String.hashCode`: h = 31*h + c over the characters, starting from 0. */
  function StringHash(s: string): int
  {
    if s == [] then 0 else 31 * StringHash(s[..|s| - 1]) + (s[|s| - 1] as int)
  }

  /** `ArrayList.hashCode`: h = 31*h + hash(e) over the elements, starting from 1. */
  function ListHash<T>(xs: seq<T>, h: T -> int): int
  {
    if xs == [] then 1 else 31 * ListHash(xs[..|xs| - 1], h) + h(xs[|xs| - 1])
  }
}
