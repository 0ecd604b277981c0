/**
 * Derivation trees of a grammar: the trees the Earley parser returns and
 * the `Expansion` enumerator lists.
 */
module Derivations {
  import opened Grammar
  import opened ParseTree

  /** The root labels of a sequence of trees. */
  function Labels(ts: seq<Tree>): (labels: seq<string>)
    ensures |labels| == |ts| && forall i :: 0 <= i < |ts| ==> labels[i] == ts[i].sym
  {
    if ts == [] then [] else [ts[0].sym] + Labels(ts[1..])
  }

  /**
   * A derivation tree of `g`: a leaf is a terminal, and a node is labelled by
   * a nonterminal one of whose productions spells its children's labels.
   */
  ghost predicate Derivation(g: Cfg, t: Tree)
    decreases t
  {
    match t
    case Terminal(s) => !g.IsNonTerminal(s)
    case NonTerminal(s, cs) =>
      && s in g.productions && Labels(cs) in g.productions[s]
      && forall i :: 0 <= i < |cs| ==> Derivation(g, cs[i])
  }
}
