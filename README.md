# Derivation trees of context-free grammars, in Dafny

This project models the core of a small context-free-grammar toolkit. The
toolkit reads a grammar from its command-line arguments, reports the
grammar's problems, and then does one of two things. Given a sentence, it
parses it and shows every derivation tree. Given no sentence, it enumerates
the derivation trees of the start symbol.

The model has one module per source file:

- `Cons` models the immutable cons lists as sequences: list equality and
  hashing, and the iterator as a class with a cursor.
- `ParseTree` models the two tree classes as one datatype `Tree`: derived
  height, width and sentence, structural equality and hashing, and the
  `Ascending` comparator.
- `Grammar` models the grammar.
  - A class `Grammar` with `AddProduction` mirrors the mutable builder.
  - The datatype `Cfg` is the built grammar: nonterminals in order of first
    definition, plus their productions in insertion order.
- `GrammarProperties` models the four worklist and `while (changed)`
  analyses (unreachable, unrealizable, nullable and cyclic nonterminals)
  and the "infinitely ambiguous" flag.
  - Each loop is a method proved against a fixed-point characterisation.
  - That characterisation includes the leastness that makes the fixed point
    the intended one.
- `EarleyItem` and `Earley` model the right-to-left Earley parser that keeps
  every derivation tree.
  - Every item in the chart is proved to stand for real derivations.
  - The returned trees are exactly the derivations of the input whenever no
    position's item set was cut off at `EXPANSION_LIMIT`.
- `Expansion` models the bounded breadth-first enumerator.
  - After `k` rounds, each nonterminal's list holds exactly its derivation
    trees of height at most `k + 1`.
  - The charge of height times width is never refunded.
  - If a round leaves the total size unchanged, the lists already hold every
    derivation tree.
- `Driver` models the command-line program:
  - `symList` and the argument pairing with `|` splitting;
  - the enumeration stop rule;
  - the choice of heading;
  - the final sort with the `Ascending` comparator.
- `Derivations` defines what a derivation tree of a grammar is. Both the
  parser and the enumerator are specified by it.
- `Hashes` holds Java's string and list hash recurrences.
- `Wrappers` holds `Option`.

Java's `null` becomes the empty sequence (for `Cons`) or `None` (for
`expansions` and `derivations`). A Java `IllegalStateException` or
`IllegalArgumentException` on a finished item becomes a precondition. The
parser is proved never to violate one.

## Model

| member | source | states |
|---|---|---|
| Cons.Cons | Cons.java:8-11 | a cons cell is one longer than its tail, has the head first, and leaves the tail unchanged after it |
| Cons.ConsEquals | Cons.java:13-17 | a non-empty list equals another exactly when both have the same length and are pairwise equal under the element `equals` |
| Cons.ConsHash | Cons.java:19-21 | a non-empty list's hash is Java's list hash recurrence over the list read from its last element back to its head |
| Cons.IterableEquals | Cons.java:48-52 | the wrapper's `equals`: pairwise equality of same-length lists, so the empty (null) list equals only itself |
| Cons.IterableHash | Cons.java:54-56 | the wrapper's `hashCode`: the reversed-list hash recurrence, 1 for the empty (null) list |
| Cons.EqualListsHashEqually | Cons.java:19-21 | equal lists have equal hash codes when equal elements hash equally; the empty list hashes to 1 |
| Cons.ConsIterator.constructor | Cons.java:26-28 | the cursor starts at the whole list |
| Cons.ConsIterator.HasNext | Cons.java:30-32 | there is a next element exactly when the rest of the list is non-empty |
| Cons.ConsIterator.Next | Cons.java:34-38 | returns the head of the rest and moves the cursor to its tail |
| Cons.Iterate | Cons.java:58-65 | iterating a list with `hasNext`/`next` visits exactly its elements, head first, in order |
| ParseTree.Height | TerminalTree.java:14-16 | every tree has height at least 1 |
| ParseTree.Width | NonTerminalTree.java:40-42 | every tree has width at least 1, the width of a childless node being `max(1, 0)` |
| ParseTree.NewNonTerminal | NonTerminalTree.java:18-34 | the constructor's loop and the `addSentence` buffer compute exactly the node's height, width and sentence |
| ParseTree.MaxHeightBounds | NonTerminalTree.java:22-28 | the running maximum bounds every child's height and is 1 or the height of some child |
| ParseTree.HeightOfNode | NonTerminalTree.java:36-38 | a node is taller than each child and one taller than its tallest child; its height is 2 exactly when every child is a leaf, so a childless node has height 2 |
| ParseTree.SumWidthOfConcat | NonTerminalTree.java:23-27 | the running width sum, and the count of childless nodes, add up over concatenated child lists |
| ParseTree.WidthCountsColumns | NonTerminalTree.java:29 | a tree's width is its number of leaves plus its number of childless inner nodes |
| ParseTree.ColumnsOf | NonTerminalTree.java:23-29 | the children's total width is their number of leaves plus their childless inner nodes |
| ParseTree.AddSentence | TerminalTree.java:52-56 | `addSentence` only appends: the old buffer is a prefix of the new one |
| ParseTree.AddSentences | NonTerminalTree.java:52-55 | the children's `addSentence` calls in turn only append to the buffer |
| ParseTree.AddWordsConcat | TerminalTree.java:52-56 | appending words in two batches gives the same buffer as appending them all at once |
| ParseTree.AddSentenceIsAddWords | NonTerminalTree.java:52-55 | `addSentence` of a tree appends its leaf symbols in left-to-right order, each as one word |
| ParseTree.AddSentencesIsAddWords | NonTerminalTree.java:52-55 | the children's `addSentence` calls in turn append all their leaves in order |
| ParseTree.AddWordsJoins | TerminalTree.java:52-56 | appending non-empty words gives the old buffer, one space if it was non-empty, then the words separated by single spaces |
| ParseTree.SentenceIsJoinedLeaves | NonTerminalTree.java:31-33 | the cached sentence is the leaf symbols joined by single spaces, so a tree without leaves has the empty sentence |
| ParseTree.TreeEquals | TerminalTree.java:26-32 | leaf and node `equals` hold exactly for equal trees, so equal trees also have equal `hashCode`s and a hash set of trees is a set of values |
| ParseTree.ChildrenEqual | NonTerminalTree.java:57-63 | two child lists compare equal exactly when they are the same sequence of trees |
| ParseTree.ChildrenEqualIsListEquality | NonTerminalTree.java:57-63 | the cons-list `equals` with tree `equals` on the elements holds exactly for equal child lists |
| ParseTree.ChildrenHashIsListHash | NonTerminalTree.java:65-67 | hashing children is the cons-list hash with tree `hashCode` on the elements |
| ParseTree.NodeHashIsConsHash | NonTerminalTree.java:65-67 | a node hashes as 7 times its label's hash plus its child list's cons-list hash, which is the list hash of the children from last to first |
| ParseTree.CompareToAntisymmetric | NonTerminalTree.java:137-138 | `String.compareTo` is antisymmetric and is 0 exactly for equal strings |
| ParseTree.CompareToTransitive | NonTerminalTree.java:137-138 | `String.compareTo` is transitive |
| ParseTree.CompareToIsLexicographic | NonTerminalTree.java:137-138 | `String.compareTo` is negative exactly when the first string has the smaller character at the first place they differ, or is a proper prefix of the second |
| ParseTree.Ascending | NonTerminalTree.java:132-141 | the comparison is 0 exactly for equal sentences of equal height; a shorter sentence comes first whatever the heights; of two different sentences of one length, the lexicographically smaller comes first, with `String.compareTo`'s value; for one sentence the lower tree comes first |
| ParseTree.AscendingIsComparator | NonTerminalTree.java:132-141 | `Ascending.compare` is antisymmetric and transitive |
| ParseTree.AscendingTiesDistinctTrees | NonTerminalTree.java:134-140 | two different trees (the two bracketings of `a a a` by `S -> S S` over `S -> a`) compare as 0 |
| Grammar.Grammar.constructor | src/Grammar.java:12-15 | a new grammar has no nonterminals and no productions |
| Grammar.Grammar.AddProduction | src/Grammar.java:18-26 | the lhs is appended to the nonterminals only when it had no productions; the rhs is appended to its productions; every other nonterminal's productions are unchanged |
| Grammar.BuildWellFormed | src/Grammar.java:18-26 | any sequence of `addProduction` calls gives duplicate-free nonterminals, exactly the keys of the production map, each with at least one production |
| Grammar.BuildStart | src/Grammar.java:29-31 | `getStart` is the lhs of the very first production added |
| Grammar.BuildProductions | src/Grammar.java:18-26 | a symbol has productions exactly when some added production had it on the left, and they are that symbol's right-hand sides in insertion order, duplicates and empty ones included |
| Grammar.BuildNonTerminalOrder | src/Grammar.java:33-36 | `nonTerminals` lists exactly the left-hand sides, in order of their first production |
| Grammar.ExpansionsIsTerminalTest | src/Grammar.java:39-41 | `expansions(sym)` is null exactly for symbols that are not nonterminals, and otherwise non-empty |
| GrammarProperties.EnqueueUsed | GrammarProperties.java:64-67 | the inner loops append to the queue exactly the nonterminals occurring in the productions of `nt`, never a terminal, and keep the old queue in front |
| GrammarProperties.Complement | GrammarProperties.java:171-177 | `complement` is the nonterminals outside the set |
| GrammarProperties.ComputeUnreachable | GrammarProperties.java:56-71 | the result is the nonterminals outside the least set that holds the start symbol and every nonterminal used by one of its members; the start symbol is never unreachable |
| GrammarProperties.AvoidsLoop | GrammarProperties.java:82-86 | the scan of a right-hand side finds no symbol in the set exactly when none is there |
| GrammarProperties.SomeAvoidsLoop | GrammarProperties.java:80-89 | `realizable` is set exactly when some production avoids the set |
| GrammarProperties.FindRealizable | GrammarProperties.java:78-95 | the pass finds a member with a production avoiding the set, or reports that there is none |
| GrammarProperties.SomeAvoidsShrinks | GrammarProperties.java:90-93 | a production that avoids a set avoids every subset of it, so removing a nonterminal never undoes an earlier finding |
| GrammarProperties.ComputeUnrealizable | GrammarProperties.java:73-98 | a nonterminal is outside the result exactly when one of its productions has no symbol in it, and the realizable ones lie in every set closed under that rule |
| GrammarProperties.WithinLoop | GrammarProperties.java:110-114 | the scan of a right-hand side finds every symbol in the set exactly when all are there |
| GrammarProperties.SomeWithinLoop | GrammarProperties.java:108-117 | `empty` is set exactly when some production consists of members only |
| GrammarProperties.FindNullable | GrammarProperties.java:105-123 | the pass finds a non-member with a production of members only, or reports that there is none |
| GrammarProperties.SomeWithinGrows | GrammarProperties.java:118-121 | a production within a set stays within every superset, so adding a nonterminal never undoes an earlier finding |
| GrammarProperties.ComputeNullable | GrammarProperties.java:100-126 | a nonterminal is in the result exactly when one of its productions consists of members only, and the result lies in every set closed under that rule |
| GrammarProperties.NonNullCountZero | GrammarProperties.java:133-137 | `nonNullCount` is 0 exactly when every symbol is nullable |
| GrammarProperties.NonNullCountOne | GrammarProperties.java:133-139 | `nonNullCount` is 1 when exactly one symbol is not nullable |
| GrammarProperties.NonNullCountTwo | GrammarProperties.java:133-139 | `nonNullCount` is at least 2 when two symbols are not nullable |
| GrammarProperties.NonNullCountPositive | GrammarProperties.java:133-137 | `nonNullCount` is positive when some symbol is not nullable |
| GrammarProperties.TrivialExpansionRule | GrammarProperties.java:137-143 | an all-nullable production contributes all its symbols; one with a single non-nullable symbol contributes that symbol when it is a nonterminal and nothing otherwise; one with two or more contributes nothing |
| GrammarProperties.ContributionInTrivialSet | GrammarProperties.java:132-144 | every production's contribution is in its nonterminal's trivial-expansion set |
| GrammarProperties.CountNonNull | GrammarProperties.java:133-136 | the counting loop computes `nonNullCount` |
| GrammarProperties.TrivialSetLoop | GrammarProperties.java:131-144 | the loop over one nonterminal's productions builds its trivial-expansion set |
| GrammarProperties.BuildTrivialExpansions | GrammarProperties.java:129-147 | the map holds exactly the nonterminals with a non-empty trivial-expansion set, each with that set |
| GrammarProperties.AbsorbTargets | GrammarProperties.java:154-158 | absorbing the targets' sets into `exp` only grows it, keeps it below every closed extension, changes no other key, and leaves every old target's set inside it |
| GrammarProperties.AbsorbOne | GrammarProperties.java:157-158 | one `addAll` of a target's set keeps the map between the trivial expansions and every closed extension |
| GrammarProperties.ClosurePass | GrammarProperties.java:153-161 | a pass only grows sets and stays below every closed extension; a pass that changes nothing leaves the map transitively closed |
| GrammarProperties.CloseTrivialExpansions | GrammarProperties.java:150-162 | the `while (changed)` loop ends with the least transitively closed map extending the trivial expansions |
| GrammarProperties.ComputeCyclic | GrammarProperties.java:128-169 | a nonterminal is cyclic exactly when it is in the transitive closure of its own trivial-expansion set |
| GrammarProperties.CyclicFromClosure | GrammarProperties.java:164-168 | reading the self-members off the closed map gives exactly the nonterminals in their own closure |
| GrammarProperties.SelfProductionIsCyclic | GrammarProperties.java:137-143 | a production `A -> A` makes `A` cyclic |
| GrammarProperties.TrivialCycle | GrammarProperties.java:150-168 | two nonterminals that trivially expand to each other are both cyclic |
| GrammarProperties.UnreachableSetUnique | GrammarProperties.java:56-71 | the unreachable characterisation has one solution |
| GrammarProperties.UnrealizableSetUnique | GrammarProperties.java:73-98 | the unrealizable characterisation has one solution |
| GrammarProperties.NullableSetUnique | GrammarProperties.java:100-126 | the nullable characterisation has one solution |
| GrammarProperties.NullableIsRealizable | GrammarProperties.java:100-126 | no nullable nonterminal is unrealizable |
| GrammarProperties.TerminalProductionIsRealizable | GrammarProperties.java:80-89 | a nonterminal with an empty or all-terminal production is realizable |
| GrammarProperties.EmptyProductionIsNullable | GrammarProperties.java:108-117 | a nonterminal with an empty production is nullable |
| GrammarProperties.GrammarProperties.constructor | GrammarProperties.java:17-23 | the four sets are the grammar's unreachable, unrealizable, nullable and cyclic nonterminals |
| GrammarProperties.GrammarProperties.InfinitelyAmbiguous | GrammarProperties.java:49-54 | true exactly when some cyclic nonterminal is neither unreachable nor unrealizable |
| EarleyItem.Fresh | EarleyItem.java:13-20 | a fresh item has nothing parsed, its dot after the last rhs symbol, the given finish, and is finished exactly for an empty rhs |
| EarleyItem.Item.Advance | EarleyItem.java:23-32 | advancing an unfinished item moves the dot one left, puts the tree in front of the parsed list, and keeps `nt`, `rhs`, `finish` (so `start()`) and the item invariant |
| EarleyItem.Item.Current | EarleyItem.java:77-81 | an unfinished item's current symbol is a symbol of its rhs |
| EarleyItem.FinishedAtCompletes | EarleyItem.java:69-71 | `finished(nt)` holds exactly for a finished item whose completion is a node for `nt`, whose children are the parsed trees, one per symbol of the production |
| EarleyItem.MatchIsCurrent | EarleyItem.java:73-81 | `match(sym)` holds exactly when the item is unfinished and `current()` is `sym` |
| EarleyItem.Item.Complete | EarleyItem.java:83-87 | a finished item completes to a node labelled `nt` with one child per rhs symbol |
| EarleyItem.AdvanceAll | EarleyItem.java:83-87 | advancing a fresh item over one tree per rhs symbol, right to left, finishes it, and it completes to the node with those trees as children, head first |
| EarleyItem.AdvanceSeq | EarleyItem.java:23-32 | repeated advances keep the item invariant |
| EarleyItem.AdvanceSeqParsed | EarleyItem.java:23-32 | repeated advances move the dot left by their number and prepend their trees |
| EarleyItem.Item.CompleteTop | EarleyItem.java:93-101 | a finished item with one parsed node returns that node |
| EarleyItem.ItemEquals | EarleyItem.java:34-40 | item `equals` holds exactly for equal items, so equal items have equal hash codes and a hash set of items is a set of values |
| Earley.Seed | src/Earley.java:29-33 | the seed at the right end is the unfinished wrapper item for `Start -> S`, finishing at the right end |
| Earley.SeedOK | src/Earley.java:29-33 | the seed stands for nothing parsed yet, ending at the right end |
| Earley.ScanOK | src/Earley.java:35-42 | scanning a terminal from the set to the right gives an item whose parsed trees spell the input from this position |
| Earley.AdvanceOK | src/Earley.java:66-68 | advancing over a derivation that spells `input[p..e]` an item that spells `input[e..finish]` gives one that spells `input[p..finish]` |
| Earley.PredictOK | src/Earley.java:75-76 | a predicted item stands for nothing parsed, ending here |
| Earley.MatchedIsNonTerminal | src/Earley.java:58-68 | no chart item waits for the wrapper symbol, so completion never sees it |
| Earley.CompleteOK | src/Earley.java:58-68 | a finished item completes to a derivation of the input between its positions, and advancing a waiting item over it keeps that item meaningful |
| Earley.ResultOK | src/Earley.java:86-89 | a finished wrapper item at position 0 holds one tree, a derivation of the whole input from the start symbol |
| Earley.ResultItemsInjective | src/Earley.java:86-89 | different result items give different trees, so the results have no duplicates |
| Earley.AdvanceMatching | src/Earley.java:39-41 | the items advanced from a set are exactly the advances of its items matching the symbol |
| Earley.FreshItems | src/Earley.java:75-76 | prediction enqueues exactly one fresh item per production, with finish at this position |
| Earley.AdvanceWithEmpties | src/Earley.java:77-79 | the item is advanced over exactly the recorded zero-width completions of the predicted nonterminal |
| Earley.ClosedAfterSkip | src/Earley.java:54-55 | dropping an item already in the set keeps the set closed up to the queue |
| Earley.ClosedAfterAdd | src/Earley.java:55-81 | adding an item and enqueuing its completions and predictions keeps the set closed up to the queue |
| Earley.EmptiesAdd | src/Earley.java:63-65 | the zero-width completions grow exactly by the added item's completion when it finishes here |
| Earley.Close | src/Earley.java:45-83 | the worklist loop keeps every item meaningful and reached by the closure of the queued seeds under completion and prediction; the set holds at most `EXPANSION_LIMIT + 1` items, and either stops at that size, holding that many items of the closure, or ends closed under prediction and completion with every seed item in |
| Earley.CloseStep | src/Earley.java:49-82 | one turn of the worklist loop keeps every item of the set and the queue meaningful and reached, and the set closed up to the queue; it drops a duplicate head, or adds the head and grows the set by one, every item once queued staying in the set or the queue |
| Earley.DerivedReached | src/Earley.java:58-79 | a completion into a waiting item, or a prediction, from items the closure reaches is reached too |
| Earley.Expand | src/Earley.java:57-81 | expanding an item enqueues every completion into a waiting item, every prediction, and every advance over a recorded zero-width completion, all meaningful |
| Earley.StateAt | src/Earley.java:28-83 | one position's set: meaningful, bounded, every item reached by the closure of that position's seeds (the wrapper item, or the scan of the terminal there), so a cut set holds `EXPANSION_LIMIT + 1` items of that closure; seeded and closed unless cut; empty when the input symbol there is a nonterminal or nothing can be scanned |
| Earley.ExtractResults | src/Earley.java:86-89 | the results are, without duplicates, the `completeTop` of exactly the finished wrapper items at position 0, all derivations of the input |
| Earley.SuffixStep | src/Earley.java:27-84 | a closed, seeded set at `pos` extends a complete chart suffix by one position |
| Earley.ItemsStep | src/Earley.java:27-84 | a set of meaningful items at `pos` extends a meaningful chart suffix |
| Earley.EmptyStep | src/Earley.java:36-42 | once an input symbol is a nonterminal, its set and all lower sets are empty |
| Earley.LeavesOfCons | src/Earley.java:66-68 | the leaves of a tree put in front of parsed trees come first |
| Earley.ChildrenInChart | src/Earley.java:27-84 | in a complete chart, each suffix of a derivation's children lies in the item at the position where its leaves start |
| Earley.ChildStep | src/Earley.java:58-79 | in a complete chart, the item over one more child is in the set at that child's first leaf |
| Earley.PredictedInChart | src/Earley.java:70-80 | in a complete chart, every production of a waiting nonterminal is predicted at that position |
| Earley.ScannedInChart | src/Earley.java:35-42 | in a complete chart, every item waiting for a terminal of the input is advanced over it |
| Earley.NodeInChart | src/Earley.java:58-68 | in a complete chart, advancing a waiting item over any derivation of the input between two positions gives an item of the set at the left position |
| Earley.EveryDerivationInChart | src/Earley.java:27-89 | in a complete chart, every derivation of the input from the start symbol yields a result item at position 0 |
| Earley.ResultsComplete | src/Earley.java:86-89 | from a complete chart, every derivation of the input from the start symbol is among the results |
| Earley.FillChart | src/Earley.java:22-84 | the descending position loop builds one meaningful, bounded set per position, each item reached by the closure of its position's seeds; the chart is complete unless some set reached `EXPANSION_LIMIT + 1` items of its closure, and everything at or left of a nonterminal input symbol is empty |
| Earley.GroundedStep | src/Earley.java:27-46 | storing a set of reached items at `pos` keeps every item of the chart from `pos` on reached by its position's closure |
| Earley.ReachInClosed | src/Earley.java:49-83 | a set closed under completion and prediction that holds the seeds holds every item their closure reaches |
| Earley.CompleteChartIsClosure | src/Earley.java:27-84 | in a chart nothing was cut from, whose items are all reached, each position's set is exactly the closure of its seeds |
| Earley.UnwaitedPredictionUnreached | src/Earley.java:70-76 | prediction follows a waiting item only: for `S -> b`, `A -> c` and the input `b`, a chart holding A's fresh item at the right end is not reached from the seed |
| Earley.Earley.constructor | src/Earley.java:16-19 | a parser for the grammar with no chart yet |
| Earley.Earley.Parse | src/Earley.java:21-92 | every chart item is reached by the closure of its position's seeds; it returns true only with a complete chart, and false only when some position's set holds `EXPANSION_LIMIT + 1` items of its closure; every set holds at most that many; the results are distinct derivations of the input from the start symbol, read off the finished wrapper items at position 0; when it returns true they are all the derivations |
| Expansion.Prefixed | src/Expansion.java:36-39 | putting a leaf in front keeps the number of children lists |
| Expansion.Product | src/Expansion.java:41-45 | the product has one children list per pair of a tree and an old list |
| Expansion.Nodes | src/Expansion.java:48-50 | one node per children list |
| Expansion.Next | src/Expansion.java:27-58 | a round gives a new list to exactly the nonterminals |
| Expansion.CombosOf | src/Expansion.java:31-47 | the right-to-left loop over a rhs builds exactly the children lists the specification gives, in the same order |
| Expansion.PrefixedMembers | src/Expansion.java:36-39 | a list is in the prefixed lists exactly when it is the leaf in front of an old list |
| Expansion.ProductMembers | src/Expansion.java:41-45 | a list is in the product exactly when it is a tree of the nonterminal's list in front of an old list |
| Expansion.CombosMembers | src/Expansion.java:31-47 | a children list is built for a rhs exactly when it has one child per symbol, each a leaf for a terminal or a tree of the previous list for a nonterminal |
| Expansion.CombosCount | src/Expansion.java:31-47 | a rhs gets as many children lists as the product of its nonterminals' list lengths; terminals count 1 and an empty rhs gets one |
| Expansion.NodesMembers | src/Expansion.java:48-50 | the new nodes are labelled `nt` over exactly the built children lists |
| Expansion.TreesForMembers | src/Expansion.java:30-55 | a nonterminal's new list holds exactly the nodes labelled by it over some production's children lists |
| Expansion.TreesForConcat | src/Expansion.java:30-55 | the trees of a production list are those of its parts, in order |
| Expansion.AllTreesConcat | src/Expansion.java:28-57 | the trees of a round are those of each nonterminal in turn |
| Expansion.ChargeMeaning | src/Expansion.java:51-53 | charging succeeds exactly when every running total stays within the limit, then adds the total cost; on failure the count is the first total past the limit and is kept |
| Expansion.ChargeSucceeds | src/Expansion.java:51-53 | a charge succeeds exactly when no running total passes the limit, and never lowers the count |
| Expansion.ChargeFails | src/Expansion.java:51-53 | a failed charge stops at the first running total past the limit |
| Expansion.ChargeConcat | src/Expansion.java:48-54 | charging two batches is charging them in turn, stopping after the first if it fails |
| Expansion.ChargeOne | src/Expansion.java:51-53 | one more tree adds its height times its width and fails past the limit |
| Expansion.ChargeStops | src/Expansion.java:52-53 | after a failed charge nothing more is charged |
| Expansion.Expansion.constructor | src/Expansion.java:14-23 | every nonterminal has an empty list; count and depth are 0; the enumerator invariant holds |
| Expansion.Expansion.AddNodes | src/Expansion.java:48-54 | the nodes over one production's children lists are appended and charged one by one, stopping at the first charge past the limit |
| Expansion.Expansion.ExpandNonTerminal | src/Expansion.java:29-55 | a nonterminal's new list is built and charged production by production |
| Expansion.Expansion.BuildNext | src/Expansion.java:27-57 | a whole round is built and charged nonterminal by nonterminal; when nothing passes the limit it is the next lists |
| Expansion.Expansion.Expand | src/Expansion.java:26-61 | a successful round replaces every list and adds 1 to the depth; a failed one keeps lists and depth but not the count; the invariant is kept |
| Expansion.Expansion.Size | src/Expansion.java:71-76 | `size()` is the sum of the list lengths over the nonterminals |
| Expansion.Expansion.Derivations | src/Expansion.java:63-65 | `derivations(sym)` is null exactly for a symbol that is not a nonterminal; after `depth()` rounds a nonterminal's list holds exactly its derivation trees of height at most `depth() + 1` |
| Expansion.Expansion.Depth | src/Expansion.java:67-69 | no listed tree is taller than `depth() + 1` |
| Expansion.NextUpToHeight | src/Expansion.java:25-61 | if the lists hold exactly the derivations up to height `h`, a round makes them hold exactly those up to height `h + 1` |
| Expansion.EmptyValid | src/Expansion.java:14-23 | the empty lists hold exactly the derivations of height at most 1, which is none |
| Expansion.NextValid | src/Expansion.java:26-61 | a round keeps the enumerator invariant with one more round counted |
| Expansion.NewTreeIsDerivation | src/Expansion.java:30-50 | every built tree is a derivation of height at most `h + 1` when the lists hold the derivations up to height `h` |
| Expansion.DerivationIsNewTree | src/Expansion.java:30-50 | every derivation of height at most `h + 1` has its children among the built lists |
| Expansion.SizeCountsNewTrees | src/Expansion.java:71-76 | the size after a round is the number of trees the round built |
| Expansion.NextMono | src/Expansion.java:26-61 | larger lists give larger next lists, counted with multiplicity |
| Expansion.SizeBelow | src/Expansion.java:71-76 | larger lists have a larger size, and an equal size means the same lists up to order |
| Expansion.DerivationOfEveryHeight | src/Expansion.java:25-61 | a derivation of height `h` has derivations of every height from 2 to `h` |
| Expansion.AllDerivationsFound | src/Main.java:53-56 | when a round leaves the total size unchanged, the lists hold every derivation tree of every nonterminal |
| Driver.SymList | src/Main.java:104-112 | `symList` keeps exactly the characters that are not white space and not 'ε', each as a one-character symbol, in order |
| Driver.SymbolsConcat | src/Main.java:104-112 | the symbols of a concatenation are those of its parts |
| Driver.SymbolsShape | src/Main.java:106-109 | every symbol is a single kept character of the string |
| Driver.SymbolsOfKept | src/Main.java:106-109 | a string of kept characters gives one symbol per character |
| Driver.SymbolsOfChar | src/Main.java:107-109 | a white-space character or 'ε' gives no symbol; any other gives itself |
| Driver.SymbolsIdempotent | src/Main.java:104-112 | spelling the symbols out again and re-reading them gives the same symbols |
| Driver.Split | src/Main.java:24 | splitting gives at least one piece |
| Driver.JoinSplit | src/Main.java:24 | joining the pieces with bars gives the argument back |
| Driver.SplitPiecesBarFree | src/Main.java:24 | no piece holds a bar |
| Driver.SplitJoin | src/Main.java:24 | bar-free pieces joined and split again come back, empty pieces included |
| Driver.PairProductions | src/Main.java:23-25 | an argument pair gives one production per piece of its rhs, in order, each the piece's symbols |
| Driver.SentenceApart | src/Main.java:18-22 | there is a sentence exactly when the argument count is odd, it is the last argument, and no production pair uses it |
| Driver.BuildGrammar | src/Main.java:21-26 | the grammar-building loops produce exactly the grammar the argument pairs describe |
| Driver.AddPair | src/Main.java:24-25 | the inner loop adds the productions of one pair, in order |
| Driver.ArgProductionsFirst | src/Main.java:21-25 | the first production comes from the first argument |
| Driver.ArgProductionsShort | src/Main.java:24-25 | every rhs symbol from the arguments is one character long |
| Driver.ArgGrammarStart | src/Main.java:21-28 | two or more arguments give a well-formed grammar whose start symbol is the first argument |
| Driver.ArgGrammarParsable | src/Main.java:32-35 | a grammar from the arguments can be parsed when its start symbol is not the wrapper name, because no rhs symbol is five characters long |
| Driver.MaxDepth | src/Main.java:46 | `maxDepth` is more than the number of nonterminals |
| Driver.RoundStep | src/Expansion.java:26-61 | one more `expand` from the lists and count of round `k` gives the lists of round `k + 1`, and its charge says whether round `k + 1` fits |
| Driver.RoundSize | src/Main.java:49-53 | the size recorded for round `k` is `size()` of its lists, 0 before the first round like `last_size` |
| Driver.StopsAfterUnique | src/Main.java:50-59 | for given round outcomes the loop stops at one depth for one reason only |
| Driver.StopRuleAt | src/Main.java:50-59 | the stop rule read round by round: every round up to the depth fitted, every earlier one changed the size, the last repeated it exactly on a stop for that, and a stop for the charge means the next round would not fit |
| Driver.CleanTrace | src/Main.java:50-59 | rounds that fitted and changed the size read so in the round outcomes |
| Driver.ChargeStops | src/Main.java:51-52 | clean rounds then a round past the charge limit stop the loop, for the charge, at the depth reached so far |
| Driver.SizeStops | src/Main.java:53-57 | clean rounds then a fitting round that repeats the size stop the loop there, with `finite` set |
| Driver.DepthStops | src/Main.java:50 | clean rounds up to `maxDepth` stop the loop at `maxDepth` |
| Driver.StopsForCharge | src/Main.java:51-52 | in any round outcomes, clean rounds then one that does not fit mean a stop for the charge |
| Driver.StopsForSize | src/Main.java:53-57 | in any round outcomes, clean rounds then one that fits and repeats the size mean a stop for the size |
| Driver.StopsAtMax | src/Main.java:50 | in any round outcomes, `max` clean rounds mean a stop at `max` |
| Driver.Enumerate | src/Main.java:46-60 | the loop stops after `depth` rounds exactly as the stop rule over the rounds from the empty lists says (`maxDepth` reached, the next round past the charge limit, or a round leaving the size unchanged); the trees are exactly the start symbol's derivations up to height depth + 1, and all of them after an unchanged size |
| Driver.ExpandRounds | src/Main.java:50-59 | the `while` loop's state after each round is that round's lists and count; it ends as the stop rule says |
| Driver.ExpandOnce | src/Main.java:51-58 | one iteration: `expand` fits exactly when round `k + 1` fits, the lists are then that round's and `size()` its recorded size, and an unchanged size means the lists hold every derivation |
| Driver.ExpandStep | src/Main.java:51-52 | one `expand`: a fitting round moves to round `k + 1`'s lists and count; a refused one keeps round `k`'s lists |
| Driver.LoopBody | src/Main.java:51-58 | one pass of the loop body: either the loop ends with the reason the stop rule gives at this round, or it moves to round `k + 1`, which fitted and changed the size |
| Driver.LoopStep | src/Main.java:51-57 | the decision after one round: a refused round is a stop for the charge at round `k`, a fitting round with the size unchanged is a stop for the size at round `k + 1`, and any other round continues with every round so far fitting and changing the size |
| Driver.MeasureRound | src/Main.java:53 | `size()` after a round is that round's recorded total, and a total equal to the previous one means the lists hold every derivation tree |
| Driver.StartTrees | src/Main.java:60 | the start symbol has a list, and it holds exactly its derivations of height at most depth + 1 |
| Driver.AllStartTrees | src/Main.java:55-60 | after an unchanged size the start symbol's list holds all its derivations |
| Driver.EmptySize | src/Main.java:49 | the size before the first round is 0, like `last_size` |
| Driver.VerdictOf | src/Main.java:36-43 | a truncated parse gives the partial verdict; otherwise 0, 1 or more trees give the three other verdicts, each exactly in its case |
| Driver.ParseHeading | src/Main.java:44 | the verdict and the sentence both read back from a parse heading, so different verdicts or sentences give different headings |
| Driver.ReadQuotedOwn | src/Main.java:44 | a heading reads back with its own verdict and sentence, and with no other verdict |
| Driver.PrefixesDiffer | src/Main.java:37-43 | the four verdict texts are told apart by some character |
| Driver.NatToString | src/Main.java:64 | the depth is written as decimal digits, at least one, with no leading zero |
| Driver.DigitsValueInverse | src/Main.java:64 | reading the written depth back gives the depth |
| Driver.EnumHeading | src/Main.java:61-64 | an enumeration heading tells whether the enumeration was complete and, if not, the depth, so "All derivation trees" never reads as a depth heading and different depths give different headings |
| Driver.DepthHeadingReadsBack | src/Main.java:64 | a depth heading is not "All derivation trees" and gives its depth back |
| Driver.InsertTree | src/Main.java:66 | inserting a tree gives the old trees plus that one |
| Driver.SortTrees | src/Main.java:66 | sorting permutes the trees |
| Driver.InsertSorted | src/Main.java:66 | inserting into an ascending list keeps it ascending |
| Driver.SortTreesSorted | src/Main.java:66 | the sorted trees are ascending under `Ascending` |
| Driver.ConsSorted | src/Main.java:66 | a tree not after any tree of an ascending list can go in front of it |
| Driver.DistinctByIndex | src/Earley.java:86-89 | results with no equal pair hold each tree once |
| Driver.ResultsAreNodes | src/Earley.java:86-89 | parse results are nodes, since the start symbol is a nonterminal |
| Driver.EnumShownUnique | src/Main.java:45-64 | what the enumeration branch shows is determined by the grammar: one depth, one reason to stop, one heading, one multiset of trees |
| Driver.ParseSentence | src/Main.java:32-44 | the parsing branch shows distinct derivations of the sentence's symbols read off the chart, under the heading for the verdict; every chart item is reached by its position's closure; the partial verdict comes only when some position's set holds `EXPANSION_LIMIT + 1` items of its closure, and otherwise the chart is complete, each set exactly its closure, and the trees are all the derivations |
| Driver.EnumerateTrees | src/Main.java:45-65 | the enumeration branch stops as the stop rule says and shows the start symbol's list of that round: all derivations under "All derivation trees" after an unchanged size, otherwise those up to height depth + 1 under the heading naming that depth |
| Driver.PermutedParseShown | src/Main.java:66 | sorting keeps what the parsing branch shows: the same trees, as many, each once |
| Driver.PermutedEnumShown | src/Main.java:66 | sorting keeps what the enumeration branch shows, the same multiset of trees |
| Driver.SameElements | src/Main.java:66 | a permutation holds the same elements |
| Driver.Run | src/Main.java:12-66 | fewer than two arguments give the usage message; otherwise the report holds the grammar of the argument pairs, its four analyses and ambiguity flag, and, sorted ascending, what the parsing branch shows for a chart reached from the sentence's seeds (partial only when a closure overflowed) or what the enumeration branch shows for the grammar |

## Left out

- SVG and HTML output are not modelled: `SVG.java`, `draw`/`drawSVG`, the layout constants, `showGrammar`, `report`, the page text, `PrintWriter` and `System.exit`. `Run` returns what would be printed as an `Outcome`.
- `Earley.printStates`, `EarleyItem.toString` and `shortName()` (used only by `toString`) are not modelled; they are debug output. `lastStates` is kept as a field.
- Java's 32-bit `int` wrap-around is not modelled: hash codes, the `count` charge and `size()` are unbounded integers. Hash codes are specified by the list-hash recurrence, and equality is proved to be equality of values, so equal objects hash equally. The item hash is computed on demand rather than cached, which gives the same value.
- Hash-set and hash-map iteration order is not modelled. Item sets, zero-width completions and analysis results are sets. The parser's results are a sequence whose element set is specified, not its order. Equal-comparing trees may therefore end up in a different order after sorting.
- `Collections.sort` is modelled by an insertion sort with the same comparator. Both are stable, so equal-comparing trees keep their input order; that order is the hash order noted above.
- `Character.isWhitespace` is written out as its list of characters, and strings are sequences of Unicode scalar values. A UTF-16 surrogate pair is therefore one symbol here, where Java would make two.
- The class-cast behaviour of `equals` on a foreign type is not modelled; no caller compares across types.
- Driver.Run: requires the first argument not to be "Start" when a sentence is given. With that name, Java's wrapper item clashes with the grammar's own nonterminal. The parser's correctness argument needs the wrapper name to be fresh.
- Earley.Close: when the closure at a position has exactly `EXPANSION_LIMIT + 1` items, the source reports a cut or not depending on the worklist order. The model leaves that order open, so it states only that a cut set holds that many items of the closure, and that an uncut set is closed.
- EarleyItem.ItemHash: states the source's formula only. Its one promise to callers, agreeing with `equals`, holds of any function because item equality is equality of values.
- Earley.Earley.Parse: requires a grammar whose start symbol is not "Start" and whose right-hand sides never use it (this always holds for grammars read from arguments). When the parse is truncated, it states only that the results are derivations, not which ones.
