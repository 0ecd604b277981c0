/**
 * Derivation trees (`ParseTree`, `TerminalTree`, `NonTerminalTree`).
 * A leaf carries a terminal symbol; an inner node carries a nonterminal and
 * its children, left to right. The source caches a node's height, width and
 * sentence when it is built; here they are functions of the tree, and
 * `NewNonTerminal` is the constructor that computes the cached values.
 */
module ParseTree {
  import Hashes
  import Cons

  datatype Tree = Terminal(sym: string) | NonTerminal(sym: string, children: seq<Tree>)

  function Max(a: int, b: int): int { if a < b then b else a }

  /** Height: 1 for a leaf; one more than the larger of 1 and the tallest child for a node. */
  function Height(t: Tree): (h: nat)
    ensures h >= 1
    decreases t
  {
    match t
    case Terminal(_) => 1
    case NonTerminal(_, cs) => 1 + MaxHeight(cs)
  }

  /** The constructor's running maximum: starts at 1 and takes each child's height in turn. */
  function MaxHeight(cs: seq<Tree>): (m: nat)
    ensures m >= 1
    decreases cs
  {
    if cs == [] then 1 else Max(MaxHeight(cs[..|cs| - 1]), Height(cs[|cs| - 1]))
  }

  /** Width: 1 for a leaf; the larger of 1 and the children's total width for a node. */
  function Width(t: Tree): (w: nat)
    ensures w >= 1
    decreases t
  {
    match t
    case Terminal(_) => 1
    case NonTerminal(_, cs) => Max(1, SumWidth(cs))
  }

  /** The constructor's running total of the children's widths, starting from 0. */
  function SumWidth(cs: seq<Tree>): nat
    decreases cs
  {
    if cs == [] then 0 else SumWidth(cs[..|cs| - 1]) + Width(cs[|cs| - 1])
  }

  /** The terminal symbols at the leaves, left to right. */
  function Leaves(t: Tree): seq<string>
    decreases t
  {
    match t
    case Terminal(s) => [s]
    case NonTerminal(_, cs) => LeavesOf(cs)
  }

  function LeavesOf(cs: seq<Tree>): seq<string>
    decreases cs
  {
    if cs == [] then [] else Leaves(cs[0]) + LeavesOf(cs[1..])
  }

  /** Childless inner nodes: each draws as an empty-string leaf one column wide. */
  function EpsilonCount(t: Tree): nat
    decreases t
  {
    match t
    case Terminal(_) => 0
    case NonTerminal(_, cs) => if cs == [] then 1 else EpsilonsOf(cs)
  }

  function EpsilonsOf(cs: seq<Tree>): nat
    decreases cs
  {
    if cs == [] then 0 else EpsilonsOf(cs[..|cs| - 1]) + EpsilonCount(cs[|cs| - 1])
  }

  /**
   * `addSentence(buf)`: a leaf appends its symbol, preceded by one space when
   * the buffer is already non-empty; a node lets each child append in turn.
   * It only appends: the old buffer stays a prefix of the new one.
   */
  function AddSentence(t: Tree, buf: string): (r: string)
    ensures buf <= r
    decreases t
  {
    match t
    case Terminal(s) => (if |buf| > 0 then buf + " " else buf) + s
    case NonTerminal(_, cs) => AddSentences(cs, buf)
  }

  function AddSentences(cs: seq<Tree>, buf: string): (r: string)
    ensures buf <= r
    decreases cs
  {
    if cs == [] then buf else AddSentences(cs[1..], AddSentence(cs[0], buf))
  }

  /** The sentence a node caches: what `addSentence` writes into an empty buffer. */
  function Sentence(t: Tree): string
  {
    AddSentence(t, "")
  }

  /** Words separated by single spaces. */
  function JoinWords(ws: seq<string>): string
  {
    if ws == [] then "" else if |ws| == 1 then ws[0] else ws[0] + " " + JoinWords(ws[1..])
  }

  /**
   * The node constructor: the loop over the children that caches the height
   * and the width, and the sentence written through `addSentence`.
   */
  method NewNonTerminal(sym: string, children: seq<Tree>) returns (t: Tree, ht: nat, wd: nat, sentence: string)
    ensures t == NonTerminal(sym, children)
    ensures ht == Height(t) && wd == Width(t) && sentence == Sentence(t)
  {
    t := NonTerminal(sym, children);
    var h, w := 1, 0;
    var i := 0;
    while i < |children|
      invariant 0 <= i <= |children|
      invariant h == MaxHeight(children[..i]) && w == SumWidth(children[..i])
    {
      assert children[..i + 1][..i] == children[..i];
      h := Max(h, Height(children[i]));
      w := w + Width(children[i]);
      i := i + 1;
    }
    assert children[..i] == children;
    ht := h + 1;
    wd := Max(1, w);
    sentence := AddSentences(children, "");
  }

  // ---------------------------------------------------------------------
  // Height and width

  lemma {:induction false} MaxHeightBounds(cs: seq<Tree>)
    ensures forall i :: 0 <= i < |cs| ==> Height(cs[i]) <= MaxHeight(cs)
    ensures MaxHeight(cs) == 1 || exists i :: 0 <= i < |cs| && Height(cs[i]) == MaxHeight(cs)
    decreases |cs|
  {
    if cs != [] {
      var init := cs[..|cs| - 1];
      MaxHeightBounds(init);
      assert forall i :: 0 <= i < |init| ==> init[i] == cs[i];
    }
  }

  /**
   * A node is taller than each child, and its height is 2 or one more than
   * some child's; it has height 2 exactly when every child (if any) is a leaf.
   */
  lemma HeightOfNode(sym: string, cs: seq<Tree>)
    ensures forall i :: 0 <= i < |cs| ==> Height(cs[i]) < Height(NonTerminal(sym, cs))
    ensures Height(NonTerminal(sym, cs)) == 2 ||
            exists i :: 0 <= i < |cs| && Height(cs[i]) == Height(NonTerminal(sym, cs)) - 1
    ensures Height(NonTerminal(sym, cs)) == 2 <==> forall i :: 0 <= i < |cs| ==> cs[i].Terminal?
  {
    MaxHeightBounds(cs);
    if forall i :: 0 <= i < |cs| ==> cs[i].Terminal? {
      assert forall i :: 0 <= i < |cs| ==> Height(cs[i]) == 1;
      assert MaxHeight(cs) == 1;
    }
    if exists i :: 0 <= i < |cs| && cs[i].NonTerminal? {
      var i :| 0 <= i < |cs| && cs[i].NonTerminal?;
      assert Height(cs[i]) >= 2;
    }
  }

  lemma {:induction false} SumWidthOfConcat(a: seq<Tree>, b: seq<Tree>)
    ensures SumWidth(a + b) == SumWidth(a) + SumWidth(b)
    ensures EpsilonsOf(a + b) == EpsilonsOf(a) + EpsilonsOf(b)
    decreases |b|
  {
    if b == [] {
      assert a + b == a;
    } else {
      var b' := b[..|b| - 1];
      SumWidthOfConcat(a, b');
      assert (a + b)[..|a + b| - 1] == a + b';
    }
  }

  /**
   * The width of a tree is the number of its columns at the bottom: one per
   * leaf and one per childless node.
   */
  lemma {:induction false} WidthCountsColumns(t: Tree)
    ensures Width(t) == |Leaves(t)| + EpsilonCount(t)
    decreases t, 1
  {
    match t
    case Terminal(_) =>
    case NonTerminal(_, cs) =>
      if cs != [] {
        ColumnsOf(cs);
        assert SumWidth(cs) >= 1 by {
          SumWidthOfConcat([cs[0]], cs[1..]);
          assert [cs[0]] + cs[1..] == cs;
          assert SumWidth([cs[0]]) == Width(cs[0]) by { assert [cs[0]][..0] == []; }
        }
      }
  }

  lemma {:induction false} ColumnsOf(cs: seq<Tree>)
    ensures SumWidth(cs) == |LeavesOf(cs)| + EpsilonsOf(cs)
    decreases cs, 0
  {
    if cs != [] {
      WidthCountsColumns(cs[0]);
      ColumnsOf(cs[1..]);
      SumWidthOfConcat([cs[0]], cs[1..]);
      assert [cs[0]] + cs[1..] == cs;
      assert [cs[0]][..0] == [];
    }
  }

  // ---------------------------------------------------------------------
  // Sentences

  /** What a sequence of leaves appends to a buffer, one `addSentence` each. */
  function AddWords(buf: string, ws: seq<string>): string
    decreases |ws|
  {
    if ws == [] then buf else AddWords((if |buf| > 0 then buf + " " else buf) + ws[0], ws[1..])
  }

  lemma {:induction false} AddWordsConcat(buf: string, a: seq<string>, b: seq<string>)
    ensures AddWords(buf, a + b) == AddWords(AddWords(buf, a), b)
    decreases |a|
  {
    if a == [] {
      assert a + b == b;
    } else {
      assert (a + b)[1..] == a[1..] + b;
      AddWordsConcat((if |buf| > 0 then buf + " " else buf) + a[0], a[1..], b);
    }
  }

  /** Appending a tree's sentence is appending its leaves one by one. */
  lemma {:induction false} AddSentenceIsAddWords(t: Tree, buf: string)
    ensures AddSentence(t, buf) == AddWords(buf, Leaves(t))
    decreases t, 1
  {
    match t
    case Terminal(s) =>
    case NonTerminal(_, cs) => AddSentencesIsAddWords(cs, buf);
  }

  lemma {:induction false} AddSentencesIsAddWords(cs: seq<Tree>, buf: string)
    ensures AddSentences(cs, buf) == AddWords(buf, LeavesOf(cs))
    decreases cs, 0
  {
    if cs != [] {
      AddSentenceIsAddWords(cs[0], buf);
      AddSentencesIsAddWords(cs[1..], AddSentence(cs[0], buf));
      AddWordsConcat(buf, Leaves(cs[0]), LeavesOf(cs[1..]));
    }
  }

  lemma {:induction false} AddWordsJoins(buf: string, ws: seq<string>)
    requires forall i :: 0 <= i < |ws| ==> ws[i] != ""
    ensures AddWords(buf, ws) ==
            if ws == [] then buf else if buf == "" then JoinWords(ws) else buf + " " + JoinWords(ws)
    decreases |ws|
  {
    if ws != [] {
      var buf' := (if |buf| > 0 then buf + " " else buf) + ws[0];
      AddWordsJoins(buf', ws[1..]);
      assert buf' != "";
    }
  }

  /**
   * When no leaf symbol is empty, a tree's sentence is its leaves joined by
   * single spaces; a tree without leaves has the empty sentence.
   */
  lemma SentenceIsJoinedLeaves(t: Tree)
    requires forall i :: 0 <= i < |Leaves(t)| ==> Leaves(t)[i] != ""
    ensures Sentence(t) == JoinWords(Leaves(t))
  {
    AddSentenceIsAddWords(t, "");
    AddWordsJoins("", Leaves(t));
  }

  // ---------------------------------------------------------------------
  // Equality and hashing

  /**
   * `equals`: a leaf equals only a leaf with the same symbol; a node equals
   * only a node with the same label whose child list is equal. The result is
   * equality of the values, so a `HashSet` of trees is a set of values.
   */
  function TreeEquals(a: Tree, b: Tree): (r: bool)
    ensures r <==> a == b
    decreases a
  {
    match a
    case Terminal(s) => b.Terminal? && s == b.sym
    case NonTerminal(s, cs) => b.NonTerminal? && s == b.sym && ChildrenEqual(cs, b.children)
  }

  /** `ConsIterable.equals` on child lists, specialised to `TreeEquals`. */
  function ChildrenEqual(xs: seq<Tree>, ys: seq<Tree>): (r: bool)
    ensures r <==> xs == ys
    decreases xs
  {
    if xs == [] then ys == []
    else
      assert ys != [] && xs[0] == ys[0] && xs[1..] == ys[1..] ==> xs == ys by {
        if ys != [] && xs[0] == ys[0] && xs[1..] == ys[1..] {
          assert xs == [xs[0]] + xs[1..] && ys == [ys[0]] + ys[1..];
        }
      }
      ys != [] && TreeEquals(xs[0], ys[0]) && ChildrenEqual(xs[1..], ys[1..])
  }

  /**
   * `hashCode`: a leaf hashes as its symbol; a node as 7 * label plus the
   * hash code of its child list as a `Cons` list.
   */
  function TreeHash(t: Tree): int
    decreases t
  {
    match t
    case Terminal(s) => Hashes.StringHash(s)
    case NonTerminal(s, cs) => Hashes.StringHash(s) * 7 + ChildrenHash(cs)
  }

  /** `ConsIterable.hashCode` on child lists, specialised to `TreeHash`. */
  function ChildrenHash(xs: seq<Tree>): int
    decreases xs
  {
    if xs == [] then 1 else TreeHash(xs[0]) + 31 * ChildrenHash(xs[1..])
  }

  lemma {:induction false} ChildrenHashIsListHash(xs: seq<Tree>)
    ensures ChildrenHash(xs) == Cons.IterableHash(xs, TreeHash)
    decreases |xs|
  {
    if xs != [] && xs[1..] != [] {
      ChildrenHashIsListHash(xs[1..]);
    }
  }

  /**
   * A node's hash code is 7 times its label's plus the `Cons` list hash code
   * of its children, which weighs the first child least.
   */
  lemma NodeHashIsConsHash(sym: string, cs: seq<Tree>)
    ensures TreeHash(NonTerminal(sym, cs)) == Hashes.StringHash(sym) * 7 + Cons.IterableHash(cs, TreeHash)
    ensures TreeHash(NonTerminal(sym, cs)) == Hashes.StringHash(sym) * 7 + Hashes.ListHash(Cons.Reverse(cs), TreeHash)
  {
    ChildrenHashIsListHash(cs);
  }

  /** `ConsIterable.equals` with `TreeEquals` on the elements is equality of the child lists. */
  lemma {:induction false} ChildrenEqualIsListEquality(xs: seq<Tree>, ys: seq<Tree>)
    ensures Cons.IterableEquals(xs, ys, TreeEquals) <==> xs == ys
    decreases |xs|
  {
    if xs != [] && ys != [] && xs[1..] != [] {
      ChildrenEqualIsListEquality(xs[1..], ys[1..]);
    }
  }

  // ---------------------------------------------------------------------
  // The `Ascending` comparator

  /** `String.compareTo`: the first differing character decides, else the length. */
  function CompareTo(s1: string, s2: string): int
  {
    if s1 == [] || s2 == [] then |s1| - |s2|
    else if s1[0] != s2[0] then (s1[0] as int) - (s2[0] as int)
    else CompareTo(s1[1..], s2[1..])
  }

  /**
   * `Ascending.compare`: shorter sentences first; among sentences of one
   * length, `String.compareTo` order; for one sentence, the lower tree first.
   * It answers 0 exactly for trees with the same sentence and height.
   */
  function Ascending(a: Tree, b: Tree): (r: int)
    requires a.NonTerminal? && b.NonTerminal?
    ensures r == 0 <==> Sentence(a) == Sentence(b) && Height(a) == Height(b)
    ensures |Sentence(a)| < |Sentence(b)| ==> r < 0
    ensures |Sentence(a)| > |Sentence(b)| ==> r > 0
    ensures Sentence(a) == Sentence(b) ==> (r < 0 <==> Height(a) < Height(b))
    ensures |Sentence(a)| == |Sentence(b)| && Sentence(a) != Sentence(b) ==>
      r == CompareTo(Sentence(a), Sentence(b)) && (r < 0 <==> LexBefore(Sentence(a), Sentence(b)))
  {
    var sa, sb := Sentence(a), Sentence(b);
    CompareToAntisymmetric(sa, sb);
    CompareToIsLexicographic(sa, sb);
    if |sa| != |sb| then |sa| - |sb|
    else if sa != sb then CompareTo(sa, sb)
    else Height(a) - Height(b)
  }

  /**
   * Lexicographic order: `s` has the smaller character at the first place
   * the two differ, or is a proper prefix of `t`.
   */
  ghost predicate LexBefore(s: string, t: string)
  {
    || (exists k :: 0 <= k < |s| && k < |t| && s[..k] == t[..k] && s[k] < t[k])
    || (|s| < |t| && s == t[..|s|])
  }

  /** `String.compareTo` is negative exactly when the first string comes first lexicographically. */
  lemma {:induction false} CompareToIsLexicographic(s: string, t: string)
    ensures CompareTo(s, t) < 0 <==> LexBefore(s, t)
    decreases |s|
  {
    if s == [] || t == [] {
      if t != [] {
        assert s == t[..|s|];
      }
    } else if s[0] != t[0] {
      if s[0] < t[0] {
        assert s[..0] == t[..0];
      }
      if LexBefore(s, t) && s[0] > t[0] {
        if |s| < |t| && s == t[..|s|] {
          assert s[0] == t[..|s|][0];
        } else {
          var k :| 0 <= k < |s| && k < |t| && s[..k] == t[..k] && s[k] < t[k];
        }
      }
    } else {
      CompareToIsLexicographic(s[1..], t[1..]);
      LexBeforeTail(s, t);
    }
  }

  /** With equal first characters, the order is decided by the rests. */
  lemma LexBeforeTail(s: string, t: string)
    requires s != [] && t != [] && s[0] == t[0]
    ensures LexBefore(s, t) <==> LexBefore(s[1..], t[1..])
  {
    if LexBefore(s, t) {
      LexBeforeDropsHead(s, t);
    }
    if LexBefore(s[1..], t[1..]) {
      LexBeforeAddsHead(s, t);
    }
  }

  lemma LexBeforeDropsHead(s: string, t: string)
    requires s != [] && t != [] && s[0] == t[0] && LexBefore(s, t)
    ensures LexBefore(s[1..], t[1..])
  {
    var s', t' := s[1..], t[1..];
    if |s| < |t| && s == t[..|s|] {
      assert s' == t'[..|s'|];
    } else {
      var k :| 0 <= k < |s| && k < |t| && s[..k] == t[..k] && s[k] < t[k];
      assert k > 0;
      assert s'[..k - 1] == s[..k][1..] && t'[..k - 1] == t[..k][1..];
      assert s'[k - 1] < t'[k - 1];
    }
  }

  lemma LexBeforeAddsHead(s: string, t: string)
    requires s != [] && t != [] && s[0] == t[0] && LexBefore(s[1..], t[1..])
    ensures LexBefore(s, t)
  {
    var s', t' := s[1..], t[1..];
    if |s'| < |t'| && s' == t'[..|s'|] {
      assert s == [s[0]] + s' && t[..|s|] == [t[0]] + t'[..|s'|];
    } else {
      var k :| 0 <= k < |s'| && k < |t'| && s'[..k] == t'[..k] && s'[k] < t'[k];
      assert s[..k + 1] == [s[0]] + s'[..k] && t[..k + 1] == [t[0]] + t'[..k];
      assert s[k + 1] < t[k + 1];
    }
  }

  lemma {:induction false} CompareToAntisymmetric(s1: string, s2: string)
    ensures CompareTo(s1, s2) == -CompareTo(s2, s1)
    ensures CompareTo(s1, s2) == 0 <==> s1 == s2
    decreases |s1|
  {
    if s1 != [] && s2 != [] && s1[0] == s2[0] {
      CompareToAntisymmetric(s1[1..], s2[1..]);
      if s1[1..] == s2[1..] {
        assert s1 == [s1[0]] + s1[1..] && s2 == [s2[0]] + s2[1..];
      }
    }
  }

  lemma {:induction false} CompareToTransitive(s1: string, s2: string, s3: string)
    requires CompareTo(s1, s2) <= 0 && CompareTo(s2, s3) <= 0
    ensures CompareTo(s1, s3) <= 0
    decreases |s1|
  {
    if s1 != [] && s2 != [] && s3 != [] && s1[0] == s2[0] && s2[0] == s3[0] {
      CompareToTransitive(s1[1..], s2[1..], s3[1..]);
    }
  }

  /** `Ascending` is a valid comparator: antisymmetric and transitive. */
  lemma AscendingIsComparator(a: Tree, b: Tree, c: Tree)
    requires a.NonTerminal? && b.NonTerminal? && c.NonTerminal?
    ensures Ascending(a, b) == -Ascending(b, a)
    ensures Ascending(a, b) <= 0 && Ascending(b, c) <= 0 ==> Ascending(a, c) <= 0
  {
    CompareToAntisymmetric(Sentence(a), Sentence(b));
    if Ascending(a, b) <= 0 && Ascending(b, c) <= 0 {
      var sa, sb, sc := Sentence(a), Sentence(b), Sentence(c);
      if |sa| == |sb| == |sc| && sa != sc {
        CompareToAntisymmetric(sa, sc);
        if sa != sb && sb != sc {
          CompareToTransitive(sa, sb, sc);
        }
      }
    }
  }

  /**
   * The two bracketings of "a a a" under S -> S S | a are distinct trees
   * that `Ascending` does not tell apart.
   */
  lemma AscendingTiesDistinctTrees()
    ensures var a := Terminal("a");
            var left := NonTerminal("S", [NonTerminal("S", [NonTerminal("S", [a]), NonTerminal("S", [a])]), NonTerminal("S", [a])]);
            var right := NonTerminal("S", [NonTerminal("S", [a]), NonTerminal("S", [NonTerminal("S", [a]), NonTerminal("S", [a])])]);
            left != right && Ascending(left, right) == 0
  {
    var a := Terminal("a");
    var sa := NonTerminal("S", [a]);
    var pair := NonTerminal("S", [sa, sa]);
    var left := NonTerminal("S", [pair, sa]);
    var right := NonTerminal("S", [sa, pair]);
    assert [a][1..] == [] && [a][..0] == [];
    assert [sa, sa][1..] == [sa] && [sa, sa][..1] == [sa];
    assert [pair, sa][1..] == [sa] && [pair, sa][..1] == [pair];
    assert [sa, pair][1..] == [pair] && [sa, pair][..1] == [sa];
    assert [sa][1..] == [] && [sa][..0] == [];
    assert [pair][1..] == [] && [pair][..0] == [];
    assert LeavesOf([]) == [] && MaxHeight([]) == 1;
    assert LeavesOf([a]) == Leaves(a) + LeavesOf([]) == ["a"];
    assert Leaves(sa) == ["a"];
    assert LeavesOf([sa]) == ["a"];
    assert LeavesOf([sa, sa]) == Leaves(sa) + LeavesOf([sa]);
    assert Leaves(pair) == ["a", "a"];
    assert LeavesOf([pair]) == ["a", "a"];
    assert MaxHeight([a]) == Max(MaxHeight([]), Height(a)) == 1;
    assert MaxHeight([sa]) == 2;
    assert MaxHeight([sa, sa]) == Max(MaxHeight([sa]), Height(sa));
    assert Leaves(left) == ["a", "a", "a"] == Leaves(right);
    SentenceIsJoinedLeaves(left);
    SentenceIsJoinedLeaves(right);
    assert Sentence(left) == JoinWords(["a", "a", "a"]) == Sentence(right);
    assert Height(sa) == 2;
    assert Height(pair) == 3;
    assert MaxHeight([pair]) == Max(MaxHeight([]), Height(pair)) == 3;
    assert MaxHeight([pair, sa]) == Max(MaxHeight([pair]), Height(sa)) == 3;
    assert MaxHeight([sa, pair]) == Max(MaxHeight([sa]), Height(pair)) == 3;
    assert Height(left) == 4 == Height(right);
    assert left.children[0] != right.children[0];
  }
}
