/**
 Prefix codes satisfy the Kraft inequality, so the cheapest lengths within the inequality
 are no dearer than any prefix code.
 */
module PrefixCodes {
  import opened Bits
  import opened Sums
  import opened HuffmanTheory

  /** No word of a is a prefix of another. */
  ghost predicate PrefixFree(a: set<nat>, words: seq<seq<bool>>) {
    && (forall i :: i in a ==> i < |words|)
    && forall i, j :: i in a && j in a && i != j ==> !(words[i] <= words[j])
  }

  function Lengths(words: seq<seq<bool>>): (l: seq<nat>)
    ensures |l| == |words|
  {
    seq(|words|, i requires 0 <= i < |words| => |words[i]|)
  }

  function Tails(words: seq<seq<bool>>): (t: seq<seq<bool>>)
    ensures |t| == |words|
  {
    seq(|words|, i requires 0 <= i < |words| => if words[i] == [] then [] else words[i][1..])
  }

  /** The words of a that start with bit b. */
  ghost function Starting(a: set<nat>, words: seq<seq<bool>>, b: bool): set<nat>
    requires forall i :: i in a ==> i < |words|
  {
    set i | i in a && words[i] != [] && words[i][0] == b
  }

  /** The words that share a first bit, one bit shorter, are prefix free and have the same Kraft sum a level up. */
  lemma HalfCode(a: set<nat>, words: seq<seq<bool>>, b: bool, top: nat)
    requires PrefixFree(a, words) && top >= 1 && forall i :: i in a ==> |words[i]| <= top
    ensures var h := Starting(a, words, b);
            && PrefixFree(h, Tails(words)) && (forall i :: i in h ==> |Tails(words)[i]| <= top - 1)
            && Kraft(h, Lengths(words), top) == Kraft(h, Lengths(Tails(words)), top - 1)
  {
    var h, t := Starting(a, words, b), Tails(words);
    forall i, j | i in h && j in h && i != j
      ensures !(t[i] <= t[j])
    {
      assert words[i] == [b] + t[i] && words[j] == [b] + t[j];
    }
    SumSame(h, Shares(Lengths(words), top), h, Shares(Lengths(t), top - 1), |words|);
  }

  /** The Kraft inequality. */
  lemma {:induction false} KraftInequality(a: set<nat>, words: seq<seq<bool>>, top: nat)
    requires PrefixFree(a, words) && forall i :: i in a ==> |words[i]| <= top
    ensures Kraft(a, Lengths(words), top) <= Pow2(top)
    decreases top
  {
    hide SumOver;
    var l := Lengths(words);
    if x :| x in a && words[x] == [] {
      assert a == {x};
      Singleton(Shares(l, top), x);
    } else if a == {} {
      EmptySum(Shares(l, top), |l|);
    } else {
      var x :| x in a;
      assert top >= 1;
      HalfCode(a, words, false, top);
      HalfCode(a, words, true, top);
      KraftInequality(Starting(a, words, false), Tails(words), top - 1);
      KraftInequality(Starting(a, words, true), Tails(words), top - 1);
      SumUnion(Starting(a, words, false), Starting(a, words, true), Shares(l, top), |l|);
      assert a == Starting(a, words, false) + Starting(a, words, true);
    }
  }

  /** Lengths that no prefix code for the nodes of a beats. */
  ghost predicate Cheapest(a: set<nat>, w: seq<nat>, l: seq<nat>)
    requires |l| == |w|
  {
    forall words: seq<seq<bool>> :: |words| == |w| && PrefixFree(a, words) ==> Cost(a, w, l) <= Cost(a, w, Lengths(words))
  }

  lemma LongestWord(a: set<nat>, words: seq<seq<bool>>) returns (top: nat)
    requires forall i :: i in a ==> i < |words|
    ensures forall i :: i in a ==> |words[i]| <= top
  {
    if a == {} {
      top := 0;
    } else {
      var x := Deepest(a, Lengths(words));
      top := |words[x]|;
    }
  }

  /** The lengths of a Huffman tree are the cheapest. */
  lemma HuffmanCheapest(leaves: set<nat>, w: seq<nat>, merges: seq<Merge>, first: nat, d: seq<nat>)
    requires HuffmanRun(leaves, w, merges, first) && |d| == |w| && Depths(d, merges, first)
    ensures Cheapest(leaves, w, d)
  {
    hide HuffmanRun, Depths, Kraft, Cost;
    forall words: seq<seq<bool>> | |words| == |w| && PrefixFree(leaves, words)
      ensures Cost(leaves, w, d) <= Cost(leaves, w, Lengths(words))
    {
      var top := LongestWord(leaves, words);
      KraftInequality(leaves, words, top);
      Optimal(leaves, w, merges, first, d, 0, Lengths(words), top);
      assert Active(leaves, merges, first, 0) == leaves;
    }
  }
}
