/**
 The course of a run of merges: which nodes are in the queue when, the order in which they
 leave it, and the depths that follow.
 */
module HuffmanRuns {
  import opened Arith
  import opened Bits
  import opened Sums
  import opened HuffmanTheory

  /** Merge t takes the two lightest nodes of the queue and makes one of their joint weight. */
  ghost predicate Huffman(leaves: set<nat>, w: seq<nat>, merges: seq<Merge>, first: nat, t: nat) {
    && t < |merges| && first + t < |w|
    && TwoLightest(Active(leaves, merges, first, t), w, merges[t].n, merges[t].m)
    && w[first + t] == w[merges[t].n] + w[merges[t].m]
  }

  /** A run of merges that may not be finished. */
  ghost predicate RunTo(leaves: set<nat>, w: seq<nat>, merges: seq<Merge>, first: nat) {
    && first + |merges| <= |w|
    && (forall i :: i in leaves ==> i < first)
    && (forall t :: 0 <= t < |merges| ==> Huffman(leaves, w, merges, first, t))
  }

  lemma {:induction false} ActivePrefix(leaves: set<nat>, merges: seq<Merge>, first: nat, x: Merge, t: nat)
    requires t <= |merges|
    ensures Active(leaves, merges + [x], first, t) == Active(leaves, merges, first, t)
  {
    if t > 0 {
      ActivePrefix(leaves, merges, first, x, t - 1);
    }
  }

  /** Merging the two lightest nodes of the queue prolongs the run. */
  lemma RunGrows(leaves: set<nat>, w: seq<nat>, merges: seq<Merge>, first: nat, x: Merge)
    requires RunTo(leaves, w, merges, first) && first + |merges| < |w|
    requires TwoLightest(Active(leaves, merges, first, |merges|), w, x.n, x.m)
    ensures RunTo(leaves, w[first + |merges| := w[x.n] + w[x.m]], merges + [x], first)
    ensures Active(leaves, merges + [x], first, |merges| + 1)
              == Merged(Active(leaves, merges, first, |merges|), x.n, x.m, first + |merges|)
  {
    hide Active, Huffman;
    var w', merges' := w[first + |merges| := w[x.n] + w[x.m]], merges + [x];
    forall t | 0 <= t < |merges'|
      ensures Huffman(leaves, w', merges', first, t)
    {
      ActivePrefix(leaves, merges, first, x, t);
      if t < |merges| {
        MergeKept(leaves, w, merges, first, x, t);
      } else {
        MergeAdded(leaves, w, merges, first, x);
      }
    }
    QueueGrows(leaves, merges, first, x);
  }

  lemma QueueGrows(leaves: set<nat>, merges: seq<Merge>, first: nat, x: Merge)
    ensures Active(leaves, merges + [x], first, |merges| + 1)
              == Merged(Active(leaves, merges, first, |merges|), x.n, x.m, first + |merges|)
  {
    ActivePrefix(leaves, merges, first, x, |merges|);
  }

  lemma MergeKept(leaves: set<nat>, w: seq<nat>, merges: seq<Merge>, first: nat, x: Merge, t: nat)
    requires RunTo(leaves, w, merges, first) && first + |merges| < |w| && t < |merges| && x.n < |w| && x.m < |w|
    ensures Huffman(leaves, w[first + |merges| := w[x.n] + w[x.m]], merges + [x], first, t)
  {
    hide Active;
    assert Huffman(leaves, w, merges, first, t);
    ActivePrefix(leaves, merges, first, x, t);
    ActiveBelow(leaves, merges, first, t);
  }

  lemma MergeAdded(leaves: set<nat>, w: seq<nat>, merges: seq<Merge>, first: nat, x: Merge)
    requires RunTo(leaves, w, merges, first) && first + |merges| < |w|
    requires TwoLightest(Active(leaves, merges, first, |merges|), w, x.n, x.m)
    ensures Huffman(leaves, w[first + |merges| := w[x.n] + w[x.m]], merges + [x], first, |merges|)
  {
    hide Active;
    ActivePrefix(leaves, merges, first, x, |merges|);
    ActiveBelow(leaves, merges, first, |merges|);
  }

  /** The two nodes of merge t are in the queue just before it. */
  lemma Sons(leaves: set<nat>, w: seq<nat>, merges: seq<Merge>, first: nat, t: nat)
    requires RunTo(leaves, w, merges, first) && t < |merges|
    ensures var a := Active(leaves, merges, first, t);
            && merges[t].n in a && merges[t].m in a && merges[t].n != merges[t].m && first + t !in a
            && merges[t].n < first + t && merges[t].m < first + t && first + t < |w|
            && TwoLightest(a, w, merges[t].n, merges[t].m) && w[first + t] == w[merges[t].n] + w[merges[t].m]
            && Active(leaves, merges, first, t + 1) == Merged(a, merges[t].n, merges[t].m, first + t)
  {
    assert Huffman(leaves, w, merges, first, t);
    ActiveBelow(leaves, merges, first, t);
    NextQueue(leaves, merges, first, t);
    hide Active;
  }

  lemma NextQueue(leaves: set<nat>, merges: seq<Merge>, first: nat, t: nat)
    requires t < |merges|
    ensures Active(leaves, merges, first, t + 1)
              == Merged(Active(leaves, merges, first, t), merges[t].n, merges[t].m, first + t)
  {
  }

  lemma QueueBelow(leaves: set<nat>, w: seq<nat>, merges: seq<Merge>, first: nat, t: nat)
    requires RunTo(leaves, w, merges, first) && t <= |merges|
    ensures first + t <= |w| && forall i :: i in Active(leaves, merges, first, t) ==> i < first + t
  {
    ActiveBelow(leaves, merges, first, t);
  }

  /** Nodes that were merged never come back. */
  lemma {:induction false} Gone(leaves: set<nat>, w: seq<nat>, merges: seq<Merge>, first: nat, s: nat, t: nat)
    requires RunTo(leaves, w, merges, first) && s < t <= |merges|
    ensures merges[s].n !in Active(leaves, merges, first, t) && merges[s].m !in Active(leaves, merges, first, t)
  {
    hide RunTo, Huffman, Active, TwoLightest;
    Sons(leaves, w, merges, first, s);
    if s + 1 < t {
      Gone(leaves, w, merges, first, s, t - 1);
      Sons(leaves, w, merges, first, t - 1);
    }
  }

  lemma {:induction false} ActiveSize(leaves: set<nat>, w: seq<nat>, merges: seq<Merge>, first: nat, t: nat)
    requires RunTo(leaves, w, merges, first) && t <= |merges|
    ensures |Active(leaves, merges, first, t)| + t == |leaves|
  {
    hide RunTo, Huffman, TwoLightest;
    if t > 0 {
      ActiveSize(leaves, w, merges, first, t - 1);
      Sons(leaves, w, merges, first, t - 1);
      MergedSize(Active(leaves, merges, first, t - 1), merges[t - 1].n, merges[t - 1].m, first + t - 1);
    }
  }

  lemma MergedSize(a: set<nat>, n: nat, m: nat, node: nat)
    requires n in a && m in a && n != m && node !in a
    ensures |Merged(a, n, m, node)| + 1 == |a|
  {
    assert a - {n, m} == a - {n} - {m};
  }

  /** Merging moves weight around but neither adds nor loses any. */
  lemma {:induction false} ActiveTotal(leaves: set<nat>, w: seq<nat>, merges: seq<Merge>, first: nat, t: nat)
    requires RunTo(leaves, w, merges, first) && t <= |merges|
    ensures SumOver(Active(leaves, merges, first, t), w, |w|) == SumOver(leaves, w, |w|)
  {
    hide RunTo, Huffman, TwoLightest, SumOver;
    if t > 0 {
      ActiveTotal(leaves, w, merges, first, t - 1);
      Sons(leaves, w, merges, first, t - 1);
      SumMerged(Active(leaves, merges, first, t - 1), w, merges[t - 1].n, merges[t - 1].m, first + t - 1);
    }
  }

  /** So two nodes of the queue together never weigh more than all the leaves. */
  lemma PairBounded(leaves: set<nat>, w: seq<nat>, merges: seq<Merge>, first: nat, n: nat, m: nat)
    requires RunTo(leaves, w, merges, first) && TwoLightest(Active(leaves, merges, first, |merges|), w, n, m)
    ensures w[n] + w[m] <= SumOver(leaves, w, |w|)
  {
    var a := Active(leaves, merges, first, |merges|);
    ActiveTotal(leaves, w, merges, first, |merges|);
    SumRemove(a, w, n, |w|);
    SumRemove(a - {n}, w, m, |w|);
  }

  /** A node that has left the queue was taken by some merge. */
  lemma {:induction false} Taken(leaves: set<nat>, merges: seq<Merge>, first: nat, x: nat, s: nat, t: nat)
    returns (u: nat)
    requires s <= t <= |merges|
    requires x in Active(leaves, merges, first, s) && x !in Active(leaves, merges, first, t)
    ensures s <= u < t && (x == merges[u].n || x == merges[u].m)
    decreases t - s
  {
    if x in Active(leaves, merges, first, s + 1) {
      u := Taken(leaves, merges, first, x, s + 1, t);
    } else {
      u := s;
    }
  }

  // ----- the order of leaving

  /** The node of the given rank in the order in which nodes leave the queue. */
  function Son(merges: seq<Merge>, p: nat): nat
    requires p < 2 * |merges|
  {
    if p % 2 == 0 then merges[p / 2].n else merges[p / 2].m
  }

  lemma SonBelowFather(leaves: set<nat>, w: seq<nat>, merges: seq<Merge>, first: nat, p: nat)
    requires RunTo(leaves, w, merges, first) && p < 2 * |merges|
    ensures Son(merges, p) < first + p / 2
  {
    hide RunTo, Huffman, Active, TwoLightest;
    Sons(leaves, w, merges, first, p / 2);
  }

  /** No node leaves twice. */
  lemma SonsDistinct(leaves: set<nat>, w: seq<nat>, merges: seq<Merge>, first: nat, p: nat, q: nat)
    requires RunTo(leaves, w, merges, first) && p < q < 2 * |merges|
    ensures Son(merges, p) != Son(merges, q)
  {
    hide RunTo, Huffman, Active, TwoLightest;
    Sons(leaves, w, merges, first, q / 2);
    if p / 2 != q / 2 {
      Gone(leaves, w, merges, first, p / 2, q / 2);
    }
  }

  lemma AllSonsDistinct(leaves: set<nat>, w: seq<nat>, merges: seq<Merge>, first: nat)
    requires RunTo(leaves, w, merges, first)
    ensures forall p, q :: 0 <= p < 2 * |merges| && 0 <= q < 2 * |merges| && p != q ==> Son(merges, p) != Son(merges, q)
  {
    hide RunTo, Huffman, Active, TwoLightest;
    forall p, q | 0 <= p < 2 * |merges| && 0 <= q < 2 * |merges| && p != q
      ensures Son(merges, p) != Son(merges, q)
    {
      SonsDistinct(leaves, w, merges, first, if p < q then p else q, if p < q then q else p);
    }
  }

  /** What left the queue is no heavier than what is still in it. */
  lemma {:induction false} LeftIsLighter(leaves: set<nat>, w: seq<nat>, merges: seq<Merge>, first: nat,
                                         p: nat, t: nat, x: nat)
    requires RunTo(leaves, w, merges, first) && p / 2 < t <= |merges| && x in Active(leaves, merges, first, t)
    ensures x < |w| && Son(merges, p) < |w| && w[Son(merges, p)] <= w[x]
    decreases t
  {
    hide RunTo, Huffman, Active;
    QueueBelow(leaves, w, merges, first, t);
    Sons(leaves, w, merges, first, t - 1);
    SonBelowFather(leaves, w, merges, first, p);
    var n, m := merges[t - 1].n, merges[t - 1].m;
    if p / 2 < t - 1 {
      LeftIsLighter(leaves, w, merges, first, p, t - 1, if x == first + t - 1 then n else x);
    }
  }

  /** Nodes leave the queue in order of weight. */
  lemma LeavingOrder(leaves: set<nat>, w: seq<nat>, merges: seq<Merge>, first: nat, p: nat, q: nat)
    requires RunTo(leaves, w, merges, first) && p <= q < 2 * |merges|
    ensures Son(merges, p) < |w| && Son(merges, q) < |w| && w[Son(merges, p)] <= w[Son(merges, q)]
  {
    hide RunTo, Huffman, Active;
    Sons(leaves, w, merges, first, q / 2);
    if p / 2 < q / 2 {
      LeftIsLighter(leaves, w, merges, first, p, q / 2, Son(merges, q));
    }
  }

  // ----- finished runs

  lemma FinishedRun(leaves: set<nat>, w: seq<nat>, merges: seq<Merge>, first: nat)
    requires RunTo(leaves, w, merges, first) && |leaves| >= 2 && |merges| == |leaves| - 1
    ensures HuffmanRun(leaves, w, merges, first)
  {
    hide RunTo, HuffmanRun, Huffman, TwoLightest, Active;
    var t := |merges|;
    ActiveSize(leaves, w, merges, first, t);
    Sons(leaves, w, merges, first, t - 1);
    OnlyMember(Active(leaves, merges, first, t), first + t - 1);
    RunIsHuffman(leaves, w, merges, first);
  }

  lemma RunIsHuffman(leaves: set<nat>, w: seq<nat>, merges: seq<Merge>, first: nat)
    requires RunTo(leaves, w, merges, first) && |merges| >= 1
    requires Active(leaves, merges, first, |merges|) == {first + |merges| - 1}
    ensures HuffmanRun(leaves, w, merges, first)
  {
    hide Active;
    forall t | 0 <= t < |merges|
      ensures TwoLightest(Active(leaves, merges, first, t), w, merges[t].n, merges[t].m)
      ensures w[first + t] == w[merges[t].n] + w[merges[t].m]
    {
      assert Huffman(leaves, w, merges, first, t);
    }
  }

  lemma OnlyMember(a: set<nat>, x: nat)
    requires x in a && |a| == 1
    ensures a == {x}
  {
    assert |a - {x}| == 0;
    assert a == (a - {x}) + {x};
  }

  lemma RunFinished(leaves: set<nat>, w: seq<nat>, merges: seq<Merge>, first: nat)
    requires HuffmanRun(leaves, w, merges, first)
    ensures |merges| >= 1 && first + |merges| <= |w| && RunTo(leaves, w, merges, first)
    ensures Active(leaves, merges, first, |merges|) == {first + |merges| - 1}
  {
  }

  /** Every node but the root is somebody's son. */
  lemma RankOf(leaves: set<nat>, w: seq<nat>, merges: seq<Merge>, first: nat, x: nat, s: nat) returns (p: nat)
    requires HuffmanRun(leaves, w, merges, first) && s <= |merges|
    requires x in Active(leaves, merges, first, s) && x != first + |merges| - 1
    ensures 2 * s <= p < 2 * |merges| && Son(merges, p) == x
  {
    hide HuffmanRun, TwoLightest;
    RunFinished(leaves, w, merges, first);
    hide Active;
    var u := Taken(leaves, merges, first, x, s, |merges|);
    p := if x == merges[u].n then 2 * u else 2 * u + 1;
  }

  /** The depths that a run gives its nodes, from the root down to the sons of merge s. */
  lemma {:induction false} DepthsFrom(leaves: set<nat>, w: seq<nat>, merges: seq<Merge>, first: nat, s: nat)
    returns (d: seq<nat>)
    requires RunTo(leaves, w, merges, first) && |merges| >= 1 && s <= |merges|
    ensures |d| == |w| && d[first + |merges| - 1] == 0
    ensures forall p :: 2 * s <= p < 2 * |merges| ==> Son(merges, p) < |d| && d[Son(merges, p)] == d[first + p / 2] + 1
    decreases |merges| - s
  {
    hide Huffman, Active, TwoLightest;
    if s == |merges| {
      d := seq(|w|, i => 0);
    } else {
      d := DepthsFrom(leaves, w, merges, first, s + 1);
      Sons(leaves, w, merges, first, s);
      var old_d, v := d, d[first + s] + 1;
      d := d[merges[s].n := v][merges[s].m := v];
      forall p | 2 * s <= p < 2 * |merges|
        ensures Son(merges, p) < |d| && d[Son(merges, p)] == d[first + p / 2] + 1
      {
        SonBelowFather(leaves, w, merges, first, p);
        if p >= 2 * s + 2 {
          SonsDistinct(leaves, w, merges, first, 2 * s, p);
          SonsDistinct(leaves, w, merges, first, 2 * s + 1, p);
          assert old_d[Son(merges, p)] == old_d[first + p / 2] + 1;
        }
      }
    }
  }

  lemma DepthsOf(leaves: set<nat>, w: seq<nat>, merges: seq<Merge>, first: nat) returns (d: seq<nat>)
    requires HuffmanRun(leaves, w, merges, first)
    ensures |d| == |w| && Depths(d, merges, first)
  {
    hide *;
    RunFinished(leaves, w, merges, first);
    d := DepthsFrom(leaves, w, merges, first, 0);
    DepthsByRank(merges, first, d);
  }

  lemma DepthsByRank(merges: seq<Merge>, first: nat, d: seq<nat>)
    requires |merges| >= 1 && first + |merges| <= |d| && d[first + |merges| - 1] == 0
    requires forall p :: 0 <= p < 2 * |merges| ==> Son(merges, p) < |d| && d[Son(merges, p)] == d[first + p / 2] + 1
    ensures Depths(d, merges, first)
  {
    forall t | 0 <= t < |merges|
      ensures merges[t].n < |d| && merges[t].m < |d| && d[merges[t].n] == d[merges[t].m] == d[first + t] + 1
    {
      assert Son(merges, 2 * t) == merges[t].n && Son(merges, 2 * t + 1) == merges[t].m;
    }
  }
}
