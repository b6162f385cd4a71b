/**
 Why merging the two least frequent nodes is right: whatever code lengths satisfy the Kraft
 inequality, those of the Huffman tree cost no more.  Every prefix code satisfies that
 inequality, so the lengths are the best of any prefix code.
 */
module HuffmanTheory {
  import opened Arith
  import opened Bits
  import opened Sums

  /** Weight times length, node by node. */
  function Costs(w: seq<nat>, l: seq<nat>): (s: seq<nat>)
    requires |w| == |l|
    ensures |s| == |w|
  {
    seq(|w|, i requires 0 <= i < |w| => w[i] * l[i])
  }

  function Cost(a: set<nat>, w: seq<nat>, l: seq<nat>): nat
    requires |w| == |l|
  {
    SumOver(a, Costs(w, l), |w|)
  }

  /** The share of 2^top that a code of each length takes up. */
  function Shares(l: seq<nat>, top: nat): (s: seq<nat>)
    ensures |s| == |l|
  {
    seq(|l|, i requires 0 <= i < |l| => if l[i] <= top then Pow2(top - l[i]) else 0)
  }

  function Kraft(a: set<nat>, l: seq<nat>, top: nat): nat {
    SumOver(a, Shares(l, top), |l|)
  }

  /** Lengths up to top for the nodes of a, within the Kraft inequality. */
  ghost predicate Fits(a: set<nat>, l: seq<nat>, top: nat) {
    (forall i :: i in a ==> i < |l| && l[i] <= top) && Kraft(a, l, top) <= Pow2(top)
  }

  // ----- changing lengths and nodes

  lemma CostSet(a: set<nat>, w: seq<nat>, l: seq<nat>, x: nat, v: nat)
    requires |w| == |l| && x in a && x < |w|
    ensures Cost(a, w, l[x := v]) + w[x] * l[x] == Cost(a, w, l) + w[x] * v
  {
    assert Costs(w, l[x := v]) == Costs(w, l)[x := w[x] * v];
    SumUpdate(a, Costs(w, l), x, w[x] * v, |w|);
  }

  lemma KraftSet(a: set<nat>, l: seq<nat>, top: nat, x: nat, v: nat)
    requires x in a && x < |l| && l[x] <= top && v <= top
    ensures Kraft(a, l[x := v], top) + Pow2(top - l[x]) == Kraft(a, l, top) + Pow2(top - v)
  {
    assert Shares(l[x := v], top) == Shares(l, top)[x := Pow2(top - v)];
    SumUpdate(a, Shares(l, top), x, Pow2(top - v), |l|);
  }

  /** Replacing two nodes by a third. */
  function Merged(a: set<nat>, n: nat, m: nat, node: nat): set<nat> {
    a - {n, m} + {node}
  }

  lemma SumMerged(a: set<nat>, g: seq<nat>, n: nat, m: nat, node: nat)
    requires n in a && m in a && n != m && node !in a && n < |g| && m < |g| && node < |g|
    ensures SumOver(a, g, |g|) + g[node] == SumOver(Merged(a, n, m, node), g, |g|) + g[n] + g[m]
  {
    var b := Merged(a, n, m, node);
    SumRemove(a, g, n, |g|);
    SumRemove(a - {n}, g, m, |g|);
    SumRemove(b, g, node, |g|);
    assert a - {n} - {m} == b - {node};
  }

  /** Kraft sums measured at a greater maximum. */
  lemma KraftScaled(a: set<nat>, l: seq<nat>, max: nat, top: nat)
    requires max <= top && forall i :: i in a ==> i < |l| && l[i] <= max
    ensures Kraft(a, l, top) == Pow2(top - max) * Kraft(a, l, max)
  {
    var q := Pow2(top - max);
    forall i | 0 <= i < |l| && i in a
      ensures Shares(l, top)[i] == q * Shares(l, max)[i]
    {
      Pow2Add(top - max, max - l[i]);
    }
    SumScale(a, Shares(l, max), Shares(l, top), q, |l|);
  }

  // ----- the exchange argument

  /** Kraft may be measured at any top that no length exceeds. */
  lemma KraftRescaled(a: set<nat>, l: seq<nat>, low: nat, top: nat)
    requires Fits(a, l, top) && low <= top && forall i :: i in a ==> l[i] <= low
    ensures Fits(a, l, low)
  {
    var c := Pow2(top - low);
    forall i | 0 <= i < |l| && i in a
      ensures Shares(l, top)[i] == c * Shares(l, low)[i]
    {
      Pow2Add(top - low, low - l[i]);
    }
    SumScale(a, Shares(l, low), Shares(l, top), c, |l|);
    Pow2Add(top - low, low);
    hide Pow2, SumOver, Shares;
    CancelFactor(c, Kraft(a, l, low), Pow2(low));
  }

  lemma CancelFactor(c: nat, x: nat, y: nat)
    requires c > 0 && c * x <= c * y
    ensures x <= y
  {
    if x > y {
      MulLess(y, x, c);
    }
  }

  /** Lengths as good, measured at the greatest of them, which two nodes share. */
  lemma {:induction false} TwoDeepest(a: set<nat>, w: seq<nat>, l: seq<nat>, top: nat)
    returns (l': seq<nat>, x: nat, y: nat)
    requires |w| == |l| && Fits(a, l, top) && |a| >= 2
    ensures |l'| == |l| && x in a && y in a && x != y && l'[x] == l'[y] >= 1
    ensures Fits(a, l', l'[x]) && Cost(a, w, l') <= Cost(a, w, l) && forall i :: i in a ==> l'[i] <= l[i]
    decreases SumOver(a, l, |l|)
  {
    x := Deepest(a, l);
    var d := l[x];
    KraftRescaled(a, l, d, top);
    if y' :| y' in a && y' != x && l[y'] == d {
      l', y := l, y';
      SomeDepth(a, l, d);
    } else {
      LoneDeepest(a, l, x);
      SomeDepth(a, l, d);
      var shorter := l[x := d - 1];
      KraftSet(a, l, d, x, d - 1);
      CostSet(a, w, l, x, d - 1);
      SumUpdate(a, l, x, d - 1, |l|);
      MulLe(w[x], d - 1, w[x], d);
      l', x, y := TwoDeepest(a, w, shorter, d);
    }
  }

  lemma Deepest(a: set<nat>, l: seq<nat>) returns (x: nat)
    requires a != {} && forall i :: i in a ==> i < |l|
    ensures x in a && forall i :: i in a ==> l[i] <= l[x]
  {
    x :| x in a;
    var seen := {x};
    while seen != a
      invariant seen <= a && x in seen && forall i :: i in seen ==> l[i] <= l[x]
      decreases a - seen
    {
      assert exists i :: i in a - seen by {
        if a - seen == {} { assert a == seen + (a - seen); }
      }
      var i :| i in a - seen;
      seen := seen + {i};
      if l[i] > l[x] {
        x := i;
      }
    }
  }

  /** Two nodes cannot both have length 0. */
  lemma SomeDepth(a: set<nat>, l: seq<nat>, d: nat)
    requires Fits(a, l, d) && |a| >= 2
    ensures d >= 1
  {
    if d == 0 {
      SumOfOnes(a, Shares(l, 0), |l|);
    }
  }

  /** If only x has the greatest length, the Kraft sum at that length is odd, so there is room to shorten x. */
  lemma LoneDeepest(a: set<nat>, l: seq<nat>, x: nat)
    requires x in a && x < |l| && |a| >= 2 && Fits(a, l, l[x])
    requires forall i :: i in a && i != x ==> l[i] < l[x]
    ensures Kraft(a, l, l[x]) < Pow2(l[x])
  {
    var d := l[x];
    SomeDepth(a, l, d);
    SumRemove(a, Shares(l, d), x, |l|);
    forall i | 0 <= i < |l| && i in a - {x}
      ensures Shares(l, d)[i] % 2 == 0
    {
      assert Pow2(d - l[i]) == 2 * Pow2(d - l[i] - 1);
    }
    SumEven(a - {x}, Shares(l, d), |l|);
    assert Pow2(d) == 2 * Pow2(d - 1);
  }

  /** Giving the longer of two lengths to the lighter of two nodes costs no more. */
  lemma SwapLengths(a: set<nat>, w: seq<nat>, l: seq<nat>, top: nat, x: nat, y: nat)
    requires |w| == |l| && Fits(a, l, top) && x in a && y in a && x != y
    requires w[x] <= w[y] && l[x] <= l[y]
    ensures Fits(a, l[x := l[y]][y := l[x]], top)
    ensures Cost(a, w, l[x := l[y]][y := l[x]]) <= Cost(a, w, l)
  {
    var l1 := l[x := l[y]];
    CostSet(a, w, l, x, l[y]);
    CostSet(a, w, l1, y, l[x]);
    KraftSet(a, l, top, x, l[y]);
    KraftSet(a, l1, top, y, l[x]);
    CrossProducts(w[x], w[y], l[x], l[y]);
  }

  lemma CrossProducts(a: nat, b: nat, c: nat, d: nat)
    requires a <= b && c <= d
    ensures a * d + b * c <= a * c + b * d
  {
    MulLe(a, d - c, b, d - c);
    MulSub(a, d, c);
    MulSub(b, d, c);
  }

  /** n and m are the two lightest nodes of a. */
  ghost predicate TwoLightest(a: set<nat>, w: seq<nat>, n: nat, m: nat) {
    && n in a && m in a && n != m && (forall i :: i in a ==> i < |w|)
    && w[n] <= w[m] && forall i :: i in a && i != n && i != m ==> w[m] <= w[i]
  }

  /** Any lengths for a give lengths for the merged nodes that save at least the merged weight. */
  lemma MergeSaves(a: set<nat>, w: seq<nat>, l: seq<nat>, top: nat, n: nat, m: nat, node: nat)
    returns (l2: seq<nat>, top2: nat)
    requires |w| == |l| && Fits(a, l, top) && TwoLightest(a, w, n, m)
    requires node !in a && node < |w| && w[node] == w[n] + w[m]
    ensures |l2| == |l| && Fits(Merged(a, n, m, node), l2, top2)
    ensures Cost(Merged(a, n, m, node), w, l2) + w[node] <= Cost(a, w, l)
  {
    assert {n, m} <= a && |{n, m}| == 2;
    SubsetSize({n, m}, a);
    var l1, x, y := TwoDeepest(a, w, l, top);
    var d := l1[x];
    // give n the greatest length, then m
    if l1[n] != d {
      SwapLengths(a, w, l1, d, n, x);
      l1 := l1[n := l1[x]][x := l1[n]];
      x := n;
    }
    var z := if x == n then y else x;
    assert z in a && z != n && l1[z] == d && l1[n] == d;
    if l1[m] != d {
      SwapLengths(a, w, l1, d, m, z);
      l1 := l1[m := l1[z]][z := l1[m]];
    }
    assert l1[n] == d && l1[m] == d;
    l2, top2 := l1[node := d - 1], d;
    MergeDeepest(a, w, l1, d, n, m, node);
  }

  lemma SubsetSize(s: set<nat>, t: set<nat>)
    requires s <= t
    ensures |s| <= |t|
  {
    if s != {} {
      var x :| x in s;
      SubsetSize(s - {x}, t - {x});
    }
  }

  lemma MergeDeepest(a: set<nat>, w: seq<nat>, l: seq<nat>, d: nat, n: nat, m: nat, node: nat)
    requires |w| == |l| && Fits(a, l, d) && n in a && m in a && n != m && l[n] == l[m] == d >= 1
    requires node !in a && node < |w| && w[node] == w[n] + w[m]
    ensures var l2 := l[node := d - 1];
            && Fits(Merged(a, n, m, node), l2, d)
            && Cost(Merged(a, n, m, node), w, l2) + w[node] == Cost(a, w, l)
  {
    var l2, b := l[node := d - 1], Merged(a, n, m, node);
    SumSame(a, Costs(w, l), a, Costs(w, l2), |w|);
    SumSame(a, Shares(l, d), a, Shares(l2, d), |l|);
    SumMerged(a, Costs(w, l2), n, m, node);
    SumMerged(a, Shares(l2, d), n, m, node);
    MulAdd(d, w[n], w[m]);
    MulSub(w[node], d, 1);
    assert Pow2(0) == 1 && Pow2(1) == 2;
  }

  // ----- whole runs of merges

  /** One merge: the two nodes taken off the queue.  Merge t makes node first + t. */
  datatype Merge = Merge(n: nat, m: nat)

  /** The nodes in the queue after t merges. */
  function Active(leaves: set<nat>, merges: seq<Merge>, first: nat, t: nat): set<nat>
    requires t <= |merges|
  {
    if t == 0 then leaves
    else Merged(Active(leaves, merges, first, t - 1), merges[t - 1].n, merges[t - 1].m, first + t - 1)
  }

  /** Each merge takes the two lightest nodes and makes one of their joint weight, until one is left. */
  ghost predicate HuffmanRun(leaves: set<nat>, w: seq<nat>, merges: seq<Merge>, first: nat) {
    && |merges| >= 1 && first + |merges| <= |w|
    && (forall i :: i in leaves ==> i < first)
    && (forall t :: 0 <= t < |merges| ==>
          && TwoLightest(Active(leaves, merges, first, t), w, merges[t].n, merges[t].m)
          && w[first + t] == w[merges[t].n] + w[merges[t].m])
    && Active(leaves, merges, first, |merges|) == {first + |merges| - 1}
  }

  /** The length of a node is one more than its father's. */
  ghost predicate Depths(d: seq<nat>, merges: seq<Merge>, first: nat)
    requires |merges| >= 1 && first + |merges| <= |d|
  {
    && d[first + |merges| - 1] == 0
    && forall t :: 0 <= t < |merges| ==>
         merges[t].n < |d| && merges[t].m < |d| && d[merges[t].n] == d[merges[t].m] == d[first + t] + 1
  }

  /** Nodes in the queue after t merges exist already. */
  lemma {:induction false} ActiveBelow(leaves: set<nat>, merges: seq<Merge>, first: nat, t: nat)
    requires t <= |merges| && forall i :: i in leaves ==> i < first
    ensures forall i :: i in Active(leaves, merges, first, t) ==> i < first + t
  {
    if t > 0 {
      ActiveBelow(leaves, merges, first, t - 1);
    }
  }

  /** One merge of a run, spelled out. */
  lemma StageStep(leaves: set<nat>, w: seq<nat>, merges: seq<Merge>, first: nat, d: seq<nat>, t: nat)
    requires HuffmanRun(leaves, w, merges, first) && |d| == |w| && Depths(d, merges, first) && t < |merges|
    ensures var a, n, m, node := Active(leaves, merges, first, t), merges[t].n, merges[t].m, first + t;
            && n in a && m in a && n != m && node !in a && n < |w| && m < |w| && node < |w|
            && TwoLightest(a, w, n, m) && w[node] == w[n] + w[m]
            && d[n] == d[m] == d[node] + 1
            && Active(leaves, merges, first, t + 1) == Merged(a, n, m, node)
  {
    ActiveBelow(leaves, merges, first, t);
    assert TwoLightest(Active(leaves, merges, first, t), w, merges[t].n, merges[t].m);
  }

  lemma LastStage(leaves: set<nat>, w: seq<nat>, merges: seq<Merge>, first: nat, d: seq<nat>)
    requires HuffmanRun(leaves, w, merges, first) && |d| == |w| && Depths(d, merges, first)
    ensures var root := first + |merges| - 1;
            root < |w| && d[root] == 0 && Active(leaves, merges, first, |merges|) == {root}
  {
  }

  /** At every stage, and so for the leaves, the tree's lengths cost no more than any that fit. */
  lemma {:induction false} Optimal(leaves: set<nat>, w: seq<nat>, merges: seq<Merge>, first: nat, d: seq<nat>,
                                   t: nat, l: seq<nat>, top: nat)
    requires HuffmanRun(leaves, w, merges, first) && |d| == |w| && Depths(d, merges, first) && t <= |merges|
    requires |l| == |w| && Fits(Active(leaves, merges, first, t), l, top)
    ensures Cost(Active(leaves, merges, first, t), w, d) <= Cost(Active(leaves, merges, first, t), w, l)
    decreases |merges| - t
  {
    hide HuffmanRun, Depths, Active, TwoLightest, Fits, Merged, SumOver, Costs;
    if t == |merges| {
      LastStage(leaves, w, merges, first, d);
      RootCost(w, d, first + |merges| - 1);
    } else {
      StageStep(leaves, w, merges, first, d, t);
      var a, n, m, node := Active(leaves, merges, first, t), merges[t].n, merges[t].m, first + t;
      var l2, top2 := MergeSaves(a, w, l, top, n, m, node);
      Optimal(leaves, w, merges, first, d, t + 1, l2, top2);
      MergeCosts(a, w, d, n, m, node);
    }
  }

  /** Undoing a merge costs the merged weight. */
  lemma MergeCosts(a: set<nat>, w: seq<nat>, d: seq<nat>, n: nat, m: nat, node: nat)
    requires |w| == |d| && n in a && m in a && n != m && node !in a && n < |w| && m < |w| && node < |w|
    requires w[node] == w[n] + w[m] && d[n] == d[m] == d[node] + 1
    ensures Cost(a, w, d) == Cost(Merged(a, n, m, node), w, d) + w[node]
  {
    SumMerged(a, Costs(w, d), n, m, node);
    MergedCost(w[n], w[m], d[node]);
  }

  lemma MergedCost(x: nat, y: nat, d: nat)
    ensures x * (d + 1) + y * (d + 1) == (x + y) * d + (x + y)
  {
    MulAdd(d + 1, x, y);
  }

  lemma RootCost(w: seq<nat>, d: seq<nat>, root: nat)
    requires |w| == |d| && root < |w| && d[root] == 0
    ensures Cost({root}, w, d) == 0
  {
    Singleton(Costs(w, d), root);
  }

  lemma {:induction false} EmptySum(g: seq<nat>, n: nat)
    requires n <= |g|
    ensures SumOver({}, g, n) == 0
  {
    if n > 0 {
      EmptySum(g, n - 1);
    }
  }

  // ----- lengths cut off at a maximum

  function Cut(d: seq<nat>, max: nat): (l: seq<nat>)
    ensures |l| == |d|
  {
    seq(|d|, i requires 0 <= i < |d| => if d[i] <= max then d[i] else max)
  }

  /** The merges from t on whose sons lie below the maximum; gen_bitlen counts both sons of each as overflow. */
  function Overflows(merges: seq<Merge>, first: nat, d: seq<nat>, max: nat, t: nat): nat
    requires t <= |merges| && first + |merges| <= |d|
    decreases |merges| - t
  {
    if t == |merges| then 0
    else Overflows(merges, first, d, max, t + 1) + (if d[first + t] >= max then 1 else 0)
  }

  /** Cutting lengths off overspends the Kraft sum by exactly one unit for every such merge. */
  lemma {:induction false} CutKraft(leaves: set<nat>, w: seq<nat>, merges: seq<Merge>, first: nat, d: seq<nat>,
                                    max: nat, t: nat)
    requires HuffmanRun(leaves, w, merges, first) && |d| == |w| && Depths(d, merges, first) && t <= |merges|
    ensures Kraft(Active(leaves, merges, first, t), Cut(d, max), max) == Pow2(max) + Overflows(merges, first, d, max, t)
    decreases |merges| - t
  {
    hide HuffmanRun, Depths, Active, TwoLightest, Merged, SumOver, Pow2;
    var g := Shares(Cut(d, max), max);
    if t == |merges| {
      LastStage(leaves, w, merges, first, d);
      Singleton(g, first + |merges| - 1);
    } else {
      StageStep(leaves, w, merges, first, d, t);
      var n, m, node := merges[t].n, merges[t].m, first + t;
      CutKraft(leaves, w, merges, first, d, max, t + 1);
      SumMerged(Active(leaves, merges, first, t), g, n, m, node);
      CutShares(d[node], max);
    }
  }

  lemma Singleton(g: seq<nat>, x: nat)
    requires x < |g|
    ensures SumOver({x}, g, |g|) == g[x]
  {
    SumRemove({x}, g, x, |g|);
    assert {x} - {x} == {};
    EmptySum(g, |g|);
  }

  lemma CutShares(d: nat, max: nat)
    ensures var sons := if d + 1 <= max then Pow2(max - (d + 1)) else Pow2(0);
            var father := if d <= max then Pow2(max - d) else Pow2(0);
            2 * sons == father + (if d >= max then 1 else 0)
  {
    assert Pow2(0) == 1;
  }

  /** A node that is cut off, or sits at the maximum. */
  function AtMax(d: seq<nat>, max: nat): (g: seq<nat>)
    ensures |g| == |d|
  {
    seq(|d|, i requires 0 <= i < |d| => if d[i] >= max then 1 else 0)
  }

  /** More nodes sit at the maximum than units are overspent. */
  lemma {:induction false} ManyAtMax(leaves: set<nat>, w: seq<nat>, merges: seq<Merge>, first: nat, d: seq<nat>,
                                     max: nat, t: nat)
    requires HuffmanRun(leaves, w, merges, first) && |d| == |w| && Depths(d, merges, first) && t <= |merges|
    ensures Overflows(merges, first, d, max, t) > 0 ==>
              SumOver(Active(leaves, merges, first, t), AtMax(d, max), |d|) > Overflows(merges, first, d, max, t)
    decreases |merges| - t
  {
    hide HuffmanRun, Depths, Active, TwoLightest, SumOver;
    if t < |merges| {
      StageStep(leaves, w, merges, first, d, t);
      var a, n, m, node := Active(leaves, merges, first, t), merges[t].n, merges[t].m, first + t;
      ManyAtMax(leaves, w, merges, first, d, max, t + 1);
      SumMerged(a, AtMax(d, max), n, m, node);
      SumRemove(Merged(a, n, m, node), AtMax(d, max), node, |d|);
    }
  }
}
