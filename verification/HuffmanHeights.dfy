/**
 What the tie breaker of the queue is for.  Of nodes with the same weight the one with the
 lower tree is merged first; then, of all lengths that cost as little as those of the Huffman
 tree, none has a smaller maximum.
 */
module HuffmanHeights {
  import opened Arith
  import opened Bits
  import opened Sums
  import opened HuffmanTheory
  import opened HuffmanRuns
  import opened PrefixCodes

  function Max(a: nat, b: nat): nat {
    if a >= b then a else b
  }

  /** The height of the tree below node x. */
  function Height(merges: seq<Merge>, first: nat, x: nat): nat
    decreases x
  {
    if x < first || x - first >= |merges| || merges[x - first].n >= x || merges[x - first].m >= x then 0
    else Max(Height(merges, first, merges[x - first].n), Height(merges, first, merges[x - first].m)) + 1
  }

  /** Merge t takes the lightest nodes, and of nodes of one weight the lowest. */
  ghost predicate LowestFirst(leaves: set<nat>, w: seq<nat>, merges: seq<Merge>, first: nat, t: nat)
    requires t < |merges|
  {
    var n, m := merges[t].n, merges[t].m;
    forall x :: x in Active(leaves, merges, first, t) && n < |w| && m < |w| && x < |w| ==>
      && (x != n ==> w[n] < w[x] || (w[n] == w[x] && Height(merges, first, n) <= Height(merges, first, x)))
      && (x != n && x != m ==> w[m] < w[x] || (w[m] == w[x] && Height(merges, first, m) <= Height(merges, first, x)))
  }

  ghost predicate LowestRun(leaves: set<nat>, w: seq<nat>, merges: seq<Merge>, first: nat) {
    forall t :: 0 <= t < |merges| ==> LowestFirst(leaves, w, merges, first, t)
  }

  /** With these lengths nothing below the nodes of a is longer than top. */
  ghost predicate Within(a: set<nat>, l: seq<nat>, h: nat -> nat, top: nat) {
    forall x :: x in a ==> x < |l| && l[x] + h(x) <= top
  }

  // ----- one merge

  /** No lengths that fit cost less. */
  ghost predicate Least(a: set<nat>, w: seq<nat>, least: nat) {
    forall l: seq<nat>, top: nat :: |l| == |w| && Fits(a, l, top) ==> least <= Cost(a, w, l)
  }

  /** Swapping lengths is no loss; if the weights differ it is a gain, and if not the lower node goes down. */
  lemma SwapWithin(a: set<nat>, w: seq<nat>, l: seq<nat>, top: nat, x: nat, y: nat, h: nat -> nat, reach: nat, least: nat)
    requires |w| == |l| && Fits(a, l, top) && x in a && y in a && x != y && l[x] < l[y]
    requires w[x] < w[y] || (w[x] == w[y] && h(x) <= h(y))
    requires Within(a, l, h, reach) && Cost(a, w, l) <= least && Least(a, w, least)
    ensures Fits(a, l[x := l[y]][y := l[x]], top)
    ensures Within(a, l[x := l[y]][y := l[x]], h, reach) && Cost(a, w, l[x := l[y]][y := l[x]]) <= least
  {
    var l1 := l[x := l[y]];
    SwapLengths(a, w, l, top, x, y);
    CostSet(a, w, l, x, l[y]);
    CostSet(a, w, l1, y, l[x]);
    assert least <= Cost(a, w, l1[y := l[x]]);
    if w[x] < w[y] {
      CrossStrict(w[x], w[y], l[x], l[y]);
      assert false;
    }
  }

  lemma CrossStrict(a: nat, b: nat, c: nat, d: nat)
    requires a < b && c < d
    ensures a * d + b * c < a * c + b * d
  {
    MulLess(a, b, d - c);
    MulSub(a, d, c);
    MulSub(b, d, c);
  }

  /** n is the lightest of a but for those in `but`, and the lowest of its weight. */
  ghost predicate Lowest(a: set<nat>, w: seq<nat>, h: nat -> nat, n: nat, but: set<nat>) {
    n < |w| && forall x :: x in a && x !in but ==> x < |w| && (w[n] < w[x] || (w[n] == w[x] && h(n) <= h(x)))
  }

  /** MergeSaves again, keeping within reach. */
  lemma MergeWithin(a: set<nat>, w: seq<nat>, l: seq<nat>, top: nat, n: nat, m: nat, node: nat, h: nat -> nat, reach: nat, least: nat)
    returns (l2: seq<nat>, top2: nat)
    requires |w| == |l| && Fits(a, l, top) && TwoLightest(a, w, n, m) && Lowest(a, w, h, n, {n}) && Lowest(a, w, h, m, {n, m})
    requires node !in a && node < |w| && w[node] == w[n] + w[m] && h(node) == Max(h(n), h(m)) + 1
    requires Within(a, l, h, reach) && Cost(a, w, l) <= least && Least(a, w, least)
    ensures |l2| == |l| && Fits(Merged(a, n, m, node), l2, top2)
    ensures Cost(Merged(a, n, m, node), w, l2) + w[node] <= least && Within(Merged(a, n, m, node), l2, h, reach)
  {
    hide Cost, Least;
    assert {n, m} <= a && |{n, m}| == 2;
    SubsetSize({n, m}, a);
    var l1, x, y := TwoDeepest(a, w, l, top);
    var d := l1[x];
    hide Fits;
    AtMostTop(a, l1, d);
    if l1[n] != d {
      SwapWithin(a, w, l1, d, n, x, h, reach, least);
      l1 := l1[n := l1[x]][x := l1[n]];
      x := n;
    }
    var z := if x == n then y else x;
    assert z in a && z != n && l1[z] == d && l1[n] == d;
    AtMostTop(a, l1, d);
    if l1[m] != d {
      SwapWithin(a, w, l1, d, m, z, h, reach, least);
      l1 := l1[m := l1[z]][z := l1[m]];
    }
    assert l1[n] == d && l1[m] == d;
    l2, top2 := l1[node := d - 1], d;
    MergeDeepest(a, w, l1, d, n, m, node);
  }

  lemma AtMostTop(a: set<nat>, l: seq<nat>, top: nat)
    requires Fits(a, l, top)
    ensures forall i :: i in a ==> i < |l| && l[i] <= top
  {
  }

  // ----- whole runs

  lemma LowestPair(leaves: set<nat>, w: seq<nat>, merges: seq<Merge>, first: nat, d: seq<nat>, t: nat)
    requires HuffmanRun(leaves, w, merges, first) && |d| == |w| && Depths(d, merges, first) && t < |merges|
    requires LowestRun(leaves, w, merges, first)
    ensures var a, h := Active(leaves, merges, first, t), (x: nat) => Height(merges, first, x);
            Lowest(a, w, h, merges[t].n, {merges[t].n}) && Lowest(a, w, h, merges[t].m, {merges[t].n, merges[t].m})
  {
    hide Active, Height;
    assert LowestFirst(leaves, w, merges, first, t);
    StageStep(leaves, w, merges, first, d, t);
  }

  lemma FatherHeight(leaves: set<nat>, w: seq<nat>, merges: seq<Merge>, first: nat, t: nat)
    requires HuffmanRun(leaves, w, merges, first) && t < |merges|
    ensures Height(merges, first, first + t) == Max(Height(merges, first, merges[t].n), Height(merges, first, merges[t].m)) + 1
  {
    ActiveBelow(leaves, merges, first, t);
    assert TwoLightest(Active(leaves, merges, first, t), w, merges[t].n, merges[t].m);
  }

  /** Whatever costs as little as the Huffman tree reaches as far down as it does. */
  lemma {:induction false} NoneLower(leaves: set<nat>, w: seq<nat>, merges: seq<Merge>, first: nat, d: seq<nat>,
                                     t: nat, l: seq<nat>, top: nat, reach: nat)
    requires HuffmanRun(leaves, w, merges, first) && |d| == |w| && Depths(d, merges, first) && t <= |merges|
    requires LowestRun(leaves, w, merges, first)
    requires |l| == |w| && Fits(Active(leaves, merges, first, t), l, top)
    requires Cost(Active(leaves, merges, first, t), w, l) <= Cost(Active(leaves, merges, first, t), w, d)
    requires Within(Active(leaves, merges, first, t), l, (x: nat) => Height(merges, first, x), reach)
    ensures Height(merges, first, first + |merges| - 1) <= reach
    decreases |merges| - t
  {
    hide HuffmanRun, LowestRun, Depths, Active, TwoLightest, Fits, Merged, Cost, Height, Lowest, Least;
    var a, h := Active(leaves, merges, first, t), (x: nat) => Height(merges, first, x);
    if t == |merges| {
      LastStage(leaves, w, merges, first, d);
    } else {
      var n, m, node := merges[t].n, merges[t].m, first + t;
      StageStep(leaves, w, merges, first, d, t);
      LowestPair(leaves, w, merges, first, d, t);
      FatherHeight(leaves, w, merges, first, t);
      LeastCost(leaves, w, merges, first, d, t);
      var l2, top2 := MergeWithin(a, w, l, top, n, m, node, h, reach, Cost(a, w, d));
      MergeCosts(a, w, d, n, m, node);
      NoneLower(leaves, w, merges, first, d, t + 1, l2, top2, reach);
    }
  }

  lemma LeastCost(leaves: set<nat>, w: seq<nat>, merges: seq<Merge>, first: nat, d: seq<nat>, t: nat)
    requires HuffmanRun(leaves, w, merges, first) && |d| == |w| && Depths(d, merges, first) && t <= |merges|
    ensures Least(Active(leaves, merges, first, t), w, Cost(Active(leaves, merges, first, t), w, d))
  {
    hide HuffmanRun, Depths, Active, Fits, Cost;
    forall l: seq<nat>, top: nat | |l| == |w| && Fits(Active(leaves, merges, first, t), l, top)
      ensures Cost(Active(leaves, merges, first, t), w, d) <= Cost(Active(leaves, merges, first, t), w, l)
    {
      Optimal(leaves, w, merges, first, d, t, l, top);
    }
  }

  /** A node and what is below it end within the height of the tree. */
  lemma {:induction false} EndsWithin(leaves: set<nat>, w: seq<nat>, merges: seq<Merge>, first: nat, d: seq<nat>, t: nat)
    requires HuffmanRun(leaves, w, merges, first) && |d| == |w| && Depths(d, merges, first) && t <= |merges|
    ensures Within(Active(leaves, merges, first, t), d, (x: nat) => Height(merges, first, x), Height(merges, first, first + |merges| - 1))
    decreases |merges| - t
  {
    hide HuffmanRun, Depths, Active, TwoLightest, Height;
    if t == |merges| {
      LastStage(leaves, w, merges, first, d);
    } else {
      StageStep(leaves, w, merges, first, d, t);
      FatherHeight(leaves, w, merges, first, t);
      EndsWithin(leaves, w, merges, first, d, t + 1);
    }
  }

  /** Of all lengths that fit and cost no more than those of the Huffman tree, none has a smaller maximum. */
  lemma ShortestLongest(leaves: set<nat>, w: seq<nat>, merges: seq<Merge>, first: nat, d: seq<nat>, l: seq<nat>, top: nat, reach: nat)
    requires HuffmanRun(leaves, w, merges, first) && |d| == |w| && Depths(d, merges, first) && LowestRun(leaves, w, merges, first)
    requires |l| == |w| && Fits(leaves, l, top) && Cost(leaves, w, l) <= Cost(leaves, w, d) && forall i :: i in leaves ==> l[i] <= reach
    ensures forall i :: i in leaves ==> i < |d| && d[i] <= reach
  {
    assert Active(leaves, merges, first, 0) == leaves;
    forall i | i in leaves
      ensures Height(merges, first, i) == 0
    {
    }
    hide *;
    AtMostTop(leaves, l, top);
    LeavesWithin(leaves, l, merges, first, reach);
    NoneLower(leaves, w, merges, first, d, 0, l, top, reach);
    EndsWithin(leaves, w, merges, first, d, 0);
    WithinReach(leaves, d, (x: nat) => Height(merges, first, x), Height(merges, first, first + |merges| - 1), reach);
  }

  /** Of the prefix codes that cost no more, each has a word as long as any of these lengths. */
  ghost predicate Flattest(a: set<nat>, w: seq<nat>, l: seq<nat>)
    requires |l| == |w|
  {
    forall words: seq<seq<bool>>, i :: |words| == |w| && PrefixFree(a, words) && Cost(a, w, Lengths(words)) <= Cost(a, w, l) && i in a ==>
      i < |l| && exists j :: j in a && j < |words| && l[i] <= |words[j]|
  }

  lemma HuffmanFlattest(leaves: set<nat>, w: seq<nat>, merges: seq<Merge>, first: nat, d: seq<nat>)
    requires HuffmanRun(leaves, w, merges, first) && |d| == |w| && Depths(d, merges, first) && LowestRun(leaves, w, merges, first)
    ensures Flattest(leaves, w, d)
  {
    hide HuffmanRun, Depths, LowestRun, Cost, Kraft;
    forall words: seq<seq<bool>>, i | |words| == |w| && PrefixFree(leaves, words)
                                    && Cost(leaves, w, Lengths(words)) <= Cost(leaves, w, d) && i in leaves
      ensures i < |d| && exists j :: j in leaves && j < |words| && d[i] <= |words[j]|
    {
      var top := LongestWord(leaves, words);
      KraftInequality(leaves, words, top);
      var x := Deepest(leaves, Lengths(words));
      ShortestLongest(leaves, w, merges, first, d, Lengths(words), top, |words[x]|);
      assert x in leaves && x < |words| && d[i] <= |words[x]|;
    }
  }

  lemma LeavesWithin(leaves: set<nat>, l: seq<nat>, merges: seq<Merge>, first: nat, reach: nat)
    requires forall i :: i in leaves ==> i < |l| && l[i] <= reach && Height(merges, first, i) == 0
    ensures Within(leaves, l, (x: nat) => Height(merges, first, x), reach)
  {
  }

  lemma WithinReach(a: set<nat>, l: seq<nat>, h: nat -> nat, top: nat, reach: nat)
    requires Within(a, l, h, top) && top <= reach
    ensures forall x :: x in a ==> x < |l| && l[x] <= reach
  {
  }

  // ----- the run as it grows

  /** depth[] holds the height of every node there is. */
  ghost predicate Deep(depth: seq<nat>, leaves: set<nat>, merges: seq<Merge>, first: nat) {
    forall x :: x in leaves || first <= x < first + |merges| ==> x < |depth| && depth[x] == Height(merges, first, x)
  }

  /** n and m are the least two of a by weight, and by depth among equals. */
  ghost predicate LowestTwo(a: set<nat>, w: seq<nat>, depth: seq<nat>, n: nat, m: nat) {
    n < |w| && n < |depth| && m < |w| && m < |depth| && forall x :: x in a ==>
      && x < |w| && x < |depth|
      && (x != n ==> w[n] < w[x] || (w[n] == w[x] && depth[n] <= depth[x]))
      && (x != n && x != m ==> w[m] < w[x] || (w[m] == w[x] && depth[m] <= depth[x]))
  }

  lemma {:induction false} HeightKept(merges: seq<Merge>, first: nat, y: Merge, x: nat)
    requires x < first + |merges|
    ensures Height(merges + [y], first, x) == Height(merges, first, x)
    decreases x
  {
    if x >= first && merges[x - first].n < x && merges[x - first].m < x {
      HeightKept(merges, first, y, merges[x - first].n);
      HeightKept(merges, first, y, merges[x - first].m);
    }
  }

  lemma HeightAdded(merges: seq<Merge>, first: nat, y: Merge)
    requires y.n < first + |merges| && y.m < first + |merges|
    ensures Height(merges + [y], first, first + |merges|) == Max(Height(merges, first, y.n), Height(merges, first, y.m)) + 1
  {
    HeightKept(merges, first, y, y.n);
    HeightKept(merges, first, y, y.m);
  }

  lemma DeepGrows(depth: seq<nat>, leaves: set<nat>, merges: seq<Merge>, first: nat, y: Merge, dv: nat)
    requires Deep(depth, leaves, merges, first) && (forall i :: i in leaves ==> i < first) && first + |merges| < |depth|
    requires (y.n in leaves || first <= y.n < first + |merges|) && (y.m in leaves || first <= y.m < first + |merges|)
    requires dv == Max(depth[y.n], depth[y.m]) + 1
    ensures Deep(depth[first + |merges| := dv], leaves, merges + [y], first)
  {
    HeightAdded(merges, first, y);
    forall x | x in leaves || first <= x < first + |merges|
      ensures Height(merges + [y], first, x) == Height(merges, first, x)
    {
      HeightKept(merges, first, y, x);
    }
    hide Height;
  }

  lemma Known(leaves: set<nat>, w: seq<nat>, merges: seq<Merge>, first: nat, t: nat)
    requires RunTo(leaves, w, merges, first) && t <= |merges|
    ensures forall x :: x in Active(leaves, merges, first, t) ==> x in leaves || first <= x < first + t
  {
    if t > 0 {
      Known(leaves, w, merges, first, t - 1);
    }
  }

  /** The next merge takes the lowest of the lightest too. */
  lemma LowestGrows(leaves: set<nat>, w: seq<nat>, depth: seq<nat>, merges: seq<Merge>, first: nat, y: Merge)
    requires RunTo(leaves, w, merges, first) && LowestRun(leaves, w, merges, first) && Deep(depth, leaves, merges, first)
    requires first + |merges| < |w| && y.n < |w| && y.m < |w|
    requires y.n in Active(leaves, merges, first, |merges|) && y.m in Active(leaves, merges, first, |merges|)
    requires LowestTwo(Active(leaves, merges, first, |merges|), w, depth, y.n, y.m)
    ensures LowestRun(leaves, w[first + |merges| := w[y.n] + w[y.m]], merges + [y], first)
  {
    hide Height, Active, Deep, RunTo, TwoLightest;
    var w', merges' := w[first + |merges| := w[y.n] + w[y.m]], merges + [y];
    forall t | 0 <= t < |merges'|
      ensures LowestFirst(leaves, w', merges', first, t)
    {
      ActivePrefix(leaves, merges, first, y, t);
      QueueBelow(leaves, w, merges, first, t);
      if t < |merges| {
        assert LowestFirst(leaves, w, merges, first, t);
        Sons(leaves, w, merges, first, t);
      } else {
        DeepAt(depth, leaves, w, merges, first);
      }
      var a := Active(leaves, merges, first, t);
      forall x | x in a
        ensures Height(merges', first, x) == Height(merges, first, x)
      {
        HeightKept(merges, first, y, x);
      }
    }
  }

  lemma DeepAt(depth: seq<nat>, leaves: set<nat>, w: seq<nat>, merges: seq<Merge>, first: nat)
    requires RunTo(leaves, w, merges, first) && Deep(depth, leaves, merges, first)
    ensures forall x :: x in Active(leaves, merges, first, |merges|) ==> x < |depth| && depth[x] == Height(merges, first, x)
  {
    hide RunTo, Height, Active;
    Known(leaves, w, merges, first, |merges|);
    forall x | x in Active(leaves, merges, first, |merges|)
      ensures x < |depth| && depth[x] == Height(merges, first, x)
    {
      assert x in leaves || first <= x < first + |merges|;
    }
  }

  // ----- heights fit a byte

  function Fib(h: nat): (r: nat)
    ensures r >= 1
  {
    if h < 2 then h + 1 else Fib(h - 1) + Fib(h - 2)
  }

  /** A tree of height h weighs at least the h-th Fibonacci number, if every leaf weighs something. */
  lemma {:induction false} HeightWeighs(leaves: set<nat>, w: seq<nat>, merges: seq<Merge>, first: nat, x: nat)
    requires RunTo(leaves, w, merges, first) && forall i :: i in leaves ==> i < |w| && w[i] >= 1
    requires x in leaves || first <= x < first + |merges|
    ensures x < |w| && w[x] >= Fib(Height(merges, first, x))
    decreases x
  {
    if x >= first {
      var t := x - first;
      hide RunTo, Active;
      Sons(leaves, w, merges, first, t);
      Known(leaves, w, merges, first, t);
      WeighedSons(leaves, w, merges, first, t);
      var n, m := merges[t].n, merges[t].m;
      HeightWeighs(leaves, w, merges, first, n);
      HeightWeighs(leaves, w, merges, first, m);
      if Height(merges, first, n) >= Height(merges, first, m) {
        Elder(leaves, w, merges, first, t, n, m);
      } else {
        Elder(leaves, w, merges, first, t, m, n);
      }
    }
  }

  lemma WeighedSons(leaves: set<nat>, w: seq<nat>, merges: seq<Merge>, first: nat, t: nat)
    requires RunTo(leaves, w, merges, first) && t < |merges|
    ensures first + t < |w| && merges[t].n < first + t && merges[t].m < first + t && w[first + t] == w[merges[t].n] + w[merges[t].m]
  {
    hide Active;
    Sons(leaves, w, merges, first, t);
    QueueBelow(leaves, w, merges, first, t);
    assert Huffman(leaves, w, merges, first, t);
  }

  /** y is the higher son of merge t and z the other one: z is no lighter than either son of y, which left the queue before. */
  lemma {:induction false} Elder(leaves: set<nat>, w: seq<nat>, merges: seq<Merge>, first: nat, t: nat, y: nat, z: nat)
    requires RunTo(leaves, w, merges, first) && (forall i :: i in leaves ==> i < |w| && w[i] >= 1) && t < |merges|
    requires (y == merges[t].n && z == merges[t].m) || (y == merges[t].m && z == merges[t].n)
    requires y in leaves || first <= y < first + t
    requires y < first + t < |w| && merges[t].n < |w| && merges[t].m < |w| && w[first + t] == w[merges[t].n] + w[merges[t].m]
    requires z < |w| && w[z] >= 1 && w[y] >= Fib(Height(merges, first, y)) && Height(merges, first, z) <= Height(merges, first, y)
    ensures w[first + t] >= Fib(Height(merges, first, first + t))
    decreases y
  {
    hide RunTo, Active;
    WeighedSons(leaves, w, merges, first, t);
    var h := Height(merges, first, y);
    assert Height(merges, first, first + t) == h + 1;
    if h > 0 {
      var s := y - first;
      WeighedSons(leaves, w, merges, first, s);
      Known(leaves, w, merges, first, s);
      Sons(leaves, w, merges, first, s);
      var u := if Height(merges, first, merges[s].n) >= Height(merges, first, merges[s].m) then merges[s].n else merges[s].m;
      HeightWeighs(leaves, w, merges, first, u);
      Before(leaves, w, merges, first, s, t, u, z);
    }
  }

  lemma Before(leaves: set<nat>, w: seq<nat>, merges: seq<Merge>, first: nat, s: nat, t: nat, u: nat, z: nat)
    requires RunTo(leaves, w, merges, first) && s < t < |merges|
    requires (u == merges[s].n || u == merges[s].m) && (z == merges[t].n || z == merges[t].m)
    ensures u < |w| && z < |w| && w[u] <= w[z]
  {
    hide RunTo;
    var p, q := if u == merges[s].n then 2 * s else 2 * s + 1, if z == merges[t].n then 2 * t else 2 * t + 1;
    assert Son(merges, p) == u && Son(merges, q) == z;
    LeavingOrder(leaves, w, merges, first, p, q);
  }

  /** With 16 bits of weight no tree is higher than 22. */
  lemma {:induction false} HeightFits(leaves: set<nat>, w: seq<nat>, merges: seq<Merge>, first: nat, x: nat)
    requires RunTo(leaves, w, merges, first) && forall i :: i in leaves ==> i < |w| && w[i] >= 1
    requires x in leaves || first <= x < first + |merges|
    requires x < |w| && w[x] < 0x1_0000
    ensures Height(merges, first, x) <= 22
  {
    hide RunTo, Height;
    HeightWeighs(leaves, w, merges, first, x);
    if Height(merges, first, x) > 22 {
      FibGrows(23, Height(merges, first, x));
      FibLarge();
      assert false;
    }
  }

  lemma {:induction false} FibGrows(m: nat, n: nat)
    requires m <= n
    ensures Fib(m) <= Fib(n)
  {
    if m < n {
      FibGrows(m, n - 1);
    }
  }

  lemma FibLarge()
    ensures Fib(23) == 75025
  {
    assert Fib(5) == 13 && Fib(6) == 21;
    assert Fib(9) == 89 && Fib(10) == 144;
    assert Fib(13) == 610 && Fib(14) == 987;
    assert Fib(17) == 4181 && Fib(18) == 6765;
    assert Fib(21) == 28657 && Fib(22) == 46368;
  }
}
