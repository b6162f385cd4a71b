/**
 The two passes of gen_bitlen over the nodes, on the values of the arrays: first from the root
 down to the least frequent leaf, then, when lengths had to be repaired, back up again.
 Rank p stands for heap index HEAP_SIZE - 1 - p.
 */
module TreeLengths {
  import opened Arith
  import opened Bits
  import opened Sums
  import opened HuffmanTheory
  import opened HuffmanRuns
  import opened LengthRepair

  function Min(x: nat, y: nat): nat {
    if x <= y then x else y
  }

  /** The leaves of rank p and above. */
  ghost function LeavesFrom(leaves: set<nat>, merges: seq<Merge>, p: nat): set<nat>
    requires p <= 2 * |merges|
    decreases 2 * |merges| - p
  {
    if p == 2 * |merges| then {}
    else LeavesFrom(leaves, merges, p + 1) + ({Son(merges, p)} * leaves)
  }

  /** The leaves below rank p. */
  ghost function LeavesTo(leaves: set<nat>, merges: seq<Merge>, p: nat): set<nat>
    requires p <= 2 * |merges|
  {
    if p == 0 then {} else LeavesTo(leaves, merges, p - 1) + ({Son(merges, p - 1)} * leaves)
  }

  lemma {:induction false} LeavesFromRank(leaves: set<nat>, merges: seq<Merge>, p: nat, x: nat)
    requires p <= 2 * |merges|
    ensures x in LeavesFrom(leaves, merges, p) <==>
              x in leaves && exists q :: p <= q < 2 * |merges| && Son(merges, q) == x
    decreases 2 * |merges| - p
  {
    if p < 2 * |merges| {
      LeavesFromRank(leaves, merges, p + 1, x);
    }
  }

  lemma {:induction false} LeavesToRank(leaves: set<nat>, merges: seq<Merge>, p: nat, x: nat)
    requires p <= 2 * |merges|
    ensures x in LeavesTo(leaves, merges, p) <==>
              x in leaves && exists q :: 0 <= q < p && Son(merges, q) == x
  {
    if p > 0 {
      LeavesToRank(leaves, merges, p - 1, x);
    }
  }

  /** Every leaf has a rank. */
  lemma AllLeaves(leaves: set<nat>, w: seq<nat>, merges: seq<Merge>, first: nat)
    requires HuffmanRun(leaves, w, merges, first)
    ensures LeavesFrom(leaves, merges, 0) == leaves == LeavesTo(leaves, merges, 2 * |merges|)
  {
    hide HuffmanRun, LeavesFrom, LeavesTo, Active, Son;
    RunFinished(leaves, w, merges, first);
    hide RunTo;
    forall x
      ensures x in LeavesFrom(leaves, merges, 0) <==> x in leaves
      ensures x in LeavesTo(leaves, merges, 2 * |merges|) <==> x in leaves
    {
      LeavesFromRank(leaves, merges, 0, x);
      LeavesToRank(leaves, merges, 2 * |merges|, x);
      if x in leaves {
        LeafActive(leaves, w, merges, first, x);
        var p := RankOf(leaves, w, merges, first, x, 0);
      }
    }
  }

  lemma LeafActive(leaves: set<nat>, w: seq<nat>, merges: seq<Merge>, first: nat, x: nat)
    requires HuffmanRun(leaves, w, merges, first) && x in leaves
    ensures x in Active(leaves, merges, first, 0) && x < first && x != first + |merges| - 1
  {
  }

  /** A son is a leaf or an inner node. */
  lemma {:induction false} ActiveKind(leaves: set<nat>, merges: seq<Merge>, first: nat, t: nat, x: nat)
    requires t <= |merges| && x in Active(leaves, merges, first, t)
    ensures x in leaves || x >= first
  {
    if t > 0 && x !in Active(leaves, merges, first, t - 1) {
    } else if t > 0 {
      ActiveKind(leaves, merges, first, t - 1, x);
    }
  }

  lemma SonKind(leaves: set<nat>, w: seq<nat>, merges: seq<Merge>, first: nat, p: nat)
    requires RunTo(leaves, w, merges, first) && p < 2 * |merges|
    ensures Son(merges, p) in leaves <==> Son(merges, p) < first
    ensures Son(merges, p) < first + p / 2 < |w|
  {
    hide RunTo, Active;
    Sons(leaves, w, merges, first, p / 2);
    ActiveKind(leaves, merges, first, p / 2, Son(merges, p));
    LeafBound(leaves, w, merges, first);
  }

  lemma LeafBound(leaves: set<nat>, w: seq<nat>, merges: seq<Merge>, first: nat)
    requires RunTo(leaves, w, merges, first)
    ensures forall x :: x in leaves ==> x < first
  {
  }

  /** One step of either scan. */
  lemma NextLeaf(leaves: set<nat>, w: seq<nat>, merges: seq<Merge>, first: nat, p: nat)
    requires RunTo(leaves, w, merges, first) && p < 2 * |merges|
    ensures var x := Son(merges, p);
            && x !in LeavesFrom(leaves, merges, p + 1) && x !in LeavesTo(leaves, merges, p)
            && LeavesFrom(leaves, merges, p)
                 == (if x in leaves then LeavesFrom(leaves, merges, p + 1) + {x} else LeavesFrom(leaves, merges, p + 1))
            && LeavesTo(leaves, merges, p + 1)
                 == (if x in leaves then LeavesTo(leaves, merges, p) + {x} else LeavesTo(leaves, merges, p))
  {
    hide RunTo;
    LeavesFromRank(leaves, merges, p + 1, Son(merges, p));
    LeavesToRank(leaves, merges, p, Son(merges, p));
    AllSonsDistinct(leaves, w, merges, first);
  }

  // ----- the first pass

  /** Ranks p and above have their lengths, cut off at max; those below still have their fathers. */
  ghost predicate Passed(merges: seq<Merge>, first: nat, d: seq<nat>, max: nat, dl: seq<nat>, p: nat) {
    && |merges| >= 1 && first + |merges| <= |d| == |dl|
    && dl[first + |merges| - 1] == 0
    && (forall q :: 0 <= q < 2 * |merges| ==> Son(merges, q) < |d|)
    && (forall q :: 0 <= q < p && q < 2 * |merges| ==> dl[Son(merges, q)] == first + q / 2)
    && (forall q :: p <= q < 2 * |merges| ==> dl[Son(merges, q)] == Min(d[Son(merges, q)], max))
  }

  lemma DepthAtRank(d: seq<nat>, merges: seq<Merge>, first: nat, p: nat)
    requires |merges| >= 1 && first + |merges| <= |d| && Depths(d, merges, first) && p < 2 * |merges|
    ensures Son(merges, p) < |d| && d[Son(merges, p)] == d[first + p / 2] + 1 && d[first + |merges| - 1] == 0
  {
  }

  /** The father of the next node has its length already. */
  lemma FatherPassed(leaves: set<nat>, w: seq<nat>, merges: seq<Merge>, first: nat, d: seq<nat>, max: nat,
                     dl: seq<nat>, p: nat)
    requires HuffmanRun(leaves, w, merges, first) && |d| == |w| && Depths(d, merges, first)
    requires Passed(merges, first, d, max, dl, p + 1) && p < 2 * |merges|
    ensures var f := first + p / 2;
            && Son(merges, p) < f < |dl| && dl[Son(merges, p)] == f && dl[f] == Min(d[f], max)
            && d[Son(merges, p)] == d[f] + 1
  {
    hide HuffmanRun, Depths, Active, Son;
    RunFinished(leaves, w, merges, first);
    hide RunTo;
    SonKind(leaves, w, merges, first, p);
    DepthAtRank(d, merges, first, p);
    var f, s := first + p / 2, p / 2;
    if s + 1 < |merges| {
      Sons(leaves, w, merges, first, s);
      var q := RankOf(leaves, w, merges, first, f, s + 1);
      assert dl[Son(merges, q)] == Min(d[Son(merges, q)], max);
    }
  }

  lemma PassStep(leaves: set<nat>, w: seq<nat>, merges: seq<Merge>, first: nat, d: seq<nat>, max: nat,
                 dl: seq<nat>, p: nat)
    requires RunTo(leaves, w, merges, first) && |d| == |w|
    requires Passed(merges, first, d, max, dl, p + 1) && p < 2 * |merges|
    ensures Son(merges, p) < |dl|
    ensures Passed(merges, first, d, max, dl[Son(merges, p) := Min(d[Son(merges, p)], max)], p)
  {
    hide RunTo, Son;
    AllSonsDistinct(leaves, w, merges, first);
    SonKind(leaves, w, merges, first, p);
  }

  /** How many nodes of rank p and above are too deep. */
  function Overlong(merges: seq<Merge>, d: seq<nat>, max: nat, p: nat): nat
    requires p <= 2 * |merges| && forall q :: 0 <= q < 2 * |merges| ==> Son(merges, q) < |d|
    decreases 2 * |merges| - p
  {
    if p == 2 * |merges| then 0
    else Overlong(merges, d, max, p + 1) + (if d[Son(merges, p)] > max then 1 else 0)
  }

  /** They come in pairs: both sons of an overflowing merge. */
  lemma {:induction false} OverlongPairs(merges: seq<Merge>, first: nat, d: seq<nat>, max: nat, t: nat)
    requires |merges| >= 1 && first + |merges| <= |d| && Depths(d, merges, first) && t <= |merges|
    requires forall q :: 0 <= q < 2 * |merges| ==> Son(merges, q) < |d|
    ensures Overlong(merges, d, max, 2 * t) == 2 * Overflows(merges, first, d, max, t)
    decreases |merges| - t
  {
    if t < |merges| {
      OverlongPairs(merges, first, d, max, t + 1);
      DepthAtRank(d, merges, first, 2 * t);
      DepthAtRank(d, merges, first, 2 * t + 1);
      assert Overlong(merges, d, max, 2 * t + 1)
          == Overlong(merges, d, max, 2 * t + 2) + (if d[Son(merges, 2 * t + 1)] > max then 1 else 0);
    }
  }

  lemma {:induction false} NoneOverlong(merges: seq<Merge>, d: seq<nat>, max: nat, p: nat)
    requires p <= 2 * |merges| && forall q :: 0 <= q < 2 * |merges| ==> Son(merges, q) < |d|
    ensures Overlong(merges, d, max, p) == 0 <==> forall q :: p <= q < 2 * |merges| ==> d[Son(merges, q)] <= max
    decreases 2 * |merges| - p
  {
    if p < 2 * |merges| {
      NoneOverlong(merges, d, max, p + 1);
    }
  }

  /** The bits that symbols of the given weights take up: code and extra bits. */
  function Sizes(w: seq<nat>, l: seq<nat>, extra: seq<nat>): (g: seq<nat>)
    requires |w| == |l| == |extra|
    ensures |g| == |w|
  {
    seq(|w|, i requires 0 <= i < |w| => w[i] * (l[i] + extra[i]))
  }

  function SizeOf(a: set<nat>, w: seq<nat>, l: seq<nat>, extra: seq<nat>): nat
    requires |w| == |l| == |extra|
  {
    SumOver(a, Sizes(w, l, extra), |w|)
  }

  lemma SizeGrows(a: set<nat>, w: seq<nat>, l: seq<nat>, extra: seq<nat>, x: nat)
    requires |w| == |l| == |extra| && x !in a && x < |w|
    ensures SizeOf(a + {x}, w, l, extra) == SizeOf(a, w, l, extra) + w[x] * (l[x] + extra[x])
  {
    SumRemove(a + {x}, Sizes(w, l, extra), x, |w|);
    assert a + {x} - {x} == a;
  }

  lemma SizeChanges(a: set<nat>, w: seq<nat>, l: seq<nat>, extra: seq<nat>, x: nat, v: nat)
    requires |w| == |l| == |extra| && x in a && x < |w|
    ensures SizeOf(a, w, l[x := v], extra) == SizeOf(a, w, l, extra) + (v - l[x]) * w[x]
  {
    var g := Sizes(w, l, extra);
    assert Sizes(w, l[x := v], extra) == g[x := w[x] * (v + extra[x])];
    SumUpdate(a, g, x, w[x] * (v + extra[x]), |w|);
    Difference(w[x], v, l[x], extra[x]);
  }

  lemma Difference(w: nat, v: nat, l: nat, e: nat)
    ensures w * (v + e) == w * (l + e) + (v - l) * w
  {
    MulSub(w, v + e, l + e);
  }

  lemma SizeSame(a: set<nat>, w: seq<nat>, l: seq<nat>, l': seq<nat>, extra: seq<nat>)
    requires |w| == |l| == |extra| == |l'| && forall i :: i in a && i < |w| ==> l[i] == l'[i]
    ensures SizeOf(a, w, l, extra) == SizeOf(a, w, l', extra)
  {
    SumSame(a, Sizes(w, l, extra), a, Sizes(w, l', extra), |w|);
  }

  /** Counting one more node. */
  lemma CountsGrow(a: set<nat>, l: seq<nat>, c: seq<nat>, x: nat)
    requires x !in a && x < |l| && l[x] < |c| && Counts(a, l, c)
    ensures Counts(a + {x}, l, c[l[x] := c[l[x]] + 1])
  {
    assert a + {x} - {x} == a;
    forall b | 0 <= b < |c|
      ensures c[l[x] := c[l[x]] + 1][b] == CountAt(a + {x}, l, b)
    {
      CountWithout(a + {x}, l, x, b);
    }
  }

  lemma CountsSame(a: set<nat>, l: seq<nat>, l': seq<nat>, c: seq<nat>)
    requires |l| == |l'| && Counts(a, l, c) && forall i :: i in a && i < |l| ==> l[i] == l'[i]
    ensures Counts(a, l', c)
  {
    forall b | 0 <= b < |c|
      ensures c[b] == CountAt(a, l', b)
    {
      SumSame(a, IsLength(l, b), a, IsLength(l', b), |l|);
    }
  }

  // ----- after the first pass

  /** The counts of the lengths cut off at max are ready for repair. */
  lemma CutOverspent(leaves: set<nat>, w: seq<nat>, merges: seq<Merge>, first: nat, d: seq<nat>, max: nat, c: seq<nat>)
    requires HuffmanRun(leaves, w, merges, first) && |d| == |w| && Depths(d, merges, first)
    requires 1 <= max < |c| && Counts(leaves, Cut(d, max), c) && |leaves| <= Pow2(max)
    ensures Overspent(c, max, Overflows(merges, first, d, max, 0))
    ensures Total(c, max + 1) == |leaves| && forall b :: max < b < |c| ==> c[b] == 0
  {
    hide HuffmanRun, Depths, Overflows, KraftTo, Total, SumOver, Kraft, CountAt, Cut;
    LeavesInside(leaves, w, merges, first);
    LeavesDeep(leaves, w, merges, first, d, max);
    KraftByCounts(leaves, Cut(d, max), c, max);
    CutKraft(leaves, w, merges, first, d, max, 0);
    ManyAtMax(leaves, w, merges, first, d, max, 0);
    AtMaxCounted(leaves, d, max);
    assert Active(leaves, merges, first, 0) == leaves;
    NoneOfLength(leaves, Cut(d, max), 0);
    forall b | max < b < |c|
      ensures c[b] == 0
    {
      NoneOfLength(leaves, Cut(d, max), b);
    }
  }

  lemma LeavesInside(leaves: set<nat>, w: seq<nat>, merges: seq<Merge>, first: nat)
    requires HuffmanRun(leaves, w, merges, first)
    ensures forall x :: x in leaves ==> x < |w|
  {
  }

  /** No leaf is the root. */
  lemma LeavesDeep(leaves: set<nat>, w: seq<nat>, merges: seq<Merge>, first: nat, d: seq<nat>, max: nat)
    requires HuffmanRun(leaves, w, merges, first) && |d| == |w| && Depths(d, merges, first) && max >= 1
    ensures forall x :: x in leaves ==> x < |d| && 1 <= d[x] && 1 <= Cut(d, max)[x] <= max
  {
    hide HuffmanRun, Depths, Active;
    LeavesInside(leaves, w, merges, first);
    forall x | x in leaves
      ensures 1 <= d[x]
    {
      LeafActive(leaves, w, merges, first, x);
      RunFinished(leaves, w, merges, first);
      var p := RankOf(leaves, w, merges, first, x, 0);
      DepthAtRank(d, merges, first, p);
    }
  }

  lemma NoneOfLength(a: set<nat>, l: seq<nat>, b: nat)
    requires forall x :: x in a ==> x < |l| && l[x] != b
    ensures CountAt(a, l, b) == 0
  {
    SumSame(a, IsLength(l, b), {}, IsLength(l, b)[..], 0);
    AllZero(a, IsLength(l, b), |l|);
  }

  lemma {:induction false} AllZero(a: set<nat>, g: seq<nat>, n: nat)
    requires n <= |g| && forall i :: i in a && i < n ==> g[i] == 0
    ensures SumOver(a, g, n) == 0
  {
    if n > 0 {
      AllZero(a, g, n - 1);
    }
  }

  lemma AtMaxCounted(a: set<nat>, d: seq<nat>, max: nat)
    ensures SumOver(a, AtMax(d, max), |d|) == CountAt(a, Cut(d, max), max)
  {
    SumSame(a, AtMax(d, max), a, IsLength(Cut(d, max), max), |d|);
  }

  // ----- the second pass

  /** Counts when all lengths above bits have been dealt out, and all but n codes of length bits. */
  function Dealt(c: seq<nat>, bits: nat, n: nat): (e: seq<nat>)
    requires bits < |c| && n <= c[bits]
    ensures |e| == |c|
  {
    seq(|c|, b requires 0 <= b < |c| => if b > bits then c[b] else if b == bits then c[b] - n else 0)
  }

  lemma {:induction false} DealtTotal(c: seq<nat>, bits: nat, n: nat, k: nat)
    requires bits < |c| && n <= c[bits] && k <= |c|
    ensures Total(Dealt(c, bits, n), k) + (if bits < k then n else 0) <= Total(c, k)
  {
    if k > 0 {
      DealtTotal(c, bits, n, k - 1);
    }
  }

  /** Ranks below p have their final lengths: at least bits, never longer for a later one. */
  ghost predicate Redealt(leaves: set<nat>, merges: seq<Merge>, c: seq<nat>, max: nat, dl: seq<nat>, p: nat,
                          bits: nat, n: nat) {
    && p <= 2 * |merges| && bits <= max < |c| && n <= c[bits]
    && Counts(LeavesTo(leaves, merges, p), dl, Dealt(c, bits, n))
    && (forall q :: 0 <= q < p && Son(merges, q) in leaves ==> Son(merges, q) < |dl| && bits <= dl[Son(merges, q)] <= max)
    && (forall q, r :: 0 <= q < r < p && Son(merges, q) in leaves && Son(merges, r) in leaves ==>
          dl[Son(merges, q)] >= dl[Son(merges, r)])
  }

  /** While codes are left to deal out there are leaves left. */
  lemma LeavesRemain(leaves: set<nat>, w: seq<nat>, merges: seq<Merge>, first: nat, c: seq<nat>, max: nat,
                     dl: seq<nat>, p: nat, bits: nat, n: nat)
    requires HuffmanRun(leaves, w, merges, first) && |dl| == |w|
    requires Redealt(leaves, merges, c, max, dl, p, bits, n) && Total(c, max + 1) == |leaves| && n > 0
    ensures p < 2 * |merges|
  {
    if p == 2 * |merges| {
      AllLeaves(leaves, w, merges, first);
      RankedLengths(leaves, merges, dl, p, max);
      KraftByCounts(leaves, dl, Dealt(c, bits, n), max);
      DealtTotal(c, bits, n, max + 1);
    }
  }

  lemma RankedLengths(leaves: set<nat>, merges: seq<Merge>, dl: seq<nat>, p: nat, max: nat)
    requires p <= 2 * |merges|
    requires forall q :: 0 <= q < p && Son(merges, q) in leaves ==> Son(merges, q) < |dl| && dl[Son(merges, q)] <= max
    ensures forall x :: x in LeavesTo(leaves, merges, p) ==> x < |dl| && dl[x] <= max
  {
    hide Son, LeavesTo;
    forall x | x in LeavesTo(leaves, merges, p)
      ensures x < |dl| && dl[x] <= max
    {
      LeavesToRank(leaves, merges, p, x);
    }
  }

  /** A leaf gets the length bits. */
  lemma DealStep(leaves: set<nat>, w: seq<nat>, merges: seq<Merge>, first: nat, c: seq<nat>, max: nat,
                 dl: seq<nat>, p: nat, bits: nat, n: nat)
    requires RunTo(leaves, w, merges, first) && |dl| == |w| && p < 2 * |merges| && n > 0
    requires Redealt(leaves, merges, c, max, dl, p, bits, n) && Son(merges, p) in leaves
    ensures Son(merges, p) < |dl| && Redealt(leaves, merges, c, max, dl[Son(merges, p) := bits], p + 1, bits, n - 1)
  {
    hide RunTo, Son, LeavesTo, LeavesFrom, Counts;
    SonKind(leaves, w, merges, first, p);
    AllSonsDistinct(leaves, w, merges, first);
    NextLeaf(leaves, w, merges, first, p);
    var x := Son(merges, p);
    var l := dl[x := bits];
    CountsSame(LeavesTo(leaves, merges, p), dl, l, Dealt(c, bits, n));
    CountsGrow(LeavesTo(leaves, merges, p), l, Dealt(c, bits, n), x);
    assert Dealt(c, bits, n - 1) == Dealt(c, bits, n)[bits := c[bits] - n + 1];
  }

  /** Inner nodes are passed over. */
  lemma DealSkip(leaves: set<nat>, w: seq<nat>, merges: seq<Merge>, first: nat, c: seq<nat>, max: nat,
                 dl: seq<nat>, p: nat, bits: nat, n: nat)
    requires RunTo(leaves, w, merges, first) && |dl| == |w| && p < 2 * |merges|
    requires Redealt(leaves, merges, c, max, dl, p, bits, n) && Son(merges, p) !in leaves
    ensures Redealt(leaves, merges, c, max, dl, p + 1, bits, n)
  {
    hide RunTo, Son, LeavesTo, LeavesFrom, Counts;
    NextLeaf(leaves, w, merges, first, p);
  }

  /** All codes of one length are dealt out: on to the next shorter one. */
  lemma DealShorter(leaves: set<nat>, merges: seq<Merge>, c: seq<nat>, max: nat, dl: seq<nat>, p: nat, bits: nat)
    requires Redealt(leaves, merges, c, max, dl, p, bits, 0) && bits > 0
    ensures Redealt(leaves, merges, c, max, dl, p, bits - 1, c[bits - 1])
  {
    hide Son, LeavesTo, Counts;
    assert Dealt(c, bits, 0) == Dealt(c, bits - 1, c[bits - 1]);
  }

  lemma DealStart(leaves: set<nat>, merges: seq<Merge>, c: seq<nat>, max: nat, dl: seq<nat>)
    requires max < |c| && forall b :: max < b < |c| ==> c[b] == 0
    ensures Redealt(leaves, merges, c, max, dl, 0, max, c[max])
  {
    forall b | 0 <= b < |c|
      ensures Dealt(c, max, c[max])[b] == CountAt({}, dl, b)
    {
      EmptySum(IsLength(dl, b), |dl|);
    }
  }

  /** What the second pass ends with. */
  ghost predicate Reassigned(leaves: set<nat>, merges: seq<Merge>, c: seq<nat>, max: nat, dl: seq<nat>) {
    && Counts(leaves, dl, c)
    && (forall x :: x in leaves ==> x < |dl| && 1 <= dl[x] <= max)
    && (forall q, r :: 0 <= q < r < 2 * |merges| && Son(merges, q) in leaves && Son(merges, r) in leaves ==>
          Son(merges, q) < |dl| && Son(merges, r) < |dl| && dl[Son(merges, q)] >= dl[Son(merges, r)])
  }

  lemma DealDone(leaves: set<nat>, w: seq<nat>, merges: seq<Merge>, first: nat, c: seq<nat>, max: nat,
                 dl: seq<nat>, p: nat)
    requires HuffmanRun(leaves, w, merges, first) && |dl| == |w|
    requires Redealt(leaves, merges, c, max, dl, p, 0, 0) && c[0] == 0 && Total(c, max + 1) == |leaves|
    ensures Reassigned(leaves, merges, c, max, dl)
  {
    hide HuffmanRun, Total, LeavesTo, LeavesFrom, Son, CountAt;
    assert Dealt(c, 0, 0) == c;
    var done := LeavesTo(leaves, merges, p);
    RankedLengths(leaves, merges, dl, p, max);
    KraftByCounts(done, dl, c, max);
    LeavesToSubset(leaves, merges, p);
    SameSize(done, leaves);
    NoZeroLength(leaves, dl, c);
    AllRanked(leaves, w, merges, first, p);
  }

  lemma LeavesToSubset(leaves: set<nat>, merges: seq<Merge>, p: nat)
    requires p <= 2 * |merges|
    ensures LeavesTo(leaves, merges, p) <= leaves
  {
    forall x | x in LeavesTo(leaves, merges, p)
      ensures x in leaves
    {
      LeavesToRank(leaves, merges, p, x);
    }
  }

  lemma SameSize(s: set<nat>, t: set<nat>)
    requires s <= t && |s| == |t|
    ensures s == t
  {
    assert |t - s| == 0;
    assert t == s + (t - s);
  }

  lemma NoZeroLength(a: set<nat>, l: seq<nat>, c: seq<nat>)
    requires Counts(a, l, c) && |c| > 0 && c[0] == 0
    ensures forall x :: x in a && x < |l| ==> l[x] >= 1
  {
    forall x | x in a && x < |l|
      ensures l[x] >= 1
    {
      CountWithout(a, l, x, 0);
    }
  }

  /** If all leaves were seen, the ranks not seen belong to inner nodes. */
  lemma AllRanked(leaves: set<nat>, w: seq<nat>, merges: seq<Merge>, first: nat, p: nat)
    requires HuffmanRun(leaves, w, merges, first) && p <= 2 * |merges| && LeavesTo(leaves, merges, p) == leaves
    ensures forall q :: p <= q < 2 * |merges| ==> Son(merges, q) !in leaves
  {
    hide HuffmanRun, LeavesTo, Son;
    RunFinished(leaves, w, merges, first);
    AllSonsDistinct(leaves, w, merges, first);
    forall q | p <= q < 2 * |merges|
      ensures Son(merges, q) !in leaves
    {
      LeavesToRank(leaves, merges, p, Son(merges, q));
    }
  }
}
