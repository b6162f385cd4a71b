/**
 Counts of codes by length, and the loop of gen_bitlen that moves leaves about when some
 codes came out longer than allowed.
 */
module LengthRepair {
  import opened Arith
  import opened Bits
  import opened Sums
  import opened HuffmanTheory

  /** Marks the nodes whose length is b. */
  function IsLength(l: seq<nat>, b: nat): (g: seq<nat>)
    ensures |g| == |l|
  {
    seq(|l|, i requires 0 <= i < |l| => if l[i] == b then 1 else 0)
  }

  /** How many nodes of a have length b. */
  function CountAt(a: set<nat>, l: seq<nat>, b: nat): nat {
    SumOver(a, IsLength(l, b), |l|)
  }

  /** c counts the nodes of a by length, for lengths below |c|. */
  ghost predicate Counts(a: set<nat>, l: seq<nat>, c: seq<nat>) {
    forall b :: 0 <= b < |c| ==> c[b] == CountAt(a, l, b)
  }

  /** The shares of 2^max taken by the codes counted at lengths below n. */
  function KraftTo(c: seq<nat>, max: nat, n: nat): nat
    requires n <= max + 1 && n <= |c|
  {
    if n == 0 then 0 else KraftTo(c, max, n - 1) + c[n - 1] * Pow2(max - (n - 1))
  }

  function Total(c: seq<nat>, n: nat): nat
    requires n <= |c|
  {
    if n == 0 then 0 else Total(c, n - 1) + c[n - 1]
  }

  lemma {:induction false} KraftToSet(c: seq<nat>, max: nat, n: nat, i: nat, v: nat)
    requires n <= max + 1 && n <= |c| && i < |c|
    ensures i >= n ==> KraftTo(c[i := v], max, n) == KraftTo(c, max, n)
    ensures i < n ==> KraftTo(c[i := v], max, n) + c[i] * Pow2(max - i) == KraftTo(c, max, n) + v * Pow2(max - i)
  {
    if n > 0 {
      KraftToSet(c, max, n - 1, i, v);
    }
  }

  lemma {:induction false} TotalSet(c: seq<nat>, n: nat, i: nat, v: nat)
    requires n <= |c| && i < |c|
    ensures i >= n ==> Total(c[i := v], n) == Total(c, n)
    ensures i < n ==> Total(c[i := v], n) + c[i] == Total(c, n) + v
  {
    if n > 0 {
      TotalSet(c, n - 1, i, v);
    }
  }

  /** Taking a node away lowers the count of its length only. */
  lemma CountWithout(a: set<nat>, l: seq<nat>, x: nat, b: nat)
    requires x in a && x < |l|
    ensures CountAt(a, l, b) == CountAt(a - {x}, l, b) + (if l[x] == b then 1 else 0)
  {
    SumRemove(a, IsLength(l, b), x, |l|);
  }

  lemma CountsWithout(a: set<nat>, l: seq<nat>, c: seq<nat>, x: nat)
    requires x in a && x < |l| && l[x] < |c| && Counts(a, l, c)
    ensures c[l[x]] > 0 && Counts(a - {x}, l, c[l[x] := c[l[x]] - 1])
  {
    CountWithout(a, l, x, l[x]);
    forall b | 0 <= b < |c|
      ensures c[l[x] := c[l[x]] - 1][b] == CountAt(a - {x}, l, b)
    {
      CountWithout(a, l, x, b);
    }
  }

  lemma {:induction false} NoCounts(l: seq<nat>, c: seq<nat>, max: nat, n: nat)
    requires Counts({}, l, c) && n <= max + 1 && n <= |c|
    ensures KraftTo(c, max, n) == 0 && Total(c, n) == 0
  {
    if n > 0 {
      NoCounts(l, c, max, n - 1);
      assert c[n - 1] == CountAt({}, l, n - 1);
      EmptySum(IsLength(l, n - 1), |l|);
      assert c[n - 1] == 0;
    }
  }

  /** The Kraft sum and the number of the nodes, read off their counts. */
  lemma {:induction false} KraftByCounts(a: set<nat>, l: seq<nat>, c: seq<nat>, max: nat)
    requires Counts(a, l, c) && max + 1 <= |c| && forall i :: i in a ==> i < |l| && l[i] <= max
    ensures Kraft(a, l, max) == KraftTo(c, max, max + 1) && |a| == Total(c, max + 1)
    decreases a
  {
    hide Counts, SumOver;
    if a == {} {
      NoCounts(l, c, max, max + 1);
      EmptySum(Shares(l, max), |l|);
    } else {
      var x :| x in a;
      var b := l[x];
      CountsWithout(a, l, c, x);
      KraftByCounts(a - {x}, l, c[b := c[b] - 1], max);
      SumRemove(a, Shares(l, max), x, |l|);
      KraftToSet(c, max, max + 1, b, c[b] - 1);
      TotalSet(c, max + 1, b, c[b] - 1);
      MulSub(Pow2(max - b), c[b], 1);
    }
  }

  // ----- the repair

  /** The last length up to n that some code has. */
  function LastUsed(c: seq<nat>, n: nat): (b: nat)
    requires n < |c|
    ensures b <= n && (forall i :: b < i <= n ==> c[i] == 0) && (b > 0 ==> c[b] > 0)
  {
    if n == 0 || c[n] > 0 then n else LastUsed(c, n - 1)
  }

  /** One repair is possible: some code is shorter than max, and one at max can be spared. */
  ghost predicate Repairable(c: seq<nat>, max: nat) {
    1 <= max < |c| && LastUsed(c, max - 1) >= 1 && c[max] >= 1
  }

  /** One leaf goes down a level, and an overlong one becomes its brother. */
  function RepairOnce(c: seq<nat>, max: nat): (c': seq<nat>)
    requires Repairable(c, max)
    ensures |c'| == |c|
  {
    var b := LastUsed(c, max - 1);
    var c1 := c[b := c[b] - 1];
    var c2 := c1[b + 1 := c1[b + 1] + 2];
    c2[max := c2[max] - 1]
  }

  /** Counts that overspend 2^max by u, with more than u codes at the maximum and no more codes than fit. */
  ghost predicate Overspent(c: seq<nat>, max: nat, u: nat) {
    && 1 <= max < |c| && c[0] == 0
    && KraftTo(c, max, max + 1) == Pow2(max) + u
    && (u > 0 ==> c[max] > u)
    && Total(c, max + 1) <= Pow2(max)
  }

  lemma {:induction false} OnlyMax(c: seq<nat>, max: nat, n: nat)
    requires n <= max < |c| && forall i :: 0 <= i < n ==> c[i] == 0
    ensures KraftTo(c, max, n) == 0 && Total(c, n) == 0
  {
    if n > 0 {
      OnlyMax(c, max, n - 1);
    }
  }

  lemma OverspentRepairable(c: seq<nat>, max: nat, u: nat)
    requires Overspent(c, max, u) && u > 0
    ensures Repairable(c, max)
  {
    assert Pow2(0) == 1;
    if LastUsed(c, max - 1) == 0 {
      OnlyMax(c, max, max);
    }
  }

  /** One repair takes one unit off the overspending and keeps the number of codes. */
  lemma RepairStep(c: seq<nat>, max: nat, u: nat)
    requires Overspent(c, max, u) && u > 0
    ensures Repairable(c, max) && Overspent(RepairOnce(c, max), max, u - 1)
    ensures Total(RepairOnce(c, max), max + 1) == Total(c, max + 1)
    ensures forall i :: max < i < |c| ==> RepairOnce(c, max)[i] == c[i]
  {
    OverspentRepairable(c, max, u);
    var b := LastUsed(c, max - 1);
    var c1 := c[b := c[b] - 1];
    var c2 := c1[b + 1 := c1[b + 1] + 2];
    var c3 := c2[max := c2[max] - 1];
    KraftToSet(c, max, max + 1, b, c1[b]);
    KraftToSet(c1, max, max + 1, b + 1, c2[b + 1]);
    KraftToSet(c2, max, max + 1, max, c3[max]);
    TotalSet(c, max + 1, b, c1[b]);
    TotalSet(c1, max + 1, b + 1, c2[b + 1]);
    TotalSet(c2, max + 1, max, c3[max]);
    hide KraftTo, Total;
    LevelDown(c[b], c1[b + 1], Pow2(max - b - 1));
    assert Pow2(max - b) == 2 * Pow2(max - b - 1) && Pow2(0) == 1;
  }

  /** Two codes one level down take as much as one. */
  lemma LevelDown(x: nat, y: nat, p: nat)
    requires x > 0
    ensures (x - 1) * (2 * p) == x * (2 * p) - 2 * p && (y + 2) * p == y * p + 2 * p
  {
  }

  /** All the repairs: u times. */
  ghost function Repaired(c: seq<nat>, max: nat, u: nat): (c': seq<nat>)
    requires Overspent(c, max, u)
    ensures |c'| == |c|
    decreases u
  {
    if u == 0 then c else RepairStep(c, max, u); Repaired(RepairOnce(c, max), max, u - 1)
  }

  /** In the end the codes fill 2^max exactly, and there are as many as before. */
  lemma {:induction false} RepairedFills(c: seq<nat>, max: nat, u: nat)
    requires Overspent(c, max, u)
    ensures var c' := Repaired(c, max, u);
            && Overspent(c', max, 0)
            && Total(c', max + 1) == Total(c, max + 1)
            && forall i :: max < i < |c| ==> c'[i] == c[i]
    decreases u
  {
    hide Overspent;
    if u > 0 {
      RepairStep(c, max, u);
      RepairedFills(RepairOnce(c, max), max, u - 1);
    }
  }

  /** The loop over the overflow count, which is even. */
  method Repair(blCount: array<nat>, max: nat, overflow0: nat)
    requires overflow0 > 0 && overflow0 % 2 == 0 && Overspent(blCount[..], max, overflow0 / 2)
    modifies blCount
    ensures blCount[..] == Repaired(old(blCount[..]), max, overflow0 / 2)
  {
    hide Overspent, Repaired, KraftTo, Total, RepairOnce;
    var overflow: int := overflow0;
    ghost var c := blCount[..];
    ghost var u := overflow0 / 2;
    while true
      invariant overflow > 0 && u > 0 && overflow == 2 * u
      invariant Overspent(c, max, overflow0 / 2) && Overspent(blCount[..], max, u)
      invariant Repaired(blCount[..], max, u) == Repaired(c, max, overflow0 / 2)
      decreases u
    {
      ghost var s := blCount[..];
      RepairStep(s, max, u);
      RepairsUnfold(s, max, u);
      RepairLevel(blCount, max);
      overflow := overflow - 2;
      u := u - 1;
      if overflow <= 0 {
        break;
      }
    }
    NoRepairs(blCount[..], max);
  }

  lemma RepairsUnfold(c: seq<nat>, max: nat, u: nat)
    requires Overspent(c, max, u) && u > 0
    ensures Repairable(c, max) && Overspent(RepairOnce(c, max), max, u - 1)
    ensures Repaired(c, max, u) == Repaired(RepairOnce(c, max), max, u - 1)
  {
    RepairStep(c, max, u);
  }

  lemma NoRepairs(c: seq<nat>, max: nat)
    requires Overspent(c, max, 0)
    ensures Repaired(c, max, 0) == c
  {
  }

  /** The body of the loop. */
  method RepairLevel(blCount: array<nat>, max: nat)
    requires Repairable(blCount[..], max)
    modifies blCount
    ensures blCount[..] == RepairOnce(old(blCount[..]), max)
  {
    var bits: nat := max - 1;
    ghost var s := blCount[..];
    while blCount[bits] == 0
      invariant 1 <= bits < max && LastUsed(s, max - 1) == LastUsed(s, bits)
      decreases bits
    {
      bits := bits - 1;
    }
    blCount[bits] := blCount[bits] - 1;
    blCount[bits + 1] := blCount[bits + 1] + 2;
    blCount[max] := blCount[max] - 1;
    assert blCount[..] == RepairOnce(s, max);
  }
}
