/**
 huft_build from start to end: counting the lengths, checking that they are not oversubscribed,
 sorting the symbols by length, and making the tables; then what the tables decode.
 */
module HuftTrees {
  import opened Arith
  import opened Bits
  import opened BitOrder
  import opened Sums
  import opened HuffmanTheory
  import opened LengthRepair
  import opened CanonicalCodes
  import opened HuftTheory
  import opened HuftState
  import opened HuftPlacing
  import opened HuftBuilding

  /** N_MAX: the most codes of any set. */
  const N_MAX: nat := 288

  /** The symbols that have a code. */
  function Symbols(lens: seq<nat>): set<nat> {
    Used(lens, |lens|)
  }

  /** How many of the first m symbols with a code have length k. */
  function RankTo(lens: seq<nat>, m: nat, k: nat): nat
    requires m <= |lens|
  {
    CountAt(Used(lens, m), lens, k)
  }

  lemma RankToNext(lens: seq<nat>, m: nat, k: nat)
    requires m < |lens|
    ensures RankTo(lens, m + 1, k) == RankTo(lens, m, k) + (if lens[m] == k && k != 0 then 1 else 0)
  {
    UsedNext(lens, m);
    if lens[m] != 0 {
      CountWithout(Used(lens, m + 1), lens, m, k);
      assert Used(lens, m + 1) - {m} == Used(lens, m);
    }
  }

  lemma RankToNone(lens: seq<nat>, k: nat)
    ensures RankTo(lens, 0, k) == 0
  {
    assert Used(lens, 0) == {};
    EmptySum(IsLength(lens, k), |lens|);
  }

  lemma {:induction false} RankToGrows(lens: seq<nat>, m: nat, n: nat, k: nat)
    requires m <= n <= |lens|
    ensures RankTo(lens, m, k) <= RankTo(lens, n, k)
    ensures m < n && lens[m] == k && k != 0 ==> RankTo(lens, m, k) < RankTo(lens, n, k)
    decreases n
  {
    if m < n {
      RankToNext(lens, n - 1, k);
      RankToGrows(lens, m, n - 1, k);
    }
  }

  /** It is the rank of the canonical code. */
  lemma RankToIsRank(lens: seq<nat>, m: nat, k: nat)
    requires m <= |lens|
    ensures RankTo(lens, m, k) == Rank(Symbols(lens), lens, m, k)
  {
    assert Used(lens, m) == Below(Symbols(lens), m);
  }

  /** c counts the lengths of the first m symbols; c[0] counts those without a code. */
  ghost predicate Tally(c: seq<nat>, lens: seq<nat>, m: nat) {
    && |c| == BMAX + 1 && m <= |lens| && c[0] + |Used(lens, m)| == m
    && forall k :: 1 <= k <= BMAX ==> c[k] == RankTo(lens, m, k)
  }

  lemma TallyNext(c: seq<nat>, lens: seq<nat>, m: nat)
    requires Tally(c, lens, m) && m < |lens| && lens[m] <= BMAX
    ensures Tally(c[lens[m] := c[lens[m]] + 1], lens, m + 1)
  {
    hide RankTo;
    UsedNext(lens, m);
    var c' := c[lens[m] := c[lens[m]] + 1];
    forall k | 1 <= k <= BMAX
      ensures c'[k] == RankTo(lens, m + 1, k)
    {
      RankToNext(lens, m, k);
    }
  }

  method CountLengths(b: array<nat>) returns (c: array<nat>)
    requires 1 <= b.Length && forall i :: 0 <= i < b.Length ==> b[i] <= BMAX
    ensures fresh(c) && Tally(c[..], b[..], b.Length)
  {
    hide Tally;
    c := new nat[BMAX + 1](n => 0);
    TallyStart(c[..], b[..]);
    var i: nat := 0;
    while i < b.Length
      invariant i <= b.Length && c.Length == BMAX + 1 && fresh(c) && Tally(c[..], b[..], i)
    {
      ghost var c0 := c[..];
      TallyNext(c0, b[..], i);
      c[b[i]] := c[b[i]] + 1;
      assert c[..] == c0[b[i] := c0[b[i]] + 1];
      i := i + 1;
    }
  }

  lemma TallyStart(c: seq<nat>, lens: seq<nat>)
    requires c == seq(BMAX + 1, n => 0)
    ensures Tally(c, lens, 0)
  {
    forall k | 1 <= k <= BMAX
      ensures RankTo(lens, 0, k) == 0
    {
      RankToNone(lens, k);
    }
    assert Used(lens, 0) == {};
  }

  /** The counts without those of length 0, as Counts of the coded symbols. */
  lemma TallyCounts(c: seq<nat>, lens: seq<nat>)
    requires Tally(c, lens, |lens|) && forall i :: 0 <= i < |lens| ==> lens[i] <= BMAX
    ensures Counts(Symbols(lens), lens, c[0 := 0])
    ensures Kraft(Symbols(lens), lens, BMAX) == KraftTo(c[0 := 0], BMAX, BMAX + 1)
    ensures |Symbols(lens)| == Total(c[0 := 0], BMAX + 1)
    ensures c[0] == |lens| <==> Symbols(lens) == {}
  {
    var a := Symbols(lens);
    forall k | 0 <= k <= BMAX
      ensures c[0 := 0][k] == CountAt(a, lens, k)
    {
      if k == 0 {
        ZeroCount(a, lens);
      }
    }
    KraftByCounts(a, lens, c[0 := 0], BMAX);
  }

  lemma ZeroCount(a: set<nat>, lens: seq<nat>)
    requires forall i :: i in a ==> i < |lens| && lens[i] != 0
    ensures CountAt(a, lens, 0) == 0
  {
    NoneMarked(a, IsLength(lens, 0), |lens|);
  }

  lemma {:induction false} NoneMarked(a: set<nat>, g: seq<nat>, n: nat)
    requires n <= |g| && forall i :: i in a && i < n ==> g[i] == 0
    ensures SumOver(a, g, n) == 0
  {
    if n > 0 {
      NoneMarked(a, g, n - 1);
    }
  }

  // ----- the bounds

  /** The least and the greatest length in use. */
  ghost predicate Bounds(c: seq<nat>, low: nat, g: nat) {
    && 1 <= low <= g <= BMAX < |c| && c[low] > 0 && c[g] > 0
    && (forall k :: 1 <= k < low ==> c[k] == 0) && forall k :: g < k <= BMAX ==> c[k] == 0
  }

  method FindBounds(c: array<nat>, ghost k0: nat) returns (low: nat, g: nat)
    requires c.Length == BMAX + 1 && 1 <= k0 <= BMAX && c[k0] > 0
    ensures Bounds(c[..], low, g)
  {
    low := 1;
    while c[low] == 0
      invariant 1 <= low <= k0 && forall k :: 1 <= k < low ==> c[k] == 0
      decreases BMAX - low
    {
      low := low + 1;
    }
    g := BMAX;
    while c[g] == 0
      invariant k0 <= g <= BMAX && forall k :: g < k <= BMAX ==> c[k] == 0
      decreases g
    {
      g := g - 1;
    }
  }

  /** Some length is in use unless all are zero. */
  lemma {:induction false} SomeLength(c: seq<nat>, n: nat) returns (k: nat)
    requires n <= |c| && Total(c, n) > 0 && (|c| > 0 ==> c[0] == 0)
    ensures 1 <= k < n && c[k] > 0
  {
    if c[n - 1] > 0 {
      k := n - 1;
    } else {
      k := SomeLength(c, n - 1);
    }
  }

  // ----- the Kraft inequality

  /** y codes of j bits are still free when the codes of up to j bits are taken. */
  ghost predicate Free(c: seq<nat>, g: nat, j: nat, y: int) {
    j <= g < |c| && y * Pow2(g - j) == Pow2(g) - KraftTo(c, g, j + 1)
  }

  lemma FreeNext(c: seq<nat>, g: nat, j: nat, y: int)
    requires Free(c, g, j, y) && j < g
    ensures Free(c, g, j + 1, 2 * y - c[j + 1])
  {
    var p := Pow2(g - j - 1);
    assert Pow2(g - j) == 2 * p;
    MulAssoc(y, 2, p);
    MulSub(p, 2 * y, c[j + 1]);
  }

  lemma FreeStart(c: seq<nat>, g: nat, low: nat)
    requires low <= g < |c| && c[0] == 0 && forall k :: 1 <= k < low ==> c[k] == 0
    ensures low >= 1 ==> Free(c, g, low, Pow2(low) - c[low])
  {
    if low >= 1 {
      OnlyMax(c, g, low);
      Pow2Add(low, g - low);
      MulSub(Pow2(g - low), Pow2(low), c[low]);
    }
  }

  /** Too many codes of up to j bits are too many codes. */
  lemma FreeNegative(c: seq<nat>, g: nat, j: nat, y: int)
    requires Free(c, g, j, y) && y < 0
    ensures KraftTo(c, g, g + 1) > Pow2(g)
  {
    MulNeg(Pow2(g - j), y);
    KraftToMonotone(c, g, j + 1, g + 1);
  }

  lemma FreeEnd(c: seq<nat>, g: nat, y: int)
    requires Free(c, g, g, y)
    ensures y == Pow2(g) - KraftTo(c, g, g + 1)
  {
    assert Pow2(0) == 1;
  }

  /** "Adjust last length count": how many codes are missing, or that there are too many. */
  method Missing(c: array<nat>, low: nat, g: nat) returns (over: bool, y: nat)
    requires c.Length == BMAX + 1 && Bounds(c[..], low, g)
    ensures over <==> KraftTo(c[..][0 := 0], g, g + 1) > Pow2(g)
    ensures !over ==> y == Pow2(g) - KraftTo(c[..][0 := 0], g, g + 1)
  {
    hide Free, KraftTo, Pow2;
    ghost var c0 := c[..][0 := 0];
    var j: nat := low;
    var left: int := Pow2(low);
    FreeStart(c0, g, low);
    while j < g
      invariant low <= j <= g && Free(c0, g, j, left - c[j])
    {
      left := left - c[j];
      if left < 0 {
        FreeNegative(c0, g, j, left);
        return true, 0;
      }
      FreeNext(c0, g, j, left);
      j := j + 1;
      left := 2 * left;
    }
    left := left - c[g];
    if left < 0 {
      FreeNegative(c0, g, g, left);
      return true, 0;
    }
    FreeEnd(c0, g, left);
    return false, left;
  }

  // ----- the symbols in order of length

  /** Where the symbols of length k begin. */
  function Offset(c: seq<nat>, k: nat): nat
    requires k <= |c|
  {
    Total(c, k)
  }

  method Offsets(c: array<nat>, g: nat) returns (x: array<nat>)
    requires c.Length == BMAX + 1 && 1 <= g <= BMAX
    ensures fresh(x) && x.Length == BMAX + 1 && x[0] == 0
    ensures forall k :: 1 <= k <= g ==> x[k] == Offset(c[..][0 := 0], k)
  {
    ghost var c0 := c[..][0 := 0];
    x := new nat[BMAX + 1](n => 0);
    var j: nat := 0;
    var k: nat := 1;
    assert Total(c0, 1) == Total(c0, 0) + c0[0];
    while k < g
      invariant 1 <= k <= g && fresh(x) && x.Length == BMAX + 1 && x[0] == 0 && j == Offset(c0, k)
      invariant forall n :: 1 <= n <= k ==> x[n] == Offset(c0, n)
    {
      j := j + c[k];
      x[k + 1] := j;
      k := k + 1;
    }
  }

  /** The place of symbol n in the list. */
  function IndexOf(c: seq<nat>, lens: seq<nat>, n: nat): nat
    requires n < |lens| && lens[n] <= |c|
  {
    Offset(c, lens[n]) + RankTo(lens, n, lens[n])
  }

  lemma {:induction false} OffsetsApart(c: seq<nat>, k: nat, n: nat)
    requires k < n <= |c|
    ensures Offset(c, k) + c[k] <= Offset(c, n)
  {
    if k + 1 < n {
      OffsetsApart(c, k, n - 1);
    }
  }

  /** Each symbol has its own place within the list. */
  lemma IndexBounds(c: seq<nat>, lens: seq<nat>, n: nat)
    requires Tally(c, lens, |lens|) && n < |lens| && 1 <= lens[n] <= BMAX
    ensures RankTo(lens, n, lens[n]) < c[lens[n]]
    ensures IndexOf(c[0 := 0], lens, n) < Offset(c[0 := 0], lens[n]) + c[lens[n]] <= Total(c[0 := 0], BMAX + 1)
  {
    hide RankTo;
    RankToGrows(lens, n, |lens|, lens[n]);
    OffsetsApart(c[0 := 0], lens[n], BMAX + 1);
  }

  lemma IndexApart(c: seq<nat>, lens: seq<nat>, m: nat, n: nat)
    requires Tally(c, lens, |lens|) && m < n < |lens| && 1 <= lens[m] <= BMAX && 1 <= lens[n] <= BMAX
    ensures IndexOf(c[0 := 0], lens, m) != IndexOf(c[0 := 0], lens, n)
  {
    hide RankTo, Offset;
    IndexBounds(c, lens, m);
    IndexBounds(c, lens, n);
    if lens[m] == lens[n] {
      RankToGrows(lens, m, n, lens[n]);
    } else if lens[m] < lens[n] {
      OffsetsApart(c[0 := 0], lens[m], lens[n]);
    } else {
      OffsetsApart(c[0 := 0], lens[n], lens[m]);
    }
  }

  /** The first m symbols are in their places. */
  ghost predicate Listed(v: seq<nat>, c: seq<nat>, lens: seq<nat>, m: nat) {
    && m <= |lens|
    && forall n :: 0 <= n < m && 1 <= lens[n] <= |c| ==> IndexOf(c, lens, n) < |v| && v[IndexOf(c, lens, n)] == n
  }

  /** x[] points behind the symbols listed so far. */
  ghost predicate Pointing(x: seq<nat>, c: seq<nat>, lens: seq<nat>, m: nat, g: nat) {
    && g < |x| && g <= |c| && m <= |lens|
    && forall k :: 1 <= k <= g ==> x[k] == Offset(c, k) + RankTo(lens, m, k)
  }

  lemma ListNext(v: seq<nat>, x: seq<nat>, c: seq<nat>, lens: seq<nat>, m: nat, g: nat)
    requires Tally(c, lens, |lens|) && m < |lens| && 1 <= lens[m] <= g <= BMAX && Total(c[0 := 0], BMAX + 1) <= |v|
    requires forall i :: 0 <= i < |lens| ==> lens[i] <= BMAX
    requires Listed(v, c[0 := 0], lens, m) && Pointing(x, c[0 := 0], lens, m, g)
    ensures x[lens[m]] < |v| && Listed(v[x[lens[m]] := m], c[0 := 0], lens, m + 1)
    ensures Pointing(x[lens[m] := x[lens[m]] + 1], c[0 := 0], lens, m + 1, g)
  {
    hide RankTo, Offset, Total, Tally;
    TallySize(c, lens);
    var i, c0 := x[lens[m]], c[0 := 0];
    IndexBounds(c, lens, m);
    assert i == IndexOf(c0, lens, m);
    forall n | 0 <= n < m + 1 && 1 <= lens[n] <= |c0|
      ensures IndexOf(c0, lens, n) < |v| && v[i := m][IndexOf(c0, lens, n)] == n
    {
      if n < m {
        IndexApart(c, lens, n, m);
      }
    }
    forall k | 1 <= k <= g
      ensures RankTo(lens, m + 1, k) == RankTo(lens, m, k) + (if lens[m] == k then 1 else 0)
    {
      RankToNext(lens, m, k);
    }
  }

  lemma TallySize(c: seq<nat>, lens: seq<nat>)
    requires Tally(c, lens, |lens|)
    ensures |c| == BMAX + 1
  {
  }

  lemma ListSkip(v: seq<nat>, x: seq<nat>, c: seq<nat>, lens: seq<nat>, m: nat, g: nat)
    requires m < |lens| && lens[m] == 0 && Listed(v, c, lens, m) && Pointing(x, c, lens, m, g)
    ensures Listed(v, c, lens, m + 1) && Pointing(x, c, lens, m + 1, g)
  {
    hide RankTo, Offset;
    forall k | 1 <= k <= g
      ensures RankTo(lens, m + 1, k) == RankTo(lens, m, k)
    {
      RankToNext(lens, m, k);
    }
  }

  lemma PointingStart(x: seq<nat>, c: seq<nat>, lens: seq<nat>, g: nat)
    requires g < |x| && g <= |c| && forall k :: 1 <= k <= g ==> x[k] == Offset(c, k)
    ensures Pointing(x, c, lens, 0, g)
  {
    hide RankTo, Offset;
    forall k | 1 <= k <= g
      ensures RankTo(lens, 0, k) == 0
    {
      RankToNone(lens, k);
    }
  }

  /** "Make a table of values in order of bit lengths"; the result is how many there are. */
  method ListValues(b: array<nat>, x: array<nat>, v: array<nat>, g: nat, ghost c: seq<nat>, ghost low: nat) returns (n: nat)
    requires 1 <= b.Length <= N_MAX && (forall i :: 0 <= i < b.Length ==> b[i] <= g)
    requires x.Length == BMAX + 1 && v.Length == N_MAX && Tally(c, b[..], b.Length) && Bounds(c, low, g)
    requires x != b && v != b && x != v && x[0] == 0
    requires |c| == BMAX + 1 && g <= BMAX && forall k :: 1 <= k <= g ==> x[k] == Offset(c[0 := 0], k)
    modifies x, v
    ensures n == |Symbols(b[..])| <= N_MAX && Listed(v[..n], c[0 := 0], b[..], b.Length) && x[0] == 0
  {
    hide Tally, Listed, Pointing, Offset, Bounds, Symbols;
    ghost var lens := b[..];
    ListFits(c, lens, low, g);
    PointingStart(x[..], c[0 := 0], lens, g);
    ListedNone(v[..], c[0 := 0], lens);
    var i: nat := 0;
    while i < b.Length
      invariant i <= b.Length && lens == b[..] && x[0] == 0
      invariant Listed(v[..], c[0 := 0], lens, i) && Pointing(x[..], c[0 := 0], lens, i, g)
    {
      ghost var v0, x0 := v[..], x[..];
      var j := b[i];
      if j != 0 {
        ListNext(v0, x0, c, lens, i, g);
        v[x[j]] := i;
        x[j] := x[j] + 1;
        assert v[..] == v0[x0[j] := i] && x[..] == x0[j := x0[j] + 1];
      } else {
        ListSkip(v0, x0, c[0 := 0], lens, i, g);
      }
      i := i + 1;
    }
    n := x[g];
    ListEnd(v[..], x[..], c, lens, low, g);
  }

  lemma ListedNone(v: seq<nat>, c: seq<nat>, lens: seq<nat>)
    ensures Listed(v, c, lens, 0)
  {
  }

  lemma ListFits(c: seq<nat>, lens: seq<nat>, low: nat, g: nat)
    requires Tally(c, lens, |lens|) && Bounds(c, low, g) && (forall i :: 0 <= i < |lens| ==> lens[i] <= g)
    ensures |Symbols(lens)| == Total(c[0 := 0], BMAX + 1) <= |lens| && 1 <= g <= BMAX
    ensures Total(c[0 := 0], BMAX + 1) == Offset(c[0 := 0], g) + c[g]
  {
    TallyCounts(c, lens);
    TotalAbove(c[0 := 0], g + 1, BMAX + 1);
  }

  lemma {:induction false} TotalAbove(c: seq<nat>, m: nat, n: nat)
    requires m <= n <= |c| && forall k :: m <= k < n ==> c[k] == 0
    ensures Total(c, n) == Total(c, m)
  {
    if m < n {
      TotalAbove(c, m, n - 1);
    }
  }

  lemma ListEnd(v: seq<nat>, x: seq<nat>, c: seq<nat>, lens: seq<nat>, low: nat, g: nat)
    requires Tally(c, lens, |lens|) && Bounds(c, low, g) && |lens| <= |v|
    requires forall i :: 0 <= i < |lens| ==> lens[i] <= g
    requires Listed(v, c[0 := 0], lens, |lens|) && Pointing(x, c[0 := 0], lens, |lens|, g)
    ensures x[g] == |Symbols(lens)| <= |v| && Listed(v[..x[g]], c[0 := 0], lens, |lens|)
  {
    hide Offset, Total, Symbols;
    ListFits(c, lens, low, g);
    hide RankTo;
    assert x[g] == Offset(c[0 := 0], g) + c[g];
    forall n | 0 <= n < |lens| && 1 <= lens[n] <= |c|
      ensures IndexOf(c[0 := 0], lens, n) < x[g]
    {
      IndexBounds(c, lens, n);
    }
  }

  // ----- what codes stand for

  /** 128 + 64: "invalid code". */
  const INVALID: nat := 192

  /** The entry for a symbol: itself below s (256 ends the block), else from the lists of bases and extra bits. */
  function OpOf(sym: nat, s: nat, d: seq<nat>, e: seq<nat>): Op {
    if sym < s then Op(if sym < 256 then 0 else 32 + 64, sym)
    else if sym - s < |d| && sym - s < |e| then Op(e[sym - s] + 16 + 64, d[sym - s])
    else Op(INVALID, 0)
  }

  /** The entry for the idx-th code in order; codes beyond the symbols are invalid. */
  function OpAt(vals: seq<nat>, s: nat, d: seq<nat>, e: seq<nat>, idx: nat): Op {
    if idx < |vals| then OpOf(vals[idx], s, d, e) else Op(INVALID, 0)
  }

  /** The place of a code in the order of codes. */
  function CodeIndex(c: seq<nat>, k: nat, fwd: nat): nat {
    if k <= |c| && NextCode(c, k) <= fwd then Offset(c, k) + (fwd - NextCode(c, k)) else 0
  }

  ghost function PlanFor(c: seq<nat>, g: nat, l: nat, vals: seq<nat>, s: nat, d: seq<nat>, e: seq<nat>): Plan {
    Plan(c, g, l, (k: nat, fwd: nat) => OpAt(vals, s, d, e, CodeIndex(c, k, fwd)))
  }

  lemma PlanValid(c: seq<nat>, g: nat, l: nat, vals: seq<nat>, s: nat, d: seq<nat>, e: seq<nat>)
    requires 1 <= l <= g < |c| && c[0] == 0 && c[g] > 0 && KraftTo(c, g, g + 1) == Pow2(g)
    ensures PlanFor(c, g, l, vals, s, d, e).Valid()
  {
    hide KraftTo;
  }

  // ----- the loops

  /** Codes of each length stay within 2^k, and fill it only at the greatest length. */
  lemma CodesRoom(f: Plan, k: nat)
    requires f.Valid() && 1 <= k <= f.g
    ensures NextCode(f.c, k) + f.c[k] <= Pow2(k) && (k < f.g ==> NextCode(f.c, k) + f.c[k] < Pow2(k))
    ensures k == f.g ==> NextCode(f.c, k) + f.c[k] == Pow2(k)
  {
    hide KraftTo, NextCode, Pow2;
    NextCodeShare(f.c, f.g, k);
    KraftToMonotone(f.c, f.g, k + 1, f.g + 1);
    if k < f.g {
      KraftToMonotone(f.c, f.g, k + 1, f.g);
    }
    KraftStep(f.c, f.g, k);
    KraftStep(f.c, f.g, f.g);
    PowNone();
    Pow2Add(k, f.g - k);
    Within(NextCode(f.c, k) + f.c[k], Pow2(f.g - k), Pow2(k), KraftTo(f.c, f.g, k + 1));
  }

  lemma KraftStep(c: seq<nat>, g: nat, k: nat)
    requires k <= g < |c|
    ensures KraftTo(c, g, k + 1) == KraftTo(c, g, k) + c[k] * Pow2(g - k)
    ensures NextCode(c, k) * Pow2(g - k) == KraftTo(c, g, k)
    ensures (NextCode(c, k) + c[k]) * Pow2(g - k) == KraftTo(c, g, k + 1)
    ensures c[k] > 0 ==> KraftTo(c, g, k + 1) > KraftTo(c, g, k)
  {
    NextCodeShare(c, g, k);
    MulAdd(Pow2(g - k), NextCode(c, k), c[k]);
    if c[k] > 0 {
      MulLe(1, Pow2(g - k), c[k], Pow2(g - k));
    }
  }

  lemma Within(n: nat, p: nat, q: nat, x: nat)
    requires p > 0 && n * p == x
    ensures x <= q * p ==> n <= q
    ensures x < q * p ==> n < q
    ensures x == q * p ==> n == q
  {
    if n > q { MulLess(q, n, p); }
    if n == q { assert n * p == q * p; }
    if n < q { MulLess(n, q, p); }
  }

  lemma PowNone()
    ensures Pow2(0) == 1
  {
  }

  /** No codes are shorter than the least length. */
  lemma {:induction false} NoShorter(c: seq<nat>, low: nat)
    requires low <= |c| && forall k :: 0 <= k < low ==> c[k] == 0
    ensures NextCode(c, low) == 0
  {
    if low > 0 {
      NoShorter(c, low - 1);
    }
  }

  lemma EmptyBuilding(f: Plan, k: nat)
    requires f.Valid() && 1 <= k <= f.g && forall n :: 0 <= n < k ==> f.c[n] == 0
    ensures Building(f, Work([], [], []), k, 0)
  {
    NoShorter(f.c, k);
    HighOfZeros(k);
    forall n, v | f.IsCode(n, v)
      ensures f.At(n, v) >= 0
    {
    }
  }

  lemma HighOfZeros(k: nat)
    ensures Low(0, k) == 0
  {
    HighLowUnique(0, 0, k);
  }

  /** All the codes of one length that the loop has come to. */
  ghost predicate InLoop(t: Builder, f: Plan, k: nat, fwd: nat, rest: nat)
    reads t, t.c, t.u, t.x
  {
    && f.Valid() && 1 <= k <= f.g && fwd + rest == NextCode(f.c, k) + f.c[k]
    && (if k == f.g && rest == 0 then
          fwd == Pow2(k) && fwd > 0 && t.Shaped(f) && Popping(f, t.Now(), k, fwd - 1)
        else
          t.At(f, k, fwd))
  }

  /** One code: tables up to the required level, the entries, and on to the next. */
  method OneCode(t: Builder, k: nat, a: nat, l: nat, g: nat, exop: nat, base: nat, ghost f: Plan, ghost fwd: nat)
    requires InLoop(t, f, k, fwd, a + 1) && f.l == l && f.g == g && (t.h == -1 ==> k <= l)
    requires f.IsCode(k, fwd) && exop == f.pay(k, fwd).exop && base == f.pay(k, fwd).base
    modifies t, t.u, t.x
    ensures InLoop(t, f, k, fwd + 1, a) && t.h >= 0
  {
    hide Building, Popping, Plan.IsCode, Plan.Valid, NextCode, Patterns, Reversed, Pow2;
    MakeTables(t, k, a, l, g, f, fwd);
    CodesRoom(f, k);
    t.EnterCode(k, exop, base, f, fwd);
    t.StepOver(k, l, f, fwd);
  }

  /** "make tables up to required level" */
  method MakeTables(t: Builder, k: nat, a: nat, l: nat, g: nat, ghost f: Plan, ghost fwd: nat)
    requires t.At(f, k, fwd) && f.IsCode(k, fwd) && f.l == l && f.g == g && (t.h == -1 ==> k <= l) && k >= 1
    requires a + 1 == NextCode(f.c, k) + f.c[k] - fwd
    modifies t, t.u, t.x
    ensures t.At(f, k, fwd) && t.h >= 0 && k <= l * (t.h + 1)
  {
    hide Building, Plan.IsCode, NextCode, Patterns, Reversed, Pow2;
    while k > t.w + l
      invariant t.At(f, k, fwd) && (t.h == -1 ==> k <= l)
      decreases BMAX - t.h
    {
      TimesNext(l, t.h);
      t.MakeTable(k, a, l, g, f, fwd);
    }
    TimesNext(l, t.h);
    FirstLevel(l, t.h, k);
  }

  lemma FirstLevel(l: nat, h: int, k: nat)
    requires k <= l * h + l && k >= 1 && h >= -1
    ensures h >= 0
  {
  }

  lemma LongerCode(f: Plan, s: Work, k: nat, fwd: nat)
    requires Building(f, s, k, fwd) && k < f.g && fwd == NextCode(f.c, k) + f.c[k]
    ensures Building(f, s, k + 1, 2 * fwd) && 2 * fwd == NextCode(f.c, k + 1) && Reversed(2 * fwd, k + 1) == Reversed(fwd, k)
  {
    Lengthen(f, s, k, fwd);
    hide Building;
  }

  /** The codes of one length. */
  method OneLength(t: Builder, v: array<nat>, n: nat, p0: nat, k: nat, l: nat, g: nat, s: nat, d: seq<nat>, e: seq<nat>,
                   ghost f: Plan, ghost fwd0: nat) returns (p: nat, ghost fwd: nat)
    requires f.Valid() && 1 <= k <= g && f.l == l && f.g == g && t.At(f, k, fwd0) && fwd0 == NextCode(f.c, k)
    requires v != t.c && v != t.u && v != t.x && n <= v.Length && (t.h == -1 ==> k <= l)
    requires f == PlanFor(f.c, g, l, v[..n], s, d, e) && p0 == Min(Offset(f.c, k), n)
    requires forall i :: 0 <= i < n && s <= v[i] ==> v[i] - s < |d| && v[i] - s < |e|
    modifies t, t.u, t.x
    ensures InLoop(t, f, k, fwd, 0) && fwd == NextCode(f.c, k) + f.c[k] && p == Min(Offset(f.c, k + 1), n)
    ensures t.h == -1 ==> old(t.h) == -1 && f.c[k] == 0
  {
    hide NextCode, InLoop, Offset, Plan.Valid;
    p, fwd := p0, fwd0;
    ghost var vals := v[..n];
    LoopStarts(t, f, k, fwd);
    CountIs(t, f, k);
    var a := t.c[k];
    while a > 0
      invariant a <= f.c[k] && InLoop(t, f, k, fwd, a) && vals == v[..n]
      invariant fwd == NextCode(f.c, k) + (f.c[k] - a) && p == Min(Offset(f.c, k) + (f.c[k] - a), n)
      invariant t.h == -1 ==> old(t.h) == -1 && a == f.c[k] && k <= l
    {
      a := a - 1;
      var exop, base := 128 + 64, 0;
      Coding(f, k, fwd, vals, s, d, e);
      if p < n {
        exop, base := EntryFor(v[p], s, d, e);
        p := p + 1;
      }
      OneCode(t, k, a, l, g, exop, base, f, fwd);
      fwd := fwd + 1;
    }
    OffsetStep(f.c, k);
  }

  function Min(x: nat, y: nat): nat {
    if x <= y then x else y
  }

  lemma OffsetStep(c: seq<nat>, k: nat)
    requires k < |c|
    ensures Offset(c, k + 1) == Offset(c, k) + c[k]
  {
  }

  lemma LoopStarts(t: Builder, f: Plan, k: nat, fwd: nat)
    requires f.Valid() && 1 <= k <= f.g && t.At(f, k, fwd) && fwd == NextCode(f.c, k)
    ensures InLoop(t, f, k, fwd, f.c[k])
  {
    hide Building, NextCode, KraftTo, Popping;
  }

  lemma CountIs(t: Builder, f: Plan, k: nat)
    requires 1 <= k <= f.g < |f.c| && t.At(f, k, NextCode(f.c, k))
    ensures k < t.c.Length && k < |f.c| && t.c[k] == f.c[k]
  {
    hide Building, NextCode;
  }

  /** What the current code stands for. */
  lemma Coding(f: Plan, k: nat, fwd: nat, vals: seq<nat>, s: nat, d: seq<nat>, e: seq<nat>)
    requires f == PlanFor(f.c, f.g, f.l, vals, s, d, e) && 1 <= k <= f.g < |f.c|
    requires NextCode(f.c, k) <= fwd < NextCode(f.c, k) + f.c[k]
    ensures f.IsCode(k, fwd) && f.pay(k, fwd) == OpAt(vals, s, d, e, Offset(f.c, k) + (fwd - NextCode(f.c, k)))
  {
  }

  /** "set up table entry in r" */
  method EntryFor(sym: nat, s: nat, d: seq<nat>, e: seq<nat>) returns (exop: nat, base: nat)
    requires sym >= s ==> sym - s < |d| && sym - s < |e|
    ensures Op(exop, base) == OpOf(sym, s, d, e)
  {
    if sym < s {
      exop := if sym < 256 then 0 else 32 + 64;
      base := sym;
    } else {
      exop := e[sym - s] + 16 + 64;
      base := d[sym - s];
    }
  }

  /** "go through the bit lengths" */
  method AllLengths(t: Builder, v: array<nat>, n: nat, low: nat, l: nat, g: nat, s: nat, d: seq<nat>, e: seq<nat>, ghost f: Plan)
    requires f.Valid() && 1 <= low <= g && f.l == l && f.g == g && t.At(f, low, 0) && t.h == -1 && low <= l && f.c[low] > 0
    requires forall k :: 0 <= k < low ==> f.c[k] == 0
    requires v != t.c && v != t.u && v != t.x && n <= v.Length
    requires f == PlanFor(f.c, g, l, v[..n], s, d, e)
    requires forall i :: 0 <= i < n && s <= v[i] ==> v[i] - s < |d| && v[i] - s < |e|
    modifies t, t.u, t.x
    ensures t.Shaped(f) && Popping(f, t.Now(), g, Pow2(g) - 1)
  {
    hide NextCode, InLoop, Offset, Plan.Valid, Building, Popping, Patterns;
    var k: nat, p: nat := low, 0;
    ghost var fwd: nat, vals := 0, v[..n];
    NoShorter(f.c, low);
    NoOffset(f.c, low);
    while k <= g
      invariant low <= k <= g + 1 && vals == v[..n]
      invariant k <= g ==> t.At(f, k, fwd) && fwd == NextCode(f.c, k) && p == Min(Offset(f.c, k), n)
      invariant t.h == -1 ==> k == low
      invariant k > g ==> t.Shaped(f) && Popping(f, t.Now(), g, Pow2(g) - 1)
    {
      p, fwd := OneLength(t, v, n, p, k, l, g, s, d, e, f, fwd);
      LengthDone(t, f, k, fwd);
      if k < g {
        LongerCode(f, t.Now(), k, fwd);
        fwd := 2 * fwd;
      }
      k := k + 1;
    }
  }

  lemma {:induction false} NoOffset(c: seq<nat>, low: nat)
    requires low <= |c| && forall k :: 0 <= k < low ==> c[k] == 0
    ensures Offset(c, low) == 0
  {
    if low > 0 {
      NoOffset(c, low - 1);
    }
  }

  lemma LengthDone(t: Builder, f: Plan, k: nat, fwd: nat)
    requires InLoop(t, f, k, fwd, 0)
    ensures k < f.g ==> t.At(f, k, fwd) && Building(f, t.Now(), k, fwd)
    ensures k == f.g ==> t.Shaped(f) && Popping(f, t.Now(), k, Pow2(k) - 1)
  {
    hide Building, Popping, NextCode, Patterns;
  }

  // ----- huft_build as a whole

  /** Z_OK, Z_BUF_ERROR and Z_DATA_ERROR. */
  datatype ZResult = ZOk | ZBufError | ZDataError

  /** The tables for the given lengths: every entry reached is right, and every place is filled unless a code skips a table. */
  ghost predicate Tabled(f: Plan, tables: seq<seq<Huft>>, ms: seq<Meta>, bits: nat, lens: seq<nat>, s: nat, d: seq<nat>, e: seq<nat>) {
    && f.Valid() && f.g <= BMAX && bits == f.l
    && Sound(f, Work(tables, ms, [])) && |ms| > 0 && ms[0] == Meta(0, 0, bits)
    && (AllSet(tables) <==> NoSkip(f)) && (AllSet(tables) ==> Plain(f, ms))
    && (forall n :: n in Symbols(lens) ==>
          && lens[n] <= f.g < |f.c|
          && f.IsCode(lens[n], Code(Symbols(lens), lens, f.c, n))
          && f.pay(lens[n], Code(Symbols(lens), lens, f.c, n)) == OpOf(n, s, d, e))
    && forall k, v :: f.IsCode(k, v) && f.pay(k, v) != Op(INVALID, 0) ==> exists n :: CodeFor(f, lens, n, k, v)
  }

  /** c counts the symbols of each length below the greatest, g. */
  ghost predicate CountedBelow(lens: seq<nat>, c: seq<nat>, g: nat) {
    g < |c| && forall k :: 0 <= k < g ==> c[k] == CountAt(Symbols(lens), lens, k)
  }

  /** The greatest length in use. */
  ghost predicate Longest(lens: seq<nat>, g: nat) {
    (exists n :: 0 <= n < |lens| && lens[n] == g) && forall n :: 0 <= n < |lens| ==> lens[n] <= g
  }

  /** The least length in use. */
  ghost predicate Shortest(lens: seq<nat>, low: nat) {
    && low > 0 && (exists n :: 0 <= n < |lens| && lens[n] == low)
    && forall n :: 0 <= n < |lens| && lens[n] != 0 ==> low <= lens[n]
  }

  /** The size of the first table: what was wanted, kept between the least and the greatest length, g. */
  ghost predicate Sized(lens: seq<nat>, m: nat, bits: nat, g: nat) {
    Longest(lens, g) && exists low: nat :: Shortest(lens, low) && bits == if m < low then low else if m > g then g else m
  }

  /** A counted length belongs to a symbol. */
  lemma CountedLength(c: seq<nat>, lens: seq<nat>, k: nat) returns (n: nat)
    requires Tally(c, lens, |lens|) && 1 <= k <= BMAX && k < |c| && c[k] > 0
    ensures n < |lens| && lens[n] == k
  {
    hide RankTo, Rank;
    RankToIsRank(lens, |lens|, k);
    n := Ranked(Symbols(lens), lens, k, 0, |lens|);
  }

  lemma SizedBy(c: seq<nat>, lens: seq<nat>, low: nat, g: nat, m: nat, bits: nat)
    requires Tally(c, lens, |lens|) && Bounds(c, low, g) && (forall i :: 0 <= i < |lens| ==> lens[i] <= BMAX)
    requires bits == if m < low then low else if m > g then g else m
    ensures Sized(lens, m, bits, g)
  {
    hide Tally;
    var x := CountedLength(c, lens, low);
    var y := CountedLength(c, lens, g);
    forall n | 0 <= n < |lens|
      ensures lens[n] <= g && (lens[n] != 0 ==> low <= lens[n])
    {
      LengthBound(c, lens, low, g, n);
      if lens[n] != 0 {
        LengthCounted(c, lens, n);
      }
    }
    assert Shortest(lens, low);
  }

  lemma LengthCounted(c: seq<nat>, lens: seq<nat>, n: nat)
    requires Tally(c, lens, |lens|) && n < |lens| && 1 <= lens[n] <= BMAX
    ensures lens[n] < |c| && c[lens[n]] > 0
  {
    IndexBounds(c, lens, n);
  }

  /** The code is that of symbol n. */
  ghost predicate CodeFor(f: Plan, lens: seq<nat>, n: nat, k: nat, v: nat) {
    n in Symbols(lens) && lens[n] == k <= |f.c| && Code(Symbols(lens), lens, f.c, n) == v
  }

  /** The counts once those of the missing codes are added. */
  lemma FilledCounts(c: seq<nat>, lens: seq<nat>, low: nat, g: nat, y: nat)
    requires Tally(c, lens, |lens|) && Bounds(c, low, g) && KraftTo(c[0 := 0], g, g + 1) + y == Pow2(g)
    ensures var c1 := c[0 := 0][g := c[g] + y];
            && c1[0] == 0 && c1[g] > 0 && KraftTo(c1, g, g + 1) == Pow2(g) && (forall k :: 0 <= k < low ==> c1[k] == 0)
            && c1[low] > 0
  {
    hide Tally, KraftTo, Pow2;
    TallySize(c, lens);
    KraftFilled(c[0 := 0], g, y);
  }

  lemma KraftFilled(c: seq<nat>, g: nat, y: nat)
    requires g < |c| && KraftTo(c, g, g + 1) + y == Pow2(g)
    ensures KraftTo(c[g := c[g] + y], g, g + 1) == Pow2(g)
  {
    hide KraftTo, Pow2;
    KraftToSet(c, g, g + 1, g, c[g] + y);
    PowNone();
  }

  /** Changing the count of the greatest length leaves the codes of the symbols as they are. */
  lemma {:induction false} SameBelowMax(c: seq<nat>, c1: seq<nat>, k: nat)
    requires k <= |c| && |c1| == |c| && forall n :: 0 <= n < k ==> c[n] == c1[n]
    ensures NextCode(c, k) == NextCode(c1, k) && Offset(c, k) == Offset(c1, k)
  {
    if k > 0 {
      SameBelowMax(c, c1, k - 1);
    }
  }

  /** Each symbol's code is in the plan and stands for the symbol. */
  lemma SymbolsCoded(f: Plan, c: seq<nat>, lens: seq<nat>, vals: seq<nat>, s: nat, d: seq<nat>, e: seq<nat>, low: nat, n: nat)
    requires Tally(c, lens, |lens|) && Bounds(c, low, f.g) && |f.c| == |c| && f.c[f.g] >= c[f.g]
    requires forall k :: 0 <= k <= BMAX && k != f.g ==> f.c[k] == c[0 := 0][k]
    requires f == PlanFor(f.c, f.g, f.l, vals, s, d, e) && Listed(vals, c[0 := 0], lens, |lens|)
    requires n < |lens| && 1 <= lens[n] <= f.g
    ensures f.IsCode(lens[n], Code(Symbols(lens), lens, f.c, n))
    ensures f.pay(lens[n], Code(Symbols(lens), lens, f.c, n)) == OpOf(n, s, d, e)
  {
    var k := lens[n];
    IndexBounds(c, lens, n);
    RankToIsRank(lens, n, k);
    SameBelowMax(c[0 := 0], f.c, k);
    hide Offset, NextCode, RankTo, Rank, Tally;
    assert IndexOf(c[0 := 0], lens, n) == Offset(f.c, k) + RankTo(lens, n, k);
    Coding(f, k, Code(Symbols(lens), lens, f.c, n), vals, s, d, e);
  }

  /** And each code of the plan stands for a symbol or for nothing. */
  lemma CodesSymbols(f: Plan, c: seq<nat>, lens: seq<nat>, vals: seq<nat>, s: nat, d: seq<nat>, e: seq<nat>, low: nat, k: nat, v: nat)
    returns (n: nat)
    requires Tally(c, lens, |lens|) && Bounds(c, low, f.g) && |f.c| == |c|
    requires forall k :: 0 <= k <= BMAX && k != f.g ==> f.c[k] == c[0 := 0][k]
    requires f == PlanFor(f.c, f.g, f.l, vals, s, d, e) && |vals| == |Symbols(lens)|
    requires forall i :: 0 <= i < |lens| ==> lens[i] <= f.g
    requires f.IsCode(k, v) && f.pay(k, v) != Op(INVALID, 0)
    ensures CodeFor(f, lens, n, k, v)
  {
    hide Offset, NextCode, RankTo, Rank, Tally, Symbols, Total;
    TallySize(c, lens);
    SameBelowMax(c[0 := 0], f.c, k);
    Coding(f, k, v, vals, s, d, e);
    ListFits(c, lens, low, f.g);
    var r := v - NextCode(f.c, k);
    CountOf(c, lens, k);
    RankToIsRank(lens, |lens|, k);
    n := Ranked(Symbols(lens), lens, k, r, |lens|);
    SymbolsInside(lens);
  }

  lemma CountOf(c: seq<nat>, lens: seq<nat>, k: nat)
    requires Tally(c, lens, |lens|) && 1 <= k <= BMAX
    ensures k < |c| && c[k] == RankTo(lens, |lens|, k)
  {
  }

  /** What the lengths say at the greatest of them they say at BMAX. */
  lemma KraftAtMax(c: seq<nat>, lens: seq<nat>, low: nat, g: nat)
    requires Tally(c, lens, |lens|) && Bounds(c, low, g) && forall i :: 0 <= i < |lens| ==> lens[i] <= BMAX
    ensures forall i :: 0 <= i < |lens| ==> lens[i] <= g
    ensures KraftTo(c[0 := 0], g, g + 1) > Pow2(g) <==> Kraft(Symbols(lens), lens, BMAX) > Pow2(BMAX)
    ensures KraftTo(c[0 := 0], g, g + 1) == Pow2(g) <==> Kraft(Symbols(lens), lens, BMAX) == Pow2(BMAX)
  {
    hide Kraft, KraftTo, Pow2, Symbols, Counts, Total, Tally;
    TallyCounts(c, lens);
    TallySize(c, lens);
    SymbolsInside(lens);
    forall i | 0 <= i < |lens|
      ensures lens[i] <= g
    {
      LengthBound(c, lens, low, g, i);
    }
    KraftByCounts(Symbols(lens), lens, c[0 := 0], g);
    KraftScaled(Symbols(lens), lens, g, BMAX);
    Pow2Add(BMAX - g, g);
    Scaled(Kraft(Symbols(lens), lens, g), Pow2(g), Pow2(BMAX - g));
  }

  lemma SymbolsInside(lens: seq<nat>)
    ensures forall i :: i in Symbols(lens) ==> i < |lens|
  {
  }

  lemma Scaled(x: nat, y: nat, q: nat)
    requires q > 0
    ensures (q * x > q * y <==> x > y) && (q * x == q * y <==> x == y)
  {
    if x > y { MulLess(y, x, q); }
    if x < y { MulLess(x, y, q); }
  }

  lemma LengthBound(c: seq<nat>, lens: seq<nat>, low: nat, g: nat, i: nat)
    requires Tally(c, lens, |lens|) && Bounds(c, low, g) && i < |lens| && lens[i] <= BMAX
    ensures lens[i] <= g
  {
    if lens[i] > 0 {
      IndexBounds(c, lens, i);
    }
  }

  method LengthBounds(b: array<nat>, c: array<nat>) returns (low: nat, g: nat)
    requires c.Length == BMAX + 1 && Tally(c[..], b[..], b.Length) && c[0] != b.Length
    requires forall i :: 0 <= i < b.Length ==> b[i] <= BMAX
    ensures Bounds(c[..], low, g)
  {
    hide Tally, Bounds;
    ghost var c0 := c[..][0 := 0];
    TallyCounts(c[..], b[..]);
    SetNotEmpty(Symbols(b[..]));
    ghost var k := SomeLength(c0, BMAX + 1);
    low, g := FindBounds(c, k);
  }

  lemma SetNotEmpty(a: set<nat>)
    ensures a != {} ==> |a| > 0
  {
  }

  /** The part of huft_build after the check; y codes are missing. */
  method BuildTables(b: array<nat>, c: array<nat>, low: nat, g: nat, y: nat, l: nat, s: nat, d: seq<nat>, e: seq<nat>)
    returns (tables: seq<seq<Huft>>, ghost f: Plan, ghost ms: seq<Meta>)
    requires 1 <= b.Length <= N_MAX && b != c && (forall i :: 0 <= i < b.Length ==> b[i] <= g)
    requires b.Length > s ==> b.Length - s <= |d| && b.Length - s <= |e|
    requires c.Length == BMAX + 1 && Tally(c[..], b[..], b.Length) && Bounds(c[..], low, g) && low <= l <= g <= BMAX
    requires KraftTo(c[..][0 := 0], g, g + 1) + y == Pow2(g)
    modifies c
    ensures Tabled(f, tables, ms, l, b[..], s, d, e) && f.g == g && f.c == old(c[..])[0 := 0][g := old(c[g]) + y]
  {
    hide Tally, Bounds, Symbols, Kraft, KraftTo, Pow2, Listed, Tabled, Plan.Valid, Offset, Popping, Building, Patterns;
    ghost var lens, c0 := b[..], c[..];
    FilledCounts(c0, lens, low, g, y);
    BoundsAre(c0, low, g);
    c[g] := c[g] + y;
    ghost var c1: seq<nat> := c0[0 := 0][g := c0[g] + y];
    assert c[..][0 := 0] == c1;
    var x := Offsets(c, g);
    OffsetsSame(c0[0 := 0], c1, g);
    var v := new nat[N_MAX](i => 0);
    var n := ListValues(b, x, v, g, c0, low);
    f := PlanFor(c1, g, l, v[..n], s, d, e);
    PlanValid(c1, g, l, v[..n], s, d, e);
    ValuesInside(v[..n], c0, lens, low, g);
    var t := new Builder(c, x, l);
    EmptyBuilding(f, low);
    ZeroReversed(low);
    StartAt(t, f, low);
    AllLengths(t, v, n, low, l, g, s, d, e, f);
    tables, ms := t.tables, t.ms;
    FinishTables(t, f, c0, lens, v[..n], s, d, e, low);
  }

  /** huft_build: tables for the code lengths in b; m is the size wanted for the first table, bits the actual one. */
  method HuftBuild(b: array<nat>, s: nat, d: seq<nat>, e: seq<nat>, m: nat)
    returns (r: ZResult, bits: nat, tables: seq<seq<Huft>>, ghost f: Plan, ghost ms: seq<Meta>)
    requires 1 <= b.Length <= N_MAX && (forall i :: 0 <= i < b.Length ==> b[i] <= BMAX)
    requires b.Length > s ==> b.Length - s <= |d| && b.Length - s <= |e|
    ensures Symbols(b[..]) == {} ==> r.ZOk? && bits == 0 && tables == []
    ensures Symbols(b[..]) != {} ==> (r.ZDataError? <==> Kraft(Symbols(b[..]), b[..], BMAX) > Pow2(BMAX))
    ensures Symbols(b[..]) != {} && !r.ZDataError? ==>
              && Tabled(f, tables, ms, bits, b[..], s, d, e)
              && (r.ZOk? <==> Kraft(Symbols(b[..]), b[..], BMAX) == Pow2(BMAX) || f.g == 1)
              && Sized(b[..], m, bits, f.g)
              && (Kraft(Symbols(b[..]), b[..], BMAX) == Pow2(BMAX) ==> Counts(Symbols(b[..]), b[..], f.c))
              && CountedBelow(b[..], f.c, f.g)
  {
    hide Tally, Bounds, Symbols, Kraft, KraftTo, Pow2, Listed, Tabled, Counts, CountedBelow, Sized, Plan.Valid, Offset, Popping,
      Building, Patterns;
    tables, ms := [], [];
    f := PlanFor([], 0, 0, [], s, d, e);
    ghost var lens := b[..];
    var c := CountLengths(b);
    ghost var c0 := c[..];
    TallyCounts(c0, lens);
    TallySize(c0, lens);
    if c[0] == b.Length {
      return ZOk, 0, tables, f, ms;
    }
    var low, g := LengthBounds(b, c);
    BoundsAre(c0, low, g);
    bits := if m < low then low else if m > g then g else m;
    KraftAtMax(c0, lens, low, g);
    SizedBy(c0, lens, low, g, m, bits);
    var over, y := Missing(c, low, g);
    if over {
      return ZDataError, bits, tables, f, ms;
    }
    tables, f, ms := BuildTables(b, c, low, g, y, bits, s, d, e);
    MissingNone(c0, lens, low, g, y, f.c);
    r := if y != 0 && g != 1 then ZBufError else ZOk;
  }

  lemma BoundsAre(c: seq<nat>, low: nat, g: nat)
    requires Bounds(c, low, g)
    ensures 1 <= low <= g <= BMAX < |c|
  {
  }

  lemma OffsetsSame(c: seq<nat>, c1: seq<nat>, g: nat)
    requires g < |c| == |c1| && forall n :: 0 <= n < g ==> c[n] == c1[n]
    ensures forall k :: 1 <= k <= g ==> Offset(c1, k) == Offset(c, k)
  {
    hide Offset;
    forall k | 1 <= k <= g
      ensures Offset(c1, k) == Offset(c, k)
    {
      SameBelowMax(c, c1, k);
    }
  }

  lemma {:induction false} LengthAt(c: seq<nat>, idx: nat, n: nat) returns (k: nat)
    requires n <= |c| && idx < Total(c, n)
    ensures k < n && Offset(c, k) <= idx < Offset(c, k) + c[k]
  {
    if idx < Total(c, n - 1) {
      k := LengthAt(c, idx, n - 1);
    } else {
      k := n - 1;
    }
  }

  /** Every place in the list belongs to a symbol. */
  lemma SymbolAt(c: seq<nat>, lens: seq<nat>, idx: nat) returns (n: nat)
    requires Tally(c, lens, |lens|) && idx < Total(c[0 := 0], BMAX + 1)
    ensures n < |lens| && 1 <= lens[n] <= BMAX && IndexOf(c[0 := 0], lens, n) == idx
  {
    hide Total, Offset, RankTo, Rank;
    var k := LengthAt(c[0 := 0], idx, BMAX + 1);
    RankToIsRank(lens, |lens|, k);
    n := Ranked(Symbols(lens), lens, k, idx - Offset(c[0 := 0], k), |lens|);
    RankToIsRank(lens, n, k);
  }

  /** So the list holds symbols only. */
  lemma ValuesInside(vals: seq<nat>, c: seq<nat>, lens: seq<nat>, low: nat, g: nat)
    requires Tally(c, lens, |lens|) && Bounds(c, low, g) && Listed(vals, c[0 := 0], lens, |lens|)
    requires (forall i :: 0 <= i < |lens| ==> lens[i] <= g) && |vals| == |Symbols(lens)|
    ensures forall i :: 0 <= i < |vals| ==> vals[i] < |lens|
  {
    hide Total, Offset, RankTo, Symbols;
    ListFits(c, lens, low, g);
    forall i | 0 <= i < |vals|
      ensures vals[i] < |lens|
    {
      var n := SymbolAt(c, lens, i);
    }
  }

  lemma StartAt(t: Builder, f: Plan, low: nat)
    requires t.c.Length == t.x.Length == BMAX + 1 && t.u.Length == BMAX && t.c != t.u && t.c != t.x && t.u != t.x
    requires t.tables == [] && t.ms == [] && t.h == -1 && t.w == 0 - f.l && t.i == 0 && t.x[0] == 0
    requires f.c == t.c[..][0 := 0] && f.g <= BMAX && low >= 1
    requires Building(f, Work([], [], []), low, 0) && Reversed(0, low) == 0
    ensures t.At(f, low, 0)
  {
    hide Building, Reversed;
    assert t.Now() == Work([], [], []);
  }

  lemma FinishTables(t: Builder, f: Plan, c: seq<nat>, lens: seq<nat>, vals: seq<nat>, s: nat, d: seq<nat>, e: seq<nat>, low: nat)
    requires t.Shaped(f) && Popping(f, t.Now(), f.g, Pow2(f.g) - 1)
    requires Tally(c, lens, |lens|) && Bounds(c, low, f.g) && |f.c| == |c| && f.c[f.g] >= c[f.g]
    requires forall k :: 0 <= k <= BMAX && k != f.g ==> f.c[k] == c[0 := 0][k]
    requires f == PlanFor(f.c, f.g, f.l, vals, s, d, e) && Listed(vals, c[0 := 0], lens, |lens|)
    requires (forall i :: 0 <= i < |lens| ==> lens[i] <= f.g) && |vals| == |Symbols(lens)|
    ensures Tabled(f, t.tables, t.ms, f.l, lens, s, d, e)
  {
    hide Tally, Bounds, Listed, Building, NextCode, Patterns, Offset, Rank, Pow2, AllSet, NoSkip, Way, OffWay, Covered, Popping,
      Plan.IsCode, Code, PlanFor, CodeFor, Kraft, KraftTo;
    TablesComplete(f, t.Now(), f.g, Pow2(f.g) - 1);
    FirstTable(f, t.Now(), f.g, Pow2(f.g) - 1);
    forall n | n in Symbols(lens)
      ensures f.IsCode(lens[n], Code(Symbols(lens), lens, f.c, n))
      ensures f.pay(lens[n], Code(Symbols(lens), lens, f.c, n)) == OpOf(n, s, d, e)
    {
      SymbolsCoded(f, c, lens, vals, s, d, e, low, n);
    }
    forall k: nat, v: nat | f.IsCode(k, v) && f.pay(k, v) != Op(INVALID, 0)
      ensures exists n :: CodeFor(f, lens, n, k, v)
    {
      var n := CodesSymbols(f, c, lens, vals, s, d, e, low, k, v);
    }
    FinishedParts(f, t.Now(), f.g, Pow2(f.g) - 1);
  }

  lemma FirstTable(f: Plan, s: Work, k: nat, fwd: nat)
    requires Popping(f, s, k, fwd) && fwd < Pow2(k)
    ensures |s.ms| > 0 && s.ms[0] == Meta(0, 0, f.l)
  {
    hide Sound, OffWay, Covered, NoSkipBefore, Linked, Enough, Plan.IsCode, High;
    assert OnWay(f, s, 0, k, fwd);
    HighBelow(fwd, k, 0);
    PowNone();
  }

  lemma FinishedParts(f: Plan, s: Work, k: nat, fwd: nat)
    requires Popping(f, s, k, fwd)
    ensures f.Valid() && Sound(f, Work(s.ts, s.ms, []))
  {
    hide Way, OffWay, Covered, NoSkipBefore, Plan.IsCode, TableSound, Begun;
  }

  lemma MissingNone(c: seq<nat>, lens: seq<nat>, low: nat, g: nat, y: nat, c1: seq<nat>)
    requires Tally(c, lens, |lens|) && Bounds(c, low, g) && KraftTo(c[0 := 0], g, g + 1) + y == Pow2(g)
    requires c1 == c[0 := 0][g := c[g] + y] && forall i :: 0 <= i < |lens| ==> lens[i] <= BMAX
    ensures y == 0 <==> KraftTo(c[0 := 0], g, g + 1) == Pow2(g)
    ensures y == 0 ==> Counts(Symbols(lens), lens, c1)
    ensures CountedBelow(lens, c1, g)
  {
    TallyCounts(c, lens);
    hide Tally, KraftTo, Pow2, Kraft, Total, Symbols, CountAt;
    TallySize(c, lens);
    if y == 0 {
      assert c1 == c[0 := 0];
    }
  }
}
