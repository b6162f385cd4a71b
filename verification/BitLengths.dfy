/**
 gen_bitlen: the lengths of the codes from the forest, kept within the maximum, and the
 running totals of bits.
 */
module BitLengths {
  import opened Options
  import opened Bits
  import opened Sums
  import opened HuffmanTheory
  import opened HuffmanRuns
  import opened TreeMerging
  import opened TreeLengths
  import opened LengthRepair
  import opened DeflateState
  import opened TreeBuilder

  /** What the totals have grown by when the leaves in b have been passed. */
  ghost predicate Totalled(s: State, t: Tree, b: set<nat>, l: seq<nat>, opt0: int, static0: int)
    requires |l| == t.fc.Length == t.desc.Size()
    reads s, t.fc
  {
    && s.optLen == opt0 + SizeOf(b, t.fc[..], l, t.desc.Extras())
    && s.staticLen == static0 + StaticSize(t.desc, b, t.fc[..])
  }

  /** The size with the static tree, if there is one. */
  function StaticSize(desc: StaticDesc, b: set<nat>, f: seq<nat>): nat
    requires |f| == desc.Size()
  {
    if desc.lengths.Some? then SizeOf(b, f, desc.Statics(), desc.Extras()) else 0
  }

  lemma TotalsGrow(desc: StaticDesc, b: set<nat>, f: seq<nat>, l: seq<nat>, n: nat)
    requires |f| == |l| == desc.Size() && n !in b && n < desc.Size()
    ensures SizeOf(b + {n}, f, l, desc.Extras()) == SizeOf(b, f, l, desc.Extras()) + f[n] * (l[n] + desc.ExtraOf(n))
    ensures StaticSize(desc, b + {n}, f)
         == StaticSize(desc, b, f) + (if desc.lengths.Some? then f[n] * (desc.StaticOf(n) + desc.ExtraOf(n)) else 0)
  {
    SizeGrows(b, f, l, desc.Extras(), n);
    SizeGrows(b, f, desc.Statics(), desc.Extras(), n);
  }

  /** The state of the first pass when ranks p and above are done; l are the depths cut off at the maximum. */
  ghost predicate Pass(s: State, t: Tree, a: set<nat>, merges: seq<Merge>, d: seq<nat>, p: nat, opt0: int, static0: int)
    reads s, s.blCount, t.fc, t.dl
  {
    && Apart(s, t) && p <= 2 * |merges| && |d| == t.desc.Size()
    && Passed(merges, t.desc.elems, d, t.desc.maxLength, t.dl[..], p)
    && Counts(LeavesFrom(a, merges, p), Cut(d, t.desc.maxLength), s.blCount[..])
    && Totalled(s, t, LeavesFrom(a, merges, p), Cut(d, t.desc.maxLength), opt0, static0)
  }

  /** Code symbol n with `bits` bits: one more code of that length, and its size added to the totals. */
  method CountLeaf(s: State, t: Tree, n: nat, bits: nat, ghost b: set<nat>, ghost l: seq<nat>,
                   ghost opt0: int, ghost static0: int)
    requires Apart(s, t) && |l| == t.desc.Size() && n < t.desc.elems && n !in b && l[n] == bits <= t.desc.maxLength
    requires Counts(b, l, s.blCount[..]) && Totalled(s, t, b, l, opt0, static0)
    modifies s`optLen, s`staticLen, s.blCount
    ensures Counts(b + {n}, l, s.blCount[..]) && Totalled(s, t, b + {n}, l, opt0, static0)
  {
    hide Counts, SizeOf, StaticSize;
    CountsGrow(b, l, s.blCount[..], n);
    TotalsGrow(t.desc, b, t.fc[..], l, n);
    ghost var c := s.blCount[..];
    s.blCount[bits] := s.blCount[bits] + 1;
    assert s.blCount[..] == c[bits := c[bits] + 1];
    var xbits: nat := 0;
    if n >= t.desc.base {
      xbits := t.desc.extra[n - t.desc.base];
    }
    var f := t.fc[n];
    s.optLen := s.optLen + f * (bits + xbits);
    if t.desc.lengths.Some? {
      s.staticLen := s.staticLen + f * (t.desc.lengths.value[n] + xbits);
    }
  }

  /** One node of the first pass. */
  method PassOne(s: State, t: Tree, h: nat, overflow: nat, ghost a: set<nat>, ghost merges: seq<Merge>,
                 ghost d: seq<nat>, ghost p: nat, ghost opt0: int, ghost static0: int) returns (overflow': nat)
    requires Pass(s, t, a, merges, d, p + 1, opt0, static0) && p < 2 * |merges| && h == HEAP_SIZE - 1 - p
    requires HuffmanRun(a, t.fc[..], merges, t.desc.elems) && RunTo(a, t.fc[..], merges, t.desc.elems)
    requires Depths(d, merges, t.desc.elems) && s.heap[h] == Son(merges, p) && Greatest(a, t.maxCode)
    requires overflow == Overlong(merges, d, t.desc.maxLength, p + 1)
    modifies s`optLen, s`staticLen, s.blCount, t.dl
    ensures Pass(s, t, a, merges, d, p, opt0, static0)
    ensures overflow' == Overlong(merges, d, t.desc.maxLength, p)
    ensures Son(merges, p) < |d| && t.dl[..] == old(t.dl[..])[Son(merges, p) := t.dl[Son(merges, p)]]
  {
    hide HuffmanRun, RunTo, Depths, Passed, Son, Counts, Totalled, LeavesFrom, LeavesTo, Greatest, Cut;
    ghost var l := t.dl[..];
    FatherPassed(a, t.fc[..], merges, t.desc.elems, d, t.desc.maxLength, l, p);
    PassStep(a, t.fc[..], merges, t.desc.elems, d, t.desc.maxLength, l, p);
    NextLeaf(a, t.fc[..], merges, t.desc.elems, p);
    OverlongNext(merges, t.desc.elems, d, t.desc.maxLength, l, p);
    LeafTest(a, t.fc[..], merges, t.desc.elems, p, t.maxCode);
    CutAt(d, t.desc.maxLength, Son(merges, p));
    var n: nat := s.heap[h];
    var bits: nat := t.dl[t.dl[n]] + 1;
    overflow' := overflow;
    if bits > t.desc.maxLength {
      bits := t.desc.maxLength;
      overflow' := overflow + 1;
    }
    t.dl[n] := bits;
    assert t.dl[..] == l[n := bits];
    if n <= t.maxCode {
      CountLeaf(s, t, n, bits, LeavesFrom(a, merges, p + 1), Cut(d, t.desc.maxLength), opt0, static0);
    }
  }

  lemma CutAt(d: seq<nat>, max: nat, n: nat)
    requires n < |d|
    ensures Cut(d, max)[n] == Min(d[n], max)
  {
  }

  /** The test of the code for leaves. */
  lemma LeafTest(a: set<nat>, w: seq<nat>, merges: seq<Merge>, first: nat, p: nat, maxCode: int)
    requires RunTo(a, w, merges, first) && p < 2 * |merges| && Greatest(a, maxCode)
    ensures Son(merges, p) in a <==> Son(merges, p) <= maxCode
    ensures Son(merges, p) in a ==> Son(merges, p) < first
  {
    hide RunTo;
    SonKind(a, w, merges, first, p);
    LeafBound(a, w, merges, first);
  }

  lemma OverlongNext(merges: seq<Merge>, first: nat, d: seq<nat>, max: nat, dl: seq<nat>, p: nat)
    requires Passed(merges, first, d, max, dl, p + 1) && p < 2 * |merges|
    ensures forall q :: 0 <= q < 2 * |merges| ==> Son(merges, q) < |d|
    ensures Overlong(merges, d, max, p) == Overlong(merges, d, max, p + 1) + (if d[Son(merges, p)] > max then 1 else 0)
  {
    hide Son;
  }

  /** Symbols without a code keep length 0. */
  ghost predicate OthersZero(t: Tree, a: set<nat>)
    requires t.dl.Length >= t.desc.elems
    reads t.dl
  {
    ZeroOutside(t.dl[..], a, t.desc.elems)
  }

  /** What both passes need to know of the forest. */
  ghost predicate Forested(s: State, t: Tree, a: set<nat>, merges: seq<Merge>, d: seq<nat>)
    reads s, s.heap, t, t.fc
  {
    && Apart(s, t) && HuffmanRun(a, t.fc[..], merges, t.desc.elems) && RunTo(a, t.fc[..], merges, t.desc.elems)
    && |merges| + 1 == |a| <= t.desc.elems && |d| == t.desc.Size() && Depths(d, merges, t.desc.elems)
    && Ordered(s.heap[..], merges) && Greatest(a, t.maxCode)
  }

  lemma PassStart(s: State, t: Tree, a: set<nat>, merges: seq<Merge>, d: seq<nat>)
    requires Forested(s, t, a, merges, d) && Fathered(t.dl[..], merges, t.desc.elems)
    requires t.dl[t.desc.elems + |merges| - 1] == 0 && s.blCount[..] == seq(MAX_BITS + 1, i => 0)
    ensures Pass(s, t, a, merges, d, 2 * |merges|, s.optLen, s.staticLen)
  {
    hide *;
    ForestParts(s, t, a, merges, d);
    PassedNone(a, t.fc[..], merges, t.desc.elems, d, t.desc.maxLength, t.dl[..]);
    NothingCounted(Cut(d, t.desc.maxLength), s.blCount[..]);
    NothingTotalled(t.desc, t.fc[..], Cut(d, t.desc.maxLength));
    NoLeavesYet(a, merges);
    PassIntro(s, t, a, merges, d);
  }

  lemma ForestParts(s: State, t: Tree, a: set<nat>, merges: seq<Merge>, d: seq<nat>)
    requires Forested(s, t, a, merges, d)
    ensures Apart(s, t) && HuffmanRun(a, t.fc[..], merges, t.desc.elems) && s.blCount.Length == 16
    ensures |d| == t.desc.Size() == |t.fc[..]| == |t.dl[..]| == |Cut(d, t.desc.maxLength)|
    ensures 1 <= t.desc.elems + |merges| <= |t.dl[..]|
  {
    hide HuffmanRun, RunTo, Depths, Ordered;
  }

  lemma PassIntro(s: State, t: Tree, a: set<nat>, merges: seq<Merge>, d: seq<nat>)
    requires Apart(s, t) && |d| == t.desc.Size() && LeavesFrom(a, merges, 2 * |merges|) == {}
    requires Passed(merges, t.desc.elems, d, t.desc.maxLength, t.dl[..], 2 * |merges|)
    requires Counts({}, Cut(d, t.desc.maxLength), s.blCount[..])
    requires SizeOf({}, t.fc[..], Cut(d, t.desc.maxLength), t.desc.Extras()) == 0 && StaticSize(t.desc, {}, t.fc[..]) == 0
    ensures Pass(s, t, a, merges, d, 2 * |merges|, s.optLen, s.staticLen)
  {
    hide Passed, Counts, LeavesFrom, SizeOf, StaticSize, Cut;
  }

  lemma NoLeavesYet(a: set<nat>, merges: seq<Merge>)
    ensures LeavesFrom(a, merges, 2 * |merges|) == {}
  {
  }

  lemma PassedNone(a: set<nat>, w: seq<nat>, merges: seq<Merge>, first: nat, d: seq<nat>, max: nat, dl: seq<nat>)
    requires HuffmanRun(a, w, merges, first) && |w| == |d| == |dl| && Fathered(dl, merges, first)
    requires first + |merges| >= 1 && first + |merges| <= |dl| && dl[first + |merges| - 1] == 0
    ensures Passed(merges, first, d, max, dl, 2 * |merges|)
  {
    RunFinished(a, w, merges, first);
    hide HuffmanRun, RunTo, Son;
  }

  lemma NothingCounted(l: seq<nat>, c: seq<nat>)
    requires c == seq(MAX_BITS + 1, i => 0)
    ensures Counts({}, l, c)
  {
    forall b | 0 <= b < |c|
      ensures CountAt({}, l, b) == 0
    {
      EmptySum(IsLength(l, b), |l|);
    }
  }

  lemma NothingTotalled(desc: StaticDesc, f: seq<nat>, l: seq<nat>)
    requires |f| == |l| == desc.Size()
    ensures SizeOf({}, f, l, desc.Extras()) == 0 && StaticSize(desc, {}, f) == 0
  {
    EmptySum(Sizes(f, l, desc.Extras()), |f|);
    EmptySum(Sizes(f, desc.Statics(), desc.Extras()), |f|);
  }

  lemma RootIsNoSon(a: set<nat>, w: seq<nat>, merges: seq<Merge>, first: nat, dl: seq<nat>)
    requires RunTo(a, w, merges, first) && |merges| >= 1 && Fathered(dl, merges, first)
    requires first + |merges| <= |dl| == |w|
    ensures Fathered(dl[first + |merges| - 1 := 0], merges, first)
  {
    hide RunTo, Son;
    forall q | 0 <= q < 2 * |merges|
      ensures Son(merges, q) < |dl| && dl[first + |merges| - 1 := 0][Son(merges, q)] == first + q / 2
    {
      SonKind(a, w, merges, first, q);
      assert q / 2 <= |merges| - 1;
    }
  }

  lemma BuiltForested(s: State, t: Tree, a: set<nat>, merges: seq<Merge>) returns (d: seq<nat>)
    requires Built(s, t, a, merges)
    ensures Forested(s, t, a, merges, d) && Fathered(t.dl[..], merges, t.desc.elems) && OthersZero(t, a) && |merges| >= 1
    ensures s.heapMax == HEAP_SIZE - 2 * |merges| - 1 && s.heap[s.heapMax] == t.desc.elems + |merges| - 1 < t.desc.Size()
  {
    RunFinished(a, t.fc[..], merges, t.desc.elems);
    d := DepthsOf(a, t.fc[..], merges, t.desc.elems);
    hide HuffmanRun, RunTo, Depths, Ordered, Fathered, Greatest;
  }

  /** The first pass: each node one below its father, cut off at the maximum. */
  method FirstPass(s: State, t: Tree, ghost a: set<nat>, ghost merges: seq<Merge>, ghost d: seq<nat>) returns (overflow: nat)
    requires Forested(s, t, a, merges, d) && Fathered(t.dl[..], merges, t.desc.elems) && OthersZero(t, a) && |merges| >= 1
    requires s.heapMax == HEAP_SIZE - 2 * |merges| - 1 && s.heap[s.heapMax] == t.desc.elems + |merges| - 1 < t.desc.Size()
    modifies s`optLen, s`staticLen, s.blCount, t.dl
    ensures Pass(s, t, a, merges, d, 0, old(s.optLen), old(s.staticLen)) && OthersZero(t, a)
    ensures overflow == Overlong(merges, d, t.desc.maxLength, 0)
  {
    hide HuffmanRun, RunTo, Depths, Greatest, Fathered, Pass, Overlong, Ordered;
    ghost var opt0, static0, l := s.optLen, s.staticLen, t.dl[..];
    ClearCounts(s);
    RootIsNoSon(a, t.fc[..], merges, t.desc.elems, l);
    t.dl[s.heap[s.heapMax]] := 0;
    assert t.dl[..] == l[t.desc.elems + |merges| - 1 := 0];
    overflow := 0;
    PassStart(s, t, a, merges, d);
    NoOverlong(s, t, a, merges, d);
    var h: nat := s.heapMax + 1;
    while h < HEAP_SIZE
      invariant HEAP_SIZE - 2 * |merges| <= h <= HEAP_SIZE
      invariant Forested(s, t, a, merges, d)
      invariant Pass(s, t, a, merges, d, HEAP_SIZE - h, opt0, static0) && OthersZero(t, a) && Indexed(merges, d)
      invariant overflow == Overlong(merges, d, t.desc.maxLength, HEAP_SIZE - h)
    {
      ghost var p := HEAP_SIZE - h - 1;
      RankAt(s.heap[..], merges, p);
      SonKind(a, t.fc[..], merges, t.desc.elems, p);
      overflow := PassOne(s, t, h, overflow, a, merges, d, p, opt0, static0);
      h := h + 1;
    }
  }

  ghost predicate Indexed(merges: seq<Merge>, d: seq<nat>) {
    forall q :: 0 <= q < 2 * |merges| ==> Son(merges, q) < |d|
  }

  lemma NoOverlong(s: State, t: Tree, a: set<nat>, merges: seq<Merge>, d: seq<nat>)
    requires Pass(s, t, a, merges, d, 2 * |merges|, s.optLen, s.staticLen)
    ensures Indexed(merges, d) && Overlong(merges, d, t.desc.maxLength, 2 * |merges|) == 0
  {
    hide Counts, Totalled;
  }

  lemma RankAt(heap: seq<nat>, merges: seq<Merge>, p: nat)
    requires Ordered(heap, merges) && p < 2 * |merges|
    ensures heap[HEAP_SIZE - 1 - p] == Son(merges, p)
  {
  }

  method ClearCounts(s: State)
    requires s.Shaped()
    modifies s.blCount
    ensures s.blCount[..] == seq(MAX_BITS + 1, i => 0)
  {
    var bits := 0;
    while bits <= MAX_BITS
      invariant bits <= MAX_BITS + 1 && forall i :: 0 <= i < bits ==> s.blCount[i] == 0
    {
      s.blCount[bits] := 0;
      bits := bits + 1;
    }
  }

  // ----- the second pass

  ghost predicate Redeal(s: State, t: Tree, a: set<nat>, merges: seq<Merge>, p: nat, bits: nat, n: nat, opt0: int)
    reads s, s.blCount, t.fc, t.dl
  {
    && Apart(s, t) && OthersZero(t, a) && (forall x :: x in a ==> x < t.desc.elems)
    && Redealt(a, merges, s.blCount[..], t.desc.maxLength, t.dl[..], p, bits, n)
    && s.optLen == opt0 + SizeOf(a, t.fc[..], t.dl[..], t.desc.Extras())
  }

  /** The next node up the stack, if a leaf, gets the length bits. */
  method DealOne(s: State, t: Tree, m: nat, bits: nat, n: nat, ghost a: set<nat>, ghost merges: seq<Merge>,
                 ghost p: nat, ghost opt0: int) returns (n': nat)
    requires Redeal(s, t, a, merges, p, bits, n, opt0) && RunTo(a, t.fc[..], merges, t.desc.elems)
    requires p < 2 * |merges| && m == Son(merges, p) && n > 0 && Greatest(a, t.maxCode)
    modifies s`optLen, t.dl
    ensures Redeal(s, t, a, merges, p + 1, bits, n', opt0)
    ensures n' == if m in a then n - 1 else n
  {
    hide RunTo, Redealt, SizeOf, Greatest, Son;
    LeafTest(a, t.fc[..], merges, t.desc.elems, p, t.maxCode);
    ghost var l := t.dl[..];
    if m > t.maxCode {
      DealSkip(a, t.fc[..], merges, t.desc.elems, s.blCount[..], t.desc.maxLength, l, p, bits, n);
      return n;
    }
    DealStep(a, t.fc[..], merges, t.desc.elems, s.blCount[..], t.desc.maxLength, l, p, bits, n);
    SizeChanges(a, t.fc[..], l, t.desc.Extras(), m, bits);
    if t.dl[m] != bits {
      s.optLen := s.optLen + (bits - t.dl[m]) * t.fc[m];
      t.dl[m] := bits;
    }
    assert t.dl[..] == l[m := bits];
    n' := n - 1;
  }

  /** All lengths dealt out anew, the longest to the least frequent. */
  method SecondPass(s: State, t: Tree, ghost a: set<nat>, ghost merges: seq<Merge>, ghost d: seq<nat>, ghost opt0: int)
    requires Forested(s, t, a, merges, d) && OthersZero(t, a)
    requires Overspent(s.blCount[..], t.desc.maxLength, 0) && Total(s.blCount[..], t.desc.maxLength + 1) == |a|
    requires forall b :: t.desc.maxLength < b <= MAX_BITS ==> s.blCount[b] == 0
    requires s.optLen == opt0 + SizeOf(a, t.fc[..], t.dl[..], t.desc.Extras())
    modifies s`optLen, t.dl
    ensures Reassigned(a, merges, s.blCount[..], t.desc.maxLength, t.dl[..]) && OthersZero(t, a)
    ensures s.optLen == opt0 + SizeOf(a, t.fc[..], t.dl[..], t.desc.Extras())
  {
    hide HuffmanRun, RunTo, Depths, Greatest, Ordered, SizeOf, Total, Redealt, Reassigned;
    ghost var c := s.blCount[..];
    ghost var max := t.desc.maxLength;
    LeafBound(a, t.fc[..], merges, t.desc.elems);
    DealStart(a, merges, c, max, t.dl[..]);
    var h: nat := HEAP_SIZE;
    var bits: nat := t.desc.maxLength;
    while bits != 0
      invariant bits <= max && h <= HEAP_SIZE && c == s.blCount[..] && Forested(s, t, a, merges, d)
      invariant Redeal(s, t, a, merges, HEAP_SIZE - h, bits, c[bits], opt0)
    {
      var n: nat := s.blCount[bits];
      while n != 0
        invariant h <= HEAP_SIZE && c == s.blCount[..] && Forested(s, t, a, merges, d)
        invariant Redeal(s, t, a, merges, HEAP_SIZE - h, bits, n, opt0)
        decreases h
      {
        LeavesRemain(a, t.fc[..], merges, t.desc.elems, c, max, t.dl[..], HEAP_SIZE - h, bits, n);
        RankAt(s.heap[..], merges, HEAP_SIZE - h);
        h := h - 1;
        var m: nat := s.heap[h];
        n := DealOne(s, t, m, bits, n, a, merges, HEAP_SIZE - h - 1, opt0);
      }
      DealShorter(a, merges, c, max, t.dl[..], HEAP_SIZE - h, bits);
      bits := bits - 1;
    }
    DealDone(a, t.fc[..], merges, t.desc.elems, c, max, t.dl[..], HEAP_SIZE - h);
  }

  // ----- both passes

  /** A node that is too deep has a leaf under it that is too deep. */
  lemma {:induction false} DeepLeaf(a: set<nat>, w: seq<nat>, merges: seq<Merge>, first: nat, d: seq<nat>, max: nat, p: nat)
    returns (x: nat)
    requires RunTo(a, w, merges, first) && |d| == |w| && |merges| >= 1 && Depths(d, merges, first)
    requires p < 2 * |merges| && Son(merges, p) < |d| && d[Son(merges, p)] > max
    ensures x in a && x < |d| && d[x] > max
    decreases Son(merges, p)
  {
    hide RunTo, Depths, Son;
    SonKind(a, w, merges, first, p);
    x := Son(merges, p);
    if x !in a {
      var q := 2 * (x - first);
      SonKind(a, w, merges, first, 2 * |merges| - 1);
      DepthAtRank(d, merges, first, q);
      SonKind(a, w, merges, first, q);
      x := DeepLeaf(a, w, merges, first, d, max, q);
    }
  }

  /** No leaf is too deep. */
  ghost predicate Shallow(a: set<nat>, d: seq<nat>, max: nat) {
    forall x :: x in a && x < |d| ==> d[x] <= max
  }

  lemma OverflowMeaning(a: set<nat>, w: seq<nat>, merges: seq<Merge>, first: nat, d: seq<nat>, max: nat)
    requires HuffmanRun(a, w, merges, first) && |d| == |w| && Depths(d, merges, first) && Indexed(merges, d)
    ensures Overlong(merges, d, max, 0) == 0 <==> Shallow(a, d, max)
    ensures Overlong(merges, d, max, 0) == 2 * Overflows(merges, first, d, max, 0)
  {
    hide HuffmanRun, Depths, Son, LeavesFrom, Overlong, Overflows;
    RunFinished(a, w, merges, first);
    hide RunTo;
    OverlongPairs(merges, first, d, max, 0);
    NoneOverlong(merges, d, max, 0);
    if Overlong(merges, d, max, 0) > 0 {
      var p :| 0 <= p < 2 * |merges| && d[Son(merges, p)] > max;
      var x := DeepLeaf(a, w, merges, first, d, max, p);
    } else {
      AllLeaves(a, w, merges, first);
      forall x | x in a && x < |d|
        ensures d[x] <= max
      {
        LeavesFromRank(a, merges, 0, x);
      }
    }
  }

  /** At the end of the first pass every leaf has its depth, cut off at the maximum. */
  lemma LeavesPassed(a: set<nat>, w: seq<nat>, merges: seq<Merge>, first: nat, d: seq<nat>, max: nat, dl: seq<nat>)
    requires HuffmanRun(a, w, merges, first) && Passed(merges, first, d, max, dl, 0) && |d| == |w|
    ensures Indexed(merges, d) && LeavesFrom(a, merges, 0) == a
    ensures forall x :: x in a ==> x < |dl| && dl[x] == Cut(d, max)[x]
  {
    hide HuffmanRun, Son, LeavesFrom;
    AllLeaves(a, w, merges, first);
    forall x | x in a
      ensures x < |dl| && dl[x] == Cut(d, max)[x]
    {
      LeavesFromRank(a, merges, 0, x);
    }
  }

  /** Complete lengths for the symbols of a and for no others, counted in blCount. */
  ghost predicate Lengthed(s: State, t: Tree, a: set<nat>)
    reads s.blCount, t.dl
  {
    && Apart(s, t) && OthersZero(t, a) && Counts(a, t.dl[..], s.blCount[..])
    && (forall x :: x in a ==> x < t.desc.elems && 1 <= t.dl[x] <= t.desc.maxLength)
    && Kraft(a, t.dl[..], t.desc.maxLength) == Pow2(t.desc.maxLength)
  }

  /** What the first pass leaves, in terms of the leaves. */
  ghost predicate CutOff(a: set<nat>, d: seq<nat>, max: nat, dl: seq<nat>, c: seq<nat>, overflow: nat) {
    && (overflow == 0 <==> Shallow(a, d, max)) && overflow % 2 == 0
    && Overspent(c, max, overflow / 2) && Total(c, max + 1) == |a| && (forall b :: max < b < |c| ==> c[b] == 0)
    && (forall x :: x in a ==> x < |dl| && x < |d| && dl[x] == Min(d[x], max) && 1 <= dl[x])
    && Counts(a, dl, c)
  }

  lemma FirstPassed(a: set<nat>, w: seq<nat>, merges: seq<Merge>, first: nat, d: seq<nat>, max: nat, dl: seq<nat>, c: seq<nat>)
    requires HuffmanRun(a, w, merges, first) && |d| == |w| && Depths(d, merges, first)
    requires Passed(merges, first, d, max, dl, 0) && 1 <= max < |c| && |a| <= Pow2(max)
    requires Counts(LeavesFrom(a, merges, 0), Cut(d, max), c)
    ensures Indexed(merges, d) && CutOff(a, d, max, dl, c, Overlong(merges, d, max, 0))
    ensures LeavesFrom(a, merges, 0) == a
  {
    hide HuffmanRun, Depths, Passed, Counts, Overspent, Total, Overlong, Overflows, LeavesFrom, Shallow, Indexed, Pow2;
    LeavesPassed(a, w, merges, first, d, max, dl);
    OverflowMeaning(a, w, merges, first, d, max);
    CutOverspent(a, w, merges, first, d, max, c);
    LeavesDeep(a, w, merges, first, d, max);
    assert |dl| == |d| by { PassedSize(merges, first, d, max, dl); }
    CountsSame(a, Cut(d, max), dl, c);
  }

  lemma PassedSize(merges: seq<Merge>, first: nat, d: seq<nat>, max: nat, dl: seq<nat>)
    requires Passed(merges, first, d, max, dl, 0)
    ensures |dl| == |d|
  {
  }

  lemma PassEnds(s: State, t: Tree, a: set<nat>, merges: seq<Merge>, d: seq<nat>, opt0: int, static0: int)
    requires Forested(s, t, a, merges, d) && Pass(s, t, a, merges, d, 0, opt0, static0)
    ensures Indexed(merges, d)
    ensures CutOff(a, d, t.desc.maxLength, t.dl[..], s.blCount[..], Overlong(merges, d, t.desc.maxLength, 0))
    ensures Totalled(s, t, a, t.dl[..], opt0, static0)
  {
    hide HuffmanRun, RunTo, Depths, Ordered, Greatest, Passed, Counts, Overlong, LeavesFrom, SizeOf, CutOff, Pow2;
    FirstPassed(a, t.fc[..], merges, t.desc.elems, d, t.desc.maxLength, t.dl[..], s.blCount[..]);
    CutOffLengths(a, d, t.desc.maxLength, t.dl[..], s.blCount[..], Overlong(merges, d, t.desc.maxLength, 0));
    SizeSame(a, t.fc[..], Cut(d, t.desc.maxLength), t.dl[..], t.desc.Extras());
  }

  lemma CutOffLengths(a: set<nat>, d: seq<nat>, max: nat, dl: seq<nat>, c: seq<nat>, overflow: nat)
    requires CutOff(a, d, max, dl, c, overflow)
    ensures forall x :: x in a && x < |dl| ==> x < |d| && dl[x] == Cut(d, max)[x]
  {
  }

  lemma KraftFilled(a: set<nat>, l: seq<nat>, c: seq<nat>, max: nat)
    requires Counts(a, l, c) && (forall x :: x in a ==> x < |l| && l[x] <= max) && Overspent(c, max, 0)
    ensures Kraft(a, l, max) == Pow2(max)
  {
    KraftByCounts(a, l, c, max);
  }

  /** The repair of the counts and the second pass. */
  method RepairLengths(s: State, t: Tree, overflow: nat, ghost a: set<nat>, ghost merges: seq<Merge>, ghost d: seq<nat>,
                       ghost opt0: int, ghost static0: int)
    requires Forested(s, t, a, merges, d) && OthersZero(t, a) && overflow > 0
    requires CutOff(a, d, t.desc.maxLength, t.dl[..], s.blCount[..], overflow)
    requires Totalled(s, t, a, t.dl[..], opt0, static0)
    modifies s`optLen, s.blCount, t.dl
    ensures OthersZero(t, a) && Reassigned(a, merges, s.blCount[..], t.desc.maxLength, t.dl[..])
    ensures Overspent(s.blCount[..], t.desc.maxLength, 0)
    ensures Totalled(s, t, a, t.dl[..], opt0, static0)
  {
    hide HuffmanRun, RunTo, Depths, Ordered, Greatest, Reassigned, Counts, Shallow, SizeOf, StaticSize, Repaired, Overspent, Total;
    ghost var c := s.blCount[..];
    Repair(s.blCount, t.desc.maxLength, overflow);
    RepairedFills(c, t.desc.maxLength, overflow / 2);
    ghost var c' := s.blCount[..];
    assert forall b :: 0 <= b <= MAX_BITS ==> c'[b] == s.blCount[b];
    SecondPass(s, t, a, merges, d, opt0);
  }

  /** gen_bitlen. */
  method GenBitlen(s: State, t: Tree, ghost a: set<nat>, ghost merges: seq<Merge>) returns (ghost d: seq<nat>)
    requires Built(s, t, a, merges)
    modifies s`optLen, s`staticLen, s.blCount, t.dl
    ensures Lengthed(s, t, a)
    ensures |d| == t.desc.Size() && |merges| >= 1 && Depths(d, merges, t.desc.elems)
    ensures Shallow(a, d, t.desc.maxLength) ==> forall x :: x in a ==> t.dl[x] == d[x]
    ensures !Shallow(a, d, t.desc.maxLength) ==> Reassigned(a, merges, s.blCount[..], t.desc.maxLength, t.dl[..])
    ensures Totalled(s, t, a, t.dl[..], old(s.optLen), old(s.staticLen))
  {
    ghost var opt0, static0, max := s.optLen, s.staticLen, t.desc.maxLength;
    hide Built, Pass, Overlong, Overspent, Total, Counts, SizeOf, StaticSize, HuffmanRun, RunTo, Depths, Ordered, Greatest,
      Reassigned, Kraft, Fathered, Indexed, CutOff, Shallow, Lengthed, Totalled;
    d := BuiltForested(s, t, a, merges);
    var overflow := FirstPass(s, t, a, merges, d);
    PassEnds(s, t, a, merges, d, opt0, static0);
    ghost var dl, c := t.dl[..], s.blCount[..];
    if overflow != 0 {
      RepairLengths(s, t, overflow, a, merges, d, opt0, static0);
    }
    FinalLengths(s, t, a, merges, d, dl, c, overflow);
  }

  /** The lengths are complete on either way out. */
  lemma FinalLengths(s: State, t: Tree, a: set<nat>, merges: seq<Merge>, d: seq<nat>, dl: seq<nat>, c: seq<nat>, overflow: nat)
    requires Forested(s, t, a, merges, d) && OthersZero(t, a)
    requires CutOff(a, d, t.desc.maxLength, dl, c, overflow)
    requires overflow == 0 ==> t.dl[..] == dl && s.blCount[..] == c
    requires overflow > 0 ==> Reassigned(a, merges, s.blCount[..], t.desc.maxLength, t.dl[..])
                              && Overspent(s.blCount[..], t.desc.maxLength, 0)
    ensures Lengthed(s, t, a)
    ensures overflow == 0 <==> Shallow(a, d, t.desc.maxLength)
    ensures overflow == 0 ==> forall x :: x in a ==> t.dl[x] == d[x]
  {
    hide HuffmanRun, RunTo, Depths, Ordered, Greatest, Kraft, Counts, Overspent, Total;
    LeafBound(a, t.fc[..], merges, t.desc.elems);
    var max := t.desc.maxLength;
    if overflow == 0 {
      forall x | x in a
        ensures t.dl[x] == d[x] && t.dl[x] <= max
      {
      }
    }
    KraftFilled(a, t.dl[..], s.blCount[..], max);
  }
}
