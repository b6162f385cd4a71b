/**
 gen_codes, and build_tree as a whole: from frequencies to the code words and lengths of a
 tree, with the totals of bits that the code will take.
 */
module TreeCodes {
  import opened Arith
  import opened Options
  import opened Bits
  import opened BitOrder
  import opened Sums
  import opened HuffmanTheory
  import opened HuffmanRuns
  import opened HuffmanHeights
  import opened PrefixCodes
  import opened TreeMerging
  import opened TreeLengths
  import opened LengthRepair
  import opened CanonicalCodes
  import opened DeflateState
  import opened TreeBuilder
  import opened BitLengths

  const CODE_LIMIT: nat := 0x1_0000

  lemma NextCodeBound(c: seq<nat>, b: nat)
    requires b <= MAX_BITS < |c| && KraftTo(c, MAX_BITS, MAX_BITS + 1) <= Pow2(MAX_BITS)
    ensures NextCode(c, b) <= Pow2(b) <= Pow2(MAX_BITS) < CODE_LIMIT
  {
    NextCodeShare(c, MAX_BITS, b);
    KraftToMonotone(c, MAX_BITS, b, MAX_BITS + 1);
    Pow2Add(b, MAX_BITS - b);
    Pow2Monotone(b, MAX_BITS);
    Pow2Values();
    hide NextCode, KraftTo, Pow2;
    if NextCode(c, b) > Pow2(b) {
      MulLess(Pow2(b), NextCode(c, b), Pow2(MAX_BITS - b));
    }
  }

  lemma NextCodeStep(c: seq<nat>, b: nat)
    requires 0 < b < |c|
    ensures NextCode(c, b) == 2 * (NextCode(c, b - 1) + c[b - 1])
  {
  }

  lemma FirstIsZero(c: seq<nat>)
    ensures NextCode(c, 0) == 0
  {
  }

  /** The first code of each length. */
  method FirstCodes(blCount: array<nat>, nextCode: array<nat>)
    requires blCount != nextCode && blCount.Length == nextCode.Length == MAX_BITS + 1
    requires KraftTo(blCount[..], MAX_BITS, MAX_BITS + 1) <= Pow2(MAX_BITS) && blCount[0] == 0
    modifies nextCode
    ensures forall b :: 1 <= b <= MAX_BITS ==> nextCode[b] == NextCode(blCount[..], b)
  {
    hide KraftTo, NextCode, Pow2;
    ghost var c := blCount[..];
    var code: nat := 0;
    var bits: nat := 1;
    FirstIsZero(c);
    while bits <= MAX_BITS
      invariant 1 <= bits <= MAX_BITS + 1 && code == NextCode(c, bits - 1)
      invariant forall b :: 1 <= b < bits ==> nextCode[b] == NextCode(c, b)
    {
      NextCodeBound(c, bits);
      NextCodeStep(c, bits);
      code := ((code + blCount[bits - 1]) * 2) % CODE_LIMIT;
      nextCode[bits] := code;
      bits := bits + 1;
    }
  }

  /** The code words of the symbols of a below n are in place, ready for sending. */
  ghost predicate CodesSet(fc: seq<nat>, a: set<nat>, l: seq<nat>, c: seq<nat>, n: nat)
    requires |fc| == |l|
  {
    forall i :: i in a && i < n && i < |l| ==> l[i] <= |c| && fc[i] == Reversed(Code(a, l, c, i), l[i])
  }

  /** The next code of each length counts the codes given out so far. */
  ghost predicate NextCodes(next: seq<nat>, a: set<nat>, l: seq<nat>, c: seq<nat>, n: nat) {
    && |next| == MAX_BITS + 1 <= |c|
    && forall b :: 1 <= b <= MAX_BITS ==> next[b] == NextCode(c, b) + Rank(a, l, n, b)
  }

  /** Giving symbol n its code. */
  lemma CodeStep(fc: seq<nat>, next: seq<nat>, a: set<nat>, l: seq<nat>, c: seq<nat>, n: nat)
    requires Codable(a, l, c, MAX_BITS) && |fc| == |l| && n in a && |c| == MAX_BITS + 1
    requires CodesSet(fc, a, l, c, n) && NextCodes(next, a, l, c, n)
    ensures n < |l| && 1 <= l[n] <= MAX_BITS && next[l[n]] + 1 < CODE_LIMIT
    ensures CodesSet(fc[n := Reversed(next[l[n]], l[n])], a, l, c, n + 1)
    ensures NextCodes(next[l[n] := next[l[n]] + 1], a, l, c, n + 1)
  {
    hide Rank, NextCode, KraftTo, Pow2, Counts;
    CodeFits(a, l, c, MAX_BITS, n);
    Pow2Monotone(l[n], MAX_BITS);
    Pow2Values();
    forall b | 1 <= b <= MAX_BITS
      ensures Rank(a, l, n + 1, b) == Rank(a, l, n, b) + (if l[n] == b then 1 else 0)
    {
      RankNext(a, l, n, b);
    }
  }

  lemma CodeSkip(fc: seq<nat>, next: seq<nat>, a: set<nat>, l: seq<nat>, c: seq<nat>, n: nat)
    requires |fc| == |l| && n !in a && n < |l|
    requires CodesSet(fc, a, l, c, n) && NextCodes(next, a, l, c, n)
    ensures CodesSet(fc, a, l, c, n + 1) && NextCodes(next, a, l, c, n + 1)
  {
    hide Rank, NextCode;
    forall b | 1 <= b <= MAX_BITS
      ensures Rank(a, l, n + 1, b) == Rank(a, l, n, b)
    {
      RankNext(a, l, n, b);
    }
  }

  lemma CodesStart(fc: seq<nat>, next: seq<nat>, a: set<nat>, l: seq<nat>, c: seq<nat>)
    requires |fc| == |l| && |next| == MAX_BITS + 1 <= |c| && forall b :: 1 <= b <= MAX_BITS ==> next[b] == NextCode(c, b)
    ensures CodesSet(fc, a, l, c, 0) && NextCodes(next, a, l, c, 0)
  {
    forall b | 1 <= b <= MAX_BITS
      ensures Rank(a, l, 0, b) == 0
    {
      RankStart(a, l, b);
    }
  }

  /** gen_codes. */
  method GenCodes(fc: array<nat>, dl: array<nat>, maxCode: int, blCount: array<nat>, ghost a: set<nat>)
    requires fc != dl && fc != blCount && fc.Length == dl.Length && blCount.Length == MAX_BITS + 1
    requires Codable(a, dl[..], blCount[..], MAX_BITS) && -1 <= maxCode < fc.Length
    requires forall i :: 0 <= i <= maxCode ==> (dl[i] != 0 <==> i in a)
    requires forall i :: i in a ==> i <= maxCode
    modifies fc
    ensures CodesSet(fc[..], a, dl[..], blCount[..], fc.Length)
  {
    ghost var l, c := dl[..], blCount[..];
    var nextCode := new nat[MAX_BITS + 1](i => 0);
    FirstCodes(blCount, nextCode);
    hide CodesSet, NextCodes, Codable, NextCode, KraftTo;
    CodesStart(fc[..], nextCode[..], a, l, c);
    var n: nat := 0;
    while n <= maxCode
      invariant n <= maxCode + 1 && dl[..] == l && blCount[..] == c && fresh(nextCode) && nextCode.Length == MAX_BITS + 1
      invariant CodesSet(fc[..], a, l, c, n) && NextCodes(nextCode[..], a, l, c, n)
    {
      if dl[n] == 0 {
        CodeSkip(fc[..], nextCode[..], a, l, c, n);
        n := n + 1;
        continue;
      }
      GiveCode(fc, n, dl[n], nextCode, a, l, c);
      n := n + 1;
    }
    CodesAll(fc[..], a, l, c, n);
  }

  /** The next code of the symbol's length, turned around. */
  method GiveCode(fc: array<nat>, n: nat, len: nat, nextCode: array<nat>, ghost a: set<nat>, ghost l: seq<nat>, ghost c: seq<nat>)
    requires fc != nextCode && fc.Length == |l| && n in a && n < |l| && l[n] == len && |c| == MAX_BITS + 1
    requires Codable(a, l, c, MAX_BITS) && CodesSet(fc[..], a, l, c, n) && NextCodes(nextCode[..], a, l, c, n)
    requires nextCode.Length == MAX_BITS + 1
    modifies fc, nextCode
    ensures CodesSet(fc[..], a, l, c, n + 1) && NextCodes(nextCode[..], a, l, c, n + 1)
  {
    hide CodesSet, NextCodes, Codable, NextCode, KraftTo;
    ghost var f, next := fc[..], nextCode[..];
    CodeStep(f, next, a, l, c, n);
    var code := BiReverse(nextCode[len], len);
    fc[n] := code;
    nextCode[len] := (nextCode[len] + 1) % CODE_LIMIT;
    assert fc[..] == f[n := code] && nextCode[..] == next[len := next[len] + 1];
  }

  lemma CodesAll(fc: seq<nat>, a: set<nat>, l: seq<nat>, c: seq<nat>, n: nat)
    requires |fc| == |l| && CodesSet(fc, a, l, c, n) && forall i :: i in a ==> i < n
    ensures CodesSet(fc, a, l, c, |fc|)
  {
  }

  // ----- build_tree as a whole

  lemma CompleteCodable(a: set<nat>, l: seq<nat>, c: seq<nat>, max: nat)
    requires 1 <= max <= MAX_BITS && |c| == MAX_BITS + 1 && Counts(a, l, c)
    requires (forall i :: i in a ==> i < |l| && 1 <= l[i] <= max) && Kraft(a, l, max) == Pow2(max)
    ensures Codable(a, l, c, MAX_BITS) && KraftTo(c, MAX_BITS, MAX_BITS + 1) == Pow2(MAX_BITS)
  {
    hide Kraft, Counts, KraftTo, Pow2, CountAt;
    KraftScaled(a, l, max, MAX_BITS);
    KraftByCounts(a, l, c, MAX_BITS);
    Pow2Add(MAX_BITS - max, max);
    NoneOfLength(a, l, 0);
    CountsMean(a, l, c, 0);
  }

  lemma CountsMean(a: set<nat>, l: seq<nat>, c: seq<nat>, b: nat)
    requires Counts(a, l, c) && b < |c|
    ensures c[b] == CountAt(a, l, b)
  {
  }

  /** A complete code for two symbols uses one bit for each. */
  lemma TwoCodes(a: set<nat>, l: seq<nat>, max: nat, x: nat)
    requires |a| == 2 && x in a && (forall i :: i in a ==> i < |l| && 1 <= l[i] <= max) && Kraft(a, l, max) == Pow2(max)
    ensures l[x] == 1
  {
    var g := Shares(l, max);
    assert |a - {x}| == 1;
    var y :| y in a - {x};
    assert |a - {x} - {y}| == 0;
    assert a - {x} == {y};
    SumRemove(a, g, x, |l|);
    Singleton(g, y);
    Pow2Monotone(max - l[x], max - 1);
    Pow2Monotone(max - l[y], max - 1);
    assert Pow2(max) == 2 * Pow2(max - 1);
  }

  /** The totals were lowered beforehand by just what the forced codes add. */
  lemma ForcedPays(desc: StaticDesc, u: set<nat>, f: seq<nat>, w: seq<nat>, l: seq<nat>)
    requires desc.Valid() && |f| == |w| == |l| == desc.Size() && (forall i :: i in u ==> i < desc.elems)
    requires SameBelow(Topped(f, Forced(u)), w, desc.elems)
    requires var a := u + Forced(u);
             (forall i :: i in a ==> i < |l| && 1 <= l[i] <= desc.maxLength) && Kraft(a, l, desc.maxLength) == Pow2(desc.maxLength)
    ensures SizeOf(u + Forced(u), w, l, desc.Extras()) == SizeOf(u, f, l, desc.Extras()) + |Forced(u)|
    ensures StaticSize(desc, u + Forced(u), w) == StaticSize(desc, u, f) + StaticSum(desc, Forced(u))
  {
    var x, e := Forced(u), desc.Extras();
    ForcedFew(u);
    ForcedTwo(u);
    hide Forced, SumOver, Kraft;
    forall i | i in x
      ensures l[i] == 1 && w[i] == 1 && e[i] == 0
    {
      TwoCodes(u + x, l, desc.maxLength, i);
    }
    OnesSize(u, x, f, w, l, e);
    if desc.lengths.Some? {
      StaticOnes(u, x, f, w, desc);
    } else {
      NoStatics(desc, x);
    }
  }

  lemma ForcedTwo(u: set<nat>)
    ensures Forced(u) != {} ==> |u + Forced(u)| == 2
  {
    if u == {} {
      assert u + Forced(u) == {0, 1};
    } else if |u| < 2 {
      var x :| x in u;
      assert |u - {x}| == 0;
      assert u == {x};
    }
  }

  lemma OnesSize(u: set<nat>, x: set<nat>, f: seq<nat>, w: seq<nat>, l: seq<nat>, e: seq<nat>)
    requires |f| == |w| == |l| == |e| && x !! u && (forall i :: i in x ==> i < |l| && l[i] == 1 && w[i] == 1 && e[i] == 0)
    requires forall i :: i in u ==> i < |l| && w[i] == f[i]
    ensures SizeOf(u + x, w, l, e) == SizeOf(u, f, l, e) + |x|
  {
    SumUnion(u, x, Sizes(w, l, e), |l|);
    SumSame(u, Sizes(w, l, e), u, Sizes(f, l, e), |l|);
    SumOfOnes(x, Sizes(w, l, e), |l|);
  }

  lemma StaticOnes(u: set<nat>, x: set<nat>, f: seq<nat>, w: seq<nat>, desc: StaticDesc)
    requires |f| == |w| == desc.Size() && x !! u && (forall i :: i in x ==> i < |w| && w[i] == 1 && desc.ExtraOf(i) == 0)
    requires forall i :: i in u ==> i < |w| && w[i] == f[i]
    ensures SizeOf(u + x, w, desc.Statics(), desc.Extras()) == SizeOf(u, f, desc.Statics(), desc.Extras()) + StaticSum(desc, x)
  {
    var l, e := desc.Statics(), desc.Extras();
    SumUnion(u, x, Sizes(w, l, e), |l|);
    SumSame(u, Sizes(w, l, e), u, Sizes(f, l, e), |l|);
    SumSame(x, Sizes(w, l, e), x, l, |l|);
  }

  lemma NoStatics(desc: StaticDesc, x: set<nat>)
    requires desc.lengths.None?
    ensures StaticSum(desc, x) == 0
  {
    AllZero(x, desc.Statics(), desc.Size());
  }

  /** The result of build_tree: a complete canonical code for the coded symbols. */
  ghost predicate TreeReady(s: State, t: Tree, a: set<nat>)
    reads s.blCount, t.dl, t.fc
  {
    && Lengthed(s, t, a) && Codable(a, t.dl[..], s.blCount[..], MAX_BITS)
    && KraftTo(s.blCount[..], MAX_BITS, MAX_BITS + 1) == Pow2(MAX_BITS)
    && CodesSet(t.fc[..], a, t.dl[..], s.blCount[..], t.fc.Length)
  }

  /** gen_codes for the lengths just made. */
  method FinishCodes(s: State, t: Tree, ghost a: set<nat>)
    requires Lengthed(s, t, a) && Greatest(a, t.maxCode)
    modifies t.fc
    ensures TreeReady(s, t, a)
  {
    hide Counts, Kraft, KraftTo, CodesSet, Codable;
    CompleteCodable(a, t.dl[..], s.blCount[..], t.desc.maxLength);
    GenCodes(t.fc, t.dl, t.maxCode, s.blCount, a);
  }

  /** build_tree. */
  method BuildTree(s: State, t: Tree) returns (ghost w: seq<nat>, ghost merges: seq<Merge>, ghost d: seq<nat>)
    requires Apart(s, t)
    requires SumOver(Used(t.fc[..], t.desc.elems), t.fc[..], t.fc.Length) + 2 < FREQ_LIMIT
    modifies s, s.heap, s.depth, s.blCount, t`maxCode, t.fc, t.dl
    ensures var f, n, max := old(t.fc[..]), t.desc.elems, t.desc.maxLength;
            var a := Coded(f, n);
            // a complete canonical code
            && TreeReady(s, t, a) && Greatest(a, t.maxCode)
            // from the Huffman tree of the frequencies, if that is not too deep
            && |w| == |f| && SameBelow(Topped(f, Forced(Used(f, n))), w, n)
            && HuffmanRun(a, w, merges, n) && |d| == |w| && Depths(d, merges, n)
            && (Shallow(a, d, max) ==> Cheapest(a, w, t.dl[..]) && Flattest(a, w, t.dl[..]))
            // and otherwise longest for the least frequent
            && (!Shallow(a, d, max) ==> Reassigned(a, merges, s.blCount[..], max, t.dl[..]))
            // the totals grow by the bits that the used symbols take
            && s.optLen == old(s.optLen) + SizeOf(Used(f, n), f, t.dl[..], t.desc.Extras())
            && s.staticLen == old(s.staticLen) + StaticSize(t.desc, Used(f, n), f)
  {
    hide Coded, Used, Forced, Topped, Built, SumOver, StaticSum, SizeOf, StaticSize, Lengthed, Greatest, TreeReady,
      HuffmanRun, Depths, Shallow, Reassigned, SameBelow, Totalled, Cheapest, Flattest, LowestRun;
    ghost var f, n := t.fc[..], t.desc.elems;
    ghost var opt0, static0 := s.optLen, s.staticLen;
    ghost var u := Used(f, n);
    ghost var a := Coded(f, n);
    merges := BuildForest(s, t);
    w := t.fc[..];
    ghost var opt1, static1 := s.optLen, s.staticLen;
    BuiltRun(s, t, a, merges);
    d := GenBitlen(s, t, a, merges);
    BuiltTotals(s, t, f, w, opt0, static0, opt1, static1);
    if Shallow(a, d, t.desc.maxLength) {
      HuffmanCheapest(a, w, merges, n, d);
      HuffmanFlattest(a, w, merges, n, d);
      CheapestSame(a, w, d, t.dl[..]);
    }
    ghost var l, c := t.dl[..], s.blCount[..];
    FinishCodes(s, t, a);
    assert t.dl[..] == l && s.blCount[..] == c;
  }

  lemma BuiltRun(s: State, t: Tree, a: set<nat>, merges: seq<Merge>)
    requires Built(s, t, a, merges)
    ensures HuffmanRun(a, t.fc[..], merges, t.desc.elems) && Greatest(a, t.maxCode) && LowestRun(a, t.fc[..], merges, t.desc.elems)
  {
  }

  lemma CheapestSame(a: set<nat>, w: seq<nat>, d: seq<nat>, l: seq<nat>)
    requires |w| == |d| == |l| && Cheapest(a, w, d) && Flattest(a, w, d) && forall x :: x in a ==> x < |l| && l[x] == d[x]
    ensures Cheapest(a, w, l) && Flattest(a, w, l)
  {
    hide Cost, PrefixFree;
    SameCost(a, w, d, l);
  }

  lemma SameCost(a: set<nat>, w: seq<nat>, d: seq<nat>, l: seq<nat>)
    requires |w| == |d| == |l| && forall x :: x in a ==> x < |l| && l[x] == d[x]
    ensures Cost(a, w, d) == Cost(a, w, l)
  {
    SumSame(a, Costs(w, d), a, Costs(w, l), |w|);
  }

  /** The totals after gen_bitlen in terms of the frequencies at the start. */
  lemma BuiltTotals(s: State, t: Tree, f: seq<nat>, w: seq<nat>, opt0: int, static0: int, opt1: int, static1: int)
    requires Apart(s, t) && |f| == |w| == t.desc.Size() && t.fc[..] == w && Lengthed(s, t, Coded(f, t.desc.elems))
    requires SameBelow(Topped(f, Forced(Used(f, t.desc.elems))), w, t.desc.elems)
    requires opt1 == opt0 - |Forced(Used(f, t.desc.elems))|
    requires static1 == static0 - StaticSum(t.desc, Forced(Used(f, t.desc.elems)))
    requires Totalled(s, t, Coded(f, t.desc.elems), t.dl[..], opt1, static1)
    ensures s.optLen == opt0 + SizeOf(Used(f, t.desc.elems), f, t.dl[..], t.desc.Extras())
    ensures s.staticLen == static0 + StaticSize(t.desc, Used(f, t.desc.elems), f)
  {
    hide Forced, Topped, StaticSum, SizeOf, StaticSize, Counts, Kraft, SameBelow;
    ForcedPays(t.desc, Used(f, t.desc.elems), f, w, t.dl[..]);
  }

  /** After a repair, too, no symbol has a shorter code than a more frequent one. */
  lemma RarerIsLonger(a: set<nat>, w: seq<nat>, merges: seq<Merge>, first: nat, c: seq<nat>, max: nat, l: seq<nat>, x: nat, y: nat)
    requires HuffmanRun(a, w, merges, first) && Reassigned(a, merges, c, max, l) && x in a && y in a
    ensures x < |l| && y < |l| && x < |w| && y < |w| && (w[x] < w[y] ==> l[x] >= l[y])
  {
    hide HuffmanRun, Son;
    RunFinished(a, w, merges, first);
    hide RunTo, Active;
    LeafActive(a, w, merges, first, x);
    LeafActive(a, w, merges, first, y);
    var p := RankOf(a, w, merges, first, x, 0);
    var q := RankOf(a, w, merges, first, y, 0);
    if q < p {
      LeavingOrder(a, w, merges, first, q, p);
    }
  }
}
