/**
 The trees of a dynamic block: literal tree, distance tree and, for sending those two, the bit
 length tree.  opt_len ends up as the exact size of everything that will be sent with them.
 */
module BlockTrees {
  import opened Arith
  import opened Bits
  import opened BitOrder
  import opened BitWriting
  import opened Options
  import opened Sums
  import opened Codebook
  import opened Alphabet
  import opened HuffmanTheory
  import opened LengthRepair
  import opened CanonicalCodes
  import opened DeflateState
  import opened TreeLengths
  import opened TreeBuilder
  import opened BitLengths
  import opened TreeCodes
  import opened Lz77Tokens
  import opened Blocks
  import opened BlockSizes
  import CodeLengths

  // ----- sums over all symbols

  function SumTo(f: seq<nat>, n: nat): nat
    requires n <= |f|
  {
    if n == 0 then 0 else SumTo(f, n - 1) + f[n - 1]
  }

  lemma {:induction false} SumToBump(f: seq<nat>, n: nat, x: nat)
    requires n <= |f| && x < |f|
    ensures SumTo(f[x := f[x] + 1], n) == SumTo(f, n) + (if x < n then 1 else 0)
  {
    if n > 0 {
      SumToBump(f, n - 1, x);
    }
  }

  lemma {:induction false} SumToZero(f: seq<nat>, n: nat)
    requires n <= |f| && forall i :: 0 <= i < n ==> f[i] == 0
    ensures SumTo(f, n) == 0
  {
    if n > 0 {
      SumToZero(f, n - 1);
    }
  }

  lemma {:induction false} SumToSame(f: seq<nat>, g: seq<nat>, n: nat)
    requires n <= |f| && n <= |g| && forall i :: 0 <= i < n ==> f[i] == g[i]
    ensures SumTo(f, n) == SumTo(g, n)
  {
    if n > 0 {
      SumToSame(f, g, n - 1);
    }
  }

  /** Symbols that do not occur add nothing. */
  lemma {:induction false} UsedSum(f: seq<nat>, n: nat, g: seq<nat>, k: nat)
    requires n <= |f| && k <= |g| && forall i :: i in Used(f, n) && i < k ==> g[i] == f[i]
    ensures k >= n ==> SumOver(Used(f, n), g, k) == SumTo(f, n)
    ensures k < n ==> SumOver(Used(f, n), g, k) == SumTo(f, k)
  {
    if k > 0 {
      UsedSum(f, n, g, k - 1);
    }
  }

  lemma {:induction false} UsedSize(f: seq<nat>, n: nat, l: seq<nat>, e: seq<nat>, k: nat)
    requires n <= |f| == |l| == |e| && k <= |f|
    ensures k >= n ==> SumOver(Used(f, n), Sizes(f, l, e), k) == SizeTo(f, l, e, n)
    ensures k < n ==> SumOver(Used(f, n), Sizes(f, l, e), k) == SizeTo(f, l, e, k)
  {
    if k > 0 {
      UsedSize(f, n, l, e, k - 1);
    }
  }

  /** A block of m tokens has m + 1 literal/length symbols and at most m distance symbols. */
  lemma {:induction false} FreqTotals(ts: seq<Token>)
    requires AllInRange(ts)
    ensures SumTo(LitFreqs(ts), L_CODES) == |ts| + 1 && SumTo(DistFreqs(ts), D_CODES) <= |ts|
    decreases |ts|
  {
    hide SumTo, InRange, DistCode;
    if ts == [] {
      var none := seq(L_CODES, n => 0);
      SumToZero(none, L_CODES);
      SumToBump(none, L_CODES, END_BLOCK);
      assert LitFreqs([]) == none[END_BLOCK := 1];
      SumToZero(DistFreqs([]), D_CODES);
    } else {
      var front, t := ts[..|ts| - 1], ts[|ts| - 1];
      assert ts == front + [t];
      assert InRange(ts[|ts| - 1]);
      forall i | 0 <= i < |front| ensures InRange(front[i]) { assert front[i] == ts[i]; }
      FreqTotals(front);
      FreqsPut(front, t);
      SumToBump(LitFreqs(front), L_CODES, LitSymbol(t));
      if t.dist > 0 {
        SumToBump(DistFreqs(front), D_CODES, DistCode(t.dist - 1));
      }
    }
  }

  lemma {:induction false} SymTotal(syms: seq<CodeLengths.Sym>)
    requires forall s :: s in syms ==> s.code < CodeLengths.BL_CODES
    ensures SumTo(SymFreqs(syms), CodeLengths.BL_CODES) == |syms|
    decreases |syms|
  {
    hide SumTo;
    if syms == [] {
      SumToZero(SymFreqs([]), CodeLengths.BL_CODES);
    } else {
      var front, s := syms[..|syms| - 1], syms[|syms| - 1];
      assert syms == front + [s] && s in syms;
      SymTotal(front);
      SymFreqsPut(front, s);
      SumToBump(SymFreqs(front), CodeLengths.BL_CODES, s.code);
    }
  }

  /** No more symbols than lengths. */
  lemma {:induction false} FewSymbols(lens: seq<nat>, n: nat, prevlen: int, count: nat)
    requires n < |lens|
    ensures |CodeLengths.Send(lens, n, prevlen, count)| <= |lens| - 1 - n + count
    decreases |lens| - n
  {
    if n + 1 < |lens| {
      FewSymbols(lens, n + 1, prevlen, count + 1);
      FewSymbols(lens, n + 1, lens[n], 0);
    }
  }

  // ----- the descriptors

  function LDesc(staticLens: seq<nat>): StaticDesc {
    StaticDesc(Some(staticLens), ExtraLbits(), LITERALS + 1, L_CODES, MAX_BITS)
  }

  function DDesc(staticLens: seq<nat>): StaticDesc {
    StaticDesc(Some(staticLens), ExtraDbits(), 0, D_CODES, MAX_BITS)
  }

  /** extra_blbits */
  function ExtraBlbits(): (s: seq<nat>)
    ensures |s| == CodeLengths.BL_CODES
  {
    [0, 0, 0, 0, 0, 0, 0, 0, 0, 0, 0, 0, 0, 0, 0, 0, 2, 3, 7]
  }

  const MAX_BL_BITS: nat := 7

  function BlDesc(): StaticDesc {
    StaticDesc(None, ExtraBlbits(), 0, CodeLengths.BL_CODES, MAX_BL_BITS)
  }

  lemma DescsValid(l: seq<nat>, d: seq<nat>)
    requires |l| >= L_CODES && |d| >= D_CODES
    ensures LDesc(l).Valid() && DDesc(d).Valid() && BlDesc().Valid()
  {
    Pow2Values();
  }

  lemma DescExtras(l: seq<nat>, d: seq<nat>)
    ensures forall n :: 0 <= n < L_CODES ==> LDesc(l).ExtraOf(n) == LitExtras()[n]
    ensures forall n :: 0 <= n < D_CODES ==> DDesc(d).ExtraOf(n) == ExtraDbits()[n]
  {
    hide ExtraLbits, ExtraDbits;
  }

  lemma BlDescExtras()
    ensures forall n :: 0 <= n < CodeLengths.BL_CODES ==> BlDesc().ExtraOf(n) == BlExtras()[n]
  {
  }

  // ----- a finished tree, on values

  /** fc and dl hold a complete canonical code for the symbols of a, which are n at most. */
  ghost predicate Ready(a: set<nat>, n: nat, max: nat, fc: seq<nat>, dl: seq<nat>, c: seq<nat>) {
    && n <= |fc| == |dl| && |c| == MAX_BITS + 1
    && (forall x :: x in a ==> x < n && 1 <= dl[x] <= max)
    && Codable(a, dl, c, MAX_BITS) && KraftTo(c, MAX_BITS, MAX_BITS + 1) == Pow2(MAX_BITS)
    && CodesSet(fc, a, dl, c, |fc|)
  }

  /** Every symbol of a has a code word. */
  lemma ReadyHas(a: set<nat>, n: nat, max: nat, fc: seq<nat>, dl: seq<nat>, c: seq<nat>, x: nat)
    requires Ready(a, n, max, fc, dl, c) && x in a && max <= MAX_BITS
    ensures Codebook.Code(fc, dl).Has(x)
    ensures Codebook.Code(fc, dl).Word(x) == Word(a, dl, c, x)
  {
    hide KraftTo, Pow2;
    CodableLengths(a, dl, c, MAX_BITS, x, x);
    hide Codable;
    ReversedBelow(CanonicalCodes.Code(a, dl, c, x), dl[x]);
    ReversedBits(CanonicalCodes.Code(a, dl, c, x), dl[x]);
    hide CanonicalCodes.Code, Reversed;
  }

  /** Lengths of symbols outside a do not matter. */
  lemma ReadyKept(a: set<nat>, n: nat, max: nat, fc: seq<nat>, dl: seq<nat>, c: seq<nat>, i: nat, v: nat)
    requires Ready(a, n, max, fc, dl, c) && i !in a && i < |dl|
    ensures Ready(a, n, max, fc, dl[i := v], c)
  {
    var l := dl[i := v];
    hide KraftTo;
    CountsSame(a, dl, l, c);
    forall x | x in a && x < |fc|
      ensures l[x] <= |c| && fc[x] == Reversed(CanonicalCodes.Code(a, l, c, x), l[x])
    {
      SumSame(CanonicalCodes.Below(a, x), IsLength(dl, dl[x]), CanonicalCodes.Below(a, x), IsLength(l, dl[x]), |l|);
    }
  }

  lemma TreeReadyValues(s: State, t: Tree, a: set<nat>)
    requires TreeReady(s, t, a)
    ensures Ready(a, t.desc.elems, t.desc.maxLength, t.fc[..], t.dl[..], s.blCount[..])
    ensures ZeroOutside(t.dl[..], a, t.desc.elems)
  {
    hide Codable, CodesSet, KraftTo, Counts, Kraft;
  }

  // ----- building the three trees

  lemma BelowLimit(f: seq<nat>, n: nat)
    requires n <= |f|
    ensures SumOver(Used(f, n), f, |f|) == SumTo(f, n)
  {
    UsedSum(f, n, f, |f|);
  }

  lemma SizesMeet(desc: StaticDesc, f: seq<nat>, dl: seq<nat>)
    requires |f| == |dl| == desc.Size()
    ensures SizeOf(Used(f, desc.elems), f, dl, desc.Extras()) == SizeTo(f, dl, desc.Extras(), desc.elems)
    ensures StaticSize(desc, Used(f, desc.elems), f)
         == if desc.lengths.Some? then SizeTo(f, desc.Statics(), desc.Extras(), desc.elems) else 0
  {
    UsedSize(f, desc.elems, dl, desc.Extras(), |f|);
    UsedSize(f, desc.elems, desc.Statics(), desc.Extras(), |f|);
  }

  /** build_tree, with its effect on the totals symbol by symbol. */
  method BuildOne(s: State, t: Tree) returns (ghost a: set<nat>, ghost c: seq<nat>)
    requires Apart(s, t) && SumTo(t.fc[..], t.desc.elems) + 2 < FREQ_LIMIT
    modifies s, s.heap, s.depth, s.blCount, t`maxCode, t.fc, t.dl
    ensures var f, n := old(t.fc[..]), t.desc.elems;
            && a == TreeBuilder.Coded(f, n) && Greatest(a, t.maxCode)
            && Ready(a, n, t.desc.maxLength, t.fc[..], t.dl[..], c) && ZeroOutside(t.dl[..], a, n)
            && s.optLen == old(s.optLen) + SizeTo(f, t.dl[..], t.desc.Extras(), n)
            && s.staticLen == old(s.staticLen)
                 + (if t.desc.lengths.Some? then SizeTo(f, t.desc.Statics(), t.desc.Extras(), n) else 0)
  {
    hide Used, TreeBuilder.Coded, SumOver, SumTo, Ready, SizeTo, SizeOf, StaticSize, TreeReady, HuffmanRun, Depths, Shallow,
      Reassigned, Greatest, ZeroOutside, SameBelow, Topped, Forced;
    ghost var f := t.fc[..];
    BelowLimit(f, t.desc.elems);
    ghost var w, merges, d := BuildTree(s, t);
    a := TreeBuilder.Coded(f, t.desc.elems);
    c := s.blCount[..];
    TreeReadyValues(s, t, a);
    SizesMeet(t.desc, f, t.dl[..]);
  }

  /** No two trees share an array. */
  ghost predicate Distinct(s: State, lt: Tree, dt: Tree, bt: Tree) {
    && Apart(s, lt) && Apart(s, dt) && Apart(s, bt) && lt != dt && lt != bt && dt != bt
    && lt.fc !in {dt.fc, dt.dl, bt.fc, bt.dl} && lt.dl !in {dt.fc, dt.dl, bt.fc, bt.dl}
    && dt.fc !in {bt.fc, bt.dl} && dt.dl !in {bt.fc, bt.dl}
  }

  /** What send_tree sends for a tree with the given lengths and last symbol. */
  ghost function TreeSyms(dl: seq<nat>, maxCode: int): seq<CodeLengths.Sym>
    requires 0 <= maxCode && maxCode + 1 < |dl|
  {
    CodeLengths.Send(dl[..maxCode + 2], 0, -1, 0)
  }

  /** Lengths that scan_tree can take. */
  ghost predicate Scannable(t: Tree)
    reads t, t.dl
  {
    0 <= t.maxCode && t.maxCode + 1 < t.dl.Length && forall i :: 0 <= i <= t.maxCode ==> t.dl[i] <= 15
  }

  /** The guard is set behind the last length. */
  ghost predicate Scanned(t: Tree)
    reads t, t.dl
  {
    0 <= t.maxCode && t.maxCode + 1 < t.dl.Length && CodeLengths.Guarded(t.dl[..t.maxCode + 2])
  }

  /** f counts the symbols. */
  ghost predicate Tallied(f: seq<nat>, syms: seq<CodeLengths.Sym>) {
    CodeLengths.BL_CODES <= |f| && f[..CodeLengths.BL_CODES] == SymFreqs(syms)
  }

  method ScanOne(t: Tree, freq: array<nat>, ghost syms: seq<CodeLengths.Sym>)
    requires Scannable(t) && freq != t.dl && Tallied(freq[..], syms)
    modifies t.dl, freq
    ensures t.dl[..] == old(t.dl[..])[t.maxCode + 1 := CodeLengths.GUARD] && Scanned(t)
    ensures Tallied(freq[..], syms + TreeSyms(t.dl[..], t.maxCode))
  {
    hide CodeLengths.Send, CodeLengths.Guarded, CodeLengths.Count;
    ghost var f := freq[..];
    CodeLengths.ScanTree(t.dl, t.maxCode, freq);
    TallyAdds(f, freq[..], syms, TreeSyms(t.dl[..], t.maxCode));
  }

  lemma TallyAdds(f: seq<nat>, g: seq<nat>, syms: seq<CodeLengths.Sym>, more: seq<CodeLengths.Sym>)
    requires Tallied(f, syms) && CodeLengths.BL_CODES <= |g|
    requires forall c :: 0 <= c < CodeLengths.BL_CODES ==> g[c] == f[c] + CodeLengths.Count(more, c)
    ensures Tallied(g, syms + more)
  {
    hide CodeLengths.Count;
    forall c | 0 <= c < CodeLengths.BL_CODES
      ensures CodeLengths.Count(syms + more, c) == CodeLengths.Count(syms, c) + CodeLengths.Count(more, c)
      ensures f[c] == SymFreqs(syms)[c]
    {
      CodeLengths.CountConcat(syms, more, c);
      assert f[c] == f[..CodeLengths.BL_CODES][c];
    }
  }

  lemma NoSymbols(f: seq<nat>)
    requires CodeLengths.BL_CODES <= |f| && forall c :: 0 <= c < CodeLengths.BL_CODES ==> f[c] == 0
    ensures Tallied(f, [])
  {
  }

  /** The symbol whose code length is the r-th in the header of a dynamic block: first the repeats and 0, then from 8 outwards
      (section 3.2.7 of RFC 1951). */
  function BlSymbol(r: nat): (c: nat)
    ensures r < CodeLengths.BL_CODES ==> c < CodeLengths.BL_CODES
  {
    if r < 3 then 16 + r else if r == 3 then 0 else if r % 2 == 0 then 6 + r / 2 else if r < 19 then (19 - r) / 2 else 0
  }

  /** bl_order */
  function BlOrder(): (s: seq<nat>)
    ensures |s| == CodeLengths.BL_CODES && forall r :: 0 <= r < |s| ==> s[r] == BlSymbol(r)
  {
    [16, 17, 18, 0, 8, 7, 9, 6, 10, 5, 11, 4, 12, 3, 13, 2, 14, 1, 15]
  }

  /** The rank of a length symbol in bl_order. */
  lemma BlRank(code: nat) returns (r: nat)
    requires code <= 15
    ensures 3 <= r < CodeLengths.BL_CODES && BlSymbol(r) == code
  {
    r := if code == 0 then 3 else if code < 8 then 19 - 2 * code else 2 * code - 12;
  }

  /** maxBlindex is the last in bl_order with a length. */
  ghost predicate LastBl(dl: seq<nat>, maxBlindex: nat) {
    && CodeLengths.BL_CODES <= |dl| && 3 <= maxBlindex < CodeLengths.BL_CODES
    && BlSymbol(maxBlindex) < |dl| && dl[BlSymbol(maxBlindex)] != 0
    && forall r :: maxBlindex < r < CodeLengths.BL_CODES && BlSymbol(r) < |dl| ==> dl[BlSymbol(r)] == 0
  }

  /** The loop of build_bl_tree: it stops above 2 because some length symbol is in use. */
  method FindLastBl(dl: array<nat>, ghost code: nat) returns (maxBlindex: nat)
    requires CodeLengths.BL_CODES <= dl.Length && code <= 15 && dl[code] != 0
    ensures LastBl(dl[..], maxBlindex)
  {
    ghost var r0 := BlRank(code);
    hide BlSymbol, BlOrder;
    var order := BlOrder();
    maxBlindex := CodeLengths.BL_CODES - 1;
    while maxBlindex >= 3
      invariant r0 <= maxBlindex < CodeLengths.BL_CODES
      invariant forall r :: maxBlindex < r < CodeLengths.BL_CODES ==> dl[BlSymbol(r)] == 0
    {
      if dl[order[maxBlindex]] != 0 {
        break;
      }
      maxBlindex := maxBlindex - 1;
    }
  }

  // ----- the bit length tree

  lemma UsedHas(f: seq<nat>, n: nat, x: nat)
    requires n <= |f| && x < n && f[x] != 0
    ensures x in TreeBuilder.Coded(f, n)
  {
  }

  /** Symbols that were counted have code words. */
  lemma SymsSendable(f: seq<nat>, syms: seq<CodeLengths.Sym>, a: set<nat>, max: nat, fc: seq<nat>, dl: seq<nat>, c: seq<nat>)
    requires Tallied(f, syms) && a == TreeBuilder.Coded(f, CodeLengths.BL_CODES) && max <= MAX_BITS
    requires Ready(a, CodeLengths.BL_CODES, max, fc, dl, c) && forall s :: s in syms ==> CodeLengths.Fits(s)
    ensures CodeLengths.Sendable(syms, Codebook.Code(fc, dl))
  {
    hide Ready, TreeBuilder.Coded, CodeLengths.Count;
    forall s | s in syms
      ensures Codebook.Code(fc, dl).Has(s.code)
    {
      Occurs(syms, s);
      assert f[s.code] == f[..CodeLengths.BL_CODES][s.code];
      UsedHas(f, CodeLengths.BL_CODES, s.code);
      ReadyHas(a, CodeLengths.BL_CODES, max, fc, dl, c, s.code);
    }
  }

  lemma {:induction false} Occurs(syms: seq<CodeLengths.Sym>, s: CodeLengths.Sym)
    requires s in syms
    ensures CodeLengths.Count(syms, s.code) > 0
  {
    if syms[0] != s {
      Occurs(syms[1..], s);
    }
  }

  /** Both trees' symbols, in the order in which they are sent. */
  ghost function BothSyms(lt: Tree, dt: Tree): seq<CodeLengths.Sym>
    requires 0 <= lt.maxCode && lt.maxCode + 1 < lt.dl.Length && 0 <= dt.maxCode && dt.maxCode + 1 < dt.dl.Length
    reads lt, dt, lt.dl, dt.dl
  {
    TreeSyms(lt.dl[..], lt.maxCode) + TreeSyms(dt.dl[..], dt.maxCode)
  }

  /** What the symbols of both trees are like. */
  lemma BothFit(l: seq<nat>, lmax: int, d: seq<nat>, dmax: int)
    requires 0 <= lmax && lmax + 1 < |l| && 0 <= dmax && dmax + 1 < |d|
    requires CodeLengths.Guarded(l[..lmax + 2]) && CodeLengths.Guarded(d[..dmax + 2])
    ensures forall s :: s in TreeSyms(l, lmax) + TreeSyms(d, dmax) ==> CodeLengths.Fits(s)
    ensures |TreeSyms(l, lmax) + TreeSyms(d, dmax)| <= lmax + dmax + 2
  {
    CodeLengths.SentSymbolsFit(l[..lmax + 2], 0, -1, 0);
    CodeLengths.SentSymbolsFit(d[..dmax + 2], 0, -1, 0);
    FewSymbols(l[..lmax + 2], 0, -1, 0);
    FewSymbols(d[..dmax + 2], 0, -1, 0);
  }

  lemma TalliedTotal(f: seq<nat>, syms: seq<CodeLengths.Sym>)
    requires Tallied(f, syms) && forall s :: s in syms ==> CodeLengths.Fits(s)
    ensures SumTo(f, CodeLengths.BL_CODES) == |syms|
  {
    SymTotal(syms);
    assert forall i :: 0 <= i < CodeLengths.BL_CODES ==> f[i] == f[..CodeLengths.BL_CODES][i];
    SumToSame(f, SymFreqs(syms), CodeLengths.BL_CODES);
  }

  /** The bits for the symbols, from the counts. */
  lemma TalliedSize(f: seq<nat>, syms: seq<CodeLengths.Sym>, fc: seq<nat>, dl: seq<nat>)
    requires Tallied(f, syms) && CodeLengths.Sendable(syms, Codebook.Code(fc, dl)) && |dl| == BlDesc().Size()
    ensures SizeTo(f, dl, BlDesc().Extras(), CodeLengths.BL_CODES) == |CodeLengths.SymsBits(syms, Codebook.Code(fc, dl))|
  {
    hide CodeLengths.Sendable, CodeLengths.SymsBits, CodeLengths.Count;
    SymsSize(syms, Codebook.Code(fc, dl));
    BlDescExtras();
    hide BlDesc, BlExtras;
    assert forall i :: 0 <= i < CodeLengths.BL_CODES ==> f[i] == f[..CodeLengths.BL_CODES][i];
    SizeToSame(f, dl, BlDesc().Extras(), SymFreqs(syms), dl, BlExtras(), CodeLengths.BL_CODES);
  }
}
