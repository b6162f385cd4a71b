/**
 _tr_flush_block: the choice among stored, static and dynamic blocks, and the promise that the
 length it accounts for is the number of bits it has sent.
 */
module BlockWriter {
  import opened Arith
  import opened Bits
  import opened BitOrder
  import opened BitWriting
  import opened Options
  import opened Sums
  import opened Codebook
  import opened Alphabet
  import opened CanonicalCodes
  import opened LengthRepair
  import opened TreeCodes
  import opened DeflateState
  import opened TreeBuilder
  import opened Lz77Tokens
  import opened Blocks
  import opened BlockSizes
  import opened BlockTrees
  import CodeLengths

  function Book(t: Tree): Codebook.Code
    reads t.fc, t.dl
  {
    Codebook.Code(t.fc[..], t.dl[..])
  }

  /** build_bl_tree: the result is the rank in bl_order of the last length to send. */
  method BuildBlTree(s: State, lt: Tree, dt: Tree, bt: Tree, ghost k: nat) returns (maxBlindex: nat, ghost a: set<nat>, ghost c: seq<nat>)
    requires Distinct(s, lt, dt, bt) && bt.desc == BlDesc() && Scannable(lt) && Scannable(dt)
    requires forall c :: 0 <= c < CodeLengths.BL_CODES ==> bt.fc[c] == 0
    requires k <= lt.maxCode && lt.dl[k] != 0
    modifies s, s.heap, s.depth, s.blCount, lt.dl, dt.dl, bt`maxCode, bt.fc, bt.dl
    ensures lt.dl[..] == old(lt.dl[..])[lt.maxCode + 1 := CodeLengths.GUARD] && Scanned(lt)
    ensures dt.dl[..] == old(dt.dl[..])[dt.maxCode + 1 := CodeLengths.GUARD] && Scanned(dt)
    ensures CodeLengths.Sendable(BothSyms(lt, dt), Book(bt)) && LastBl(bt.dl[..], maxBlindex) && BlReady(bt.fc[..], bt.dl[..], a, c)
    ensures forall c :: 0 <= c < CodeLengths.BL_CODES ==> bt.dl[c] <= 7
    ensures s.optLen == old(s.optLen) + |CodeLengths.SymsBits(BothSyms(lt, dt), Book(bt))| + 3 * (maxBlindex + 1) + 5 + 5 + 4
    ensures s.staticLen == old(s.staticLen)
  {
    hide *;
    OthersApart(s, lt, dt, bt);
    ScanBoth(s, lt, dt, bt);
    ScannedParts(s, lt, dt, bt);
    ghost var f, syms := bt.fc[..], BothSyms(lt, dt);
    ghost var code;
    code, a, c := BuildForSyms(s, bt, syms, lt.dl[..], lt.maxCode, k);
    maxBlindex := FindLastBl(bt.dl, code);
    s.optLen := s.optLen + 3 * (maxBlindex + 1) + 5 + 5 + 4;
  }

  /** Building the bit length tree leaves the other two alone. */
  lemma OthersApart(s: State, lt: Tree, dt: Tree, bt: Tree)
    requires Distinct(s, lt, dt, bt) && bt.desc == BlDesc()
    ensures lt != bt && dt != bt && lt != dt && bt.fc.Length == bt.dl.Length >= CodeLengths.BL_CODES
    ensures bt.fc !in {s.heap, s.depth, s.blCount, lt.dl, dt.dl, bt.dl}
    ensures lt.dl !in {s.heap, s.depth, s.blCount, dt.dl, bt.fc, bt.dl} && dt.dl !in {s.heap, s.depth, s.blCount, lt.dl, bt.fc, bt.dl}
  {
    BlDescFacts();
    hide LDesc, DDesc, BlDesc;
  }

  lemma ScannedParts(s: State, lt: Tree, dt: Tree, bt: Tree)
    requires Distinct(s, lt, dt, bt) && Scanned(lt) && Scanned(dt)
    ensures Apart(s, bt) && 0 <= lt.maxCode && lt.maxCode + 1 < lt.dl.Length && CodeLengths.Guarded(lt.dl[..][..lt.maxCode + 2])
    ensures 0 <= dt.maxCode && dt.maxCode + 1 < dt.dl.Length && TreeSyms(lt.dl[..], lt.maxCode) <= BothSyms(lt, dt)
    ensures lt.maxCode + dt.maxCode + 2 <= 1200
  {
    hide CodeLengths.Guarded, TreeSyms;
    assert lt.dl[..][..lt.maxCode + 2] == lt.dl[..lt.maxCode + 2];
  }

  /** scan_tree for both trees. */
  method ScanBoth(s: State, lt: Tree, dt: Tree, bt: Tree)
    requires Distinct(s, lt, dt, bt) && bt.desc == BlDesc() && Scannable(lt) && Scannable(dt)
    requires forall c :: 0 <= c < CodeLengths.BL_CODES ==> bt.fc[c] == 0
    modifies lt.dl, dt.dl, bt.fc
    ensures lt.dl[..] == old(lt.dl[..])[lt.maxCode + 1 := CodeLengths.GUARD] && Scanned(lt)
    ensures dt.dl[..] == old(dt.dl[..])[dt.maxCode + 1 := CodeLengths.GUARD] && Scanned(dt)
    ensures Tallied(bt.fc[..], BothSyms(lt, dt))
    ensures forall s :: s in BothSyms(lt, dt) ==> CodeLengths.Fits(s)
    ensures SumTo(bt.fc[..], CodeLengths.BL_CODES) <= lt.maxCode + dt.maxCode + 2
  {
    hide Tallied, CodeLengths.Guarded, TreeSyms, BlDesc, SumTo, CodeLengths.Fits;
    BlDescFacts();
    NoSymbols(bt.fc[..]);
    ScanOne(lt, bt.fc, []);
    ghost var l, lmax := lt.dl[..], lt.maxCode;
    assert [] + TreeSyms(l, lmax) == TreeSyms(l, lmax);
    ScanOne(dt, bt.fc, TreeSyms(l, lmax));
    assert lt.dl[..] == l;
    BothFit(l, lmax, dt.dl[..], dt.maxCode);
    TalliedTotal(bt.fc[..], BothSyms(lt, dt));
  }

  /** build_tree for the symbols counted. */
  method BuildForSyms(s: State, bt: Tree, ghost syms: seq<CodeLengths.Sym>, ghost l: seq<nat>, ghost lmax: int, ghost k: nat)
    returns (ghost code: nat, ghost a: set<nat>, ghost c: seq<nat>)
    requires Apart(s, bt) && bt.desc == BlDesc() && Tallied(bt.fc[..], syms)
    requires SumTo(bt.fc[..], CodeLengths.BL_CODES) <= 1200 && forall s :: s in syms ==> CodeLengths.Fits(s)
    requires 0 <= lmax && lmax + 1 < |l| && CodeLengths.Guarded(l[..lmax + 2]) && k <= lmax && l[k] != 0
    requires TreeSyms(l, lmax) <= syms
    modifies s, s.heap, s.depth, s.blCount, bt`maxCode, bt.fc, bt.dl
    ensures CodeLengths.Sendable(syms, Book(bt)) && CodeLengths.BL_CODES <= bt.dl.Length
    ensures forall c :: 0 <= c < CodeLengths.BL_CODES ==> bt.dl[c] <= 7
    ensures s.optLen == old(s.optLen) + |CodeLengths.SymsBits(syms, Book(bt))| && s.staticLen == old(s.staticLen)
    ensures code <= 15 && bt.dl[code] != 0 && BlReady(bt.fc[..], bt.dl[..], a, c)
  {
    hide Tallied, TreeBuilder.Coded, SumTo, SizeTo, Ready, Greatest, ZeroOutside, CodeLengths.Sendable, CodeLengths.SymsBits,
      CodeLengths.Guarded, CodeLengths.Fits, TreeSyms, BlDesc, Used;
    ghost var f := bt.fc[..];
    BlDescFacts();
    a, c := BuildOne(s, bt);
    SymsSendable(f, syms, a, 7, bt.fc[..], bt.dl[..], c);
    TalliedSize(f, syms, bt.fc[..], bt.dl[..]);
    code := LengthInUse(l, lmax, syms, k, Book(bt));
    BlLengths(a, bt.fc[..], bt.dl[..], c);
  }

  lemma BlDescFacts()
    ensures BlDesc().elems == CodeLengths.BL_CODES == 19 && BlDesc().maxLength == 7 && BlDesc().lengths.None?
  {
  }

  lemma BlLengths(a: set<nat>, fc: seq<nat>, dl: seq<nat>, c: seq<nat>)
    requires Ready(a, CodeLengths.BL_CODES, 7, fc, dl, c) && ZeroOutside(dl, a, CodeLengths.BL_CODES)
    ensures forall x :: 0 <= x < CodeLengths.BL_CODES ==> x < |dl| && dl[x] <= 7
    ensures BlReady(fc, dl, a, c)
  {
    hide Codable, CodesSet, KraftTo;
  }

  /** The bit length tree holds a complete canonical code, and nothing else has a length. */
  ghost predicate BlReady(fc: seq<nat>, dl: seq<nat>, a: set<nat>, c: seq<nat>) {
    && Ready(a, CodeLengths.BL_CODES, 7, fc, dl, c)
    && forall x :: 0 <= x < CodeLengths.BL_CODES ==> x < |dl| && (dl[x] != 0 <==> x in a)
  }

  /** Some length is sent as itself, so its symbol has a code. */
  lemma LengthInUse(l: seq<nat>, lmax: int, syms: seq<CodeLengths.Sym>, k: nat, book: Codebook.Code) returns (code: nat)
    requires 0 <= lmax && lmax + 1 < |l| && CodeLengths.Guarded(l[..lmax + 2]) && k <= lmax && l[k] != 0
    requires TreeSyms(l, lmax) <= syms && CodeLengths.Sendable(syms, book)
    ensures code <= 15 && code < |book.len| && book.len[code] != 0
  {
    hide CodeLengths.Guarded, CodeLengths.Send;
    var s := CodeLengths.LiteralSent(l[..lmax + 2], 0, -1, 0, k);
    assert s in syms;
    code := s.code;
  }

  // ----- all three trees

  /** The frequencies in a tree array are those of the tokens. */
  ghost predicate Counted(f: seq<nat>, g: seq<nat>) {
    |g| <= |f| && f[..|g|] == g
  }

  lemma CountedTotals(lf: seq<nat>, df: seq<nat>, ts: seq<Token>)
    requires Counted(lf, LitFreqs(ts)) && Counted(df, DistFreqs(ts)) && AllInRange(ts)
    ensures |lf| >= L_CODES && |df| >= D_CODES
    ensures SumTo(lf, L_CODES) == |ts| + 1 && SumTo(df, D_CODES) <= |ts|
  {
    FreqTotals(ts);
    assert forall i :: 0 <= i < L_CODES ==> lf[i] == lf[..L_CODES][i];
    assert forall i :: 0 <= i < D_CODES ==> df[i] == df[..D_CODES][i];
    SumToSame(lf, LitFreqs(ts), L_CODES);
    SumToSame(df, DistFreqs(ts), D_CODES);
  }

  lemma {:induction false} LitOccurs(ts: seq<Token>, i: nat)
    requires i < |ts|
    ensures LitCount(ts, LitSymbol(ts[i])) > 0
    ensures ts[i].dist > 0 ==> DistCount(ts, DistCode(ts[i].dist - 1)) > 0
    decreases |ts|
  {
    hide LitSymbol, DistCode;
    if i < |ts| - 1 {
      LitOccurs(ts[..|ts| - 1], i);
      assert ts[..|ts| - 1][i] == ts[i];
    }
  }

  /** A finished tree for counted frequencies. */
  ghost predicate Finished(f: seq<nat>, n: nat, fc: seq<nat>, dl: seq<nat>, a: set<nat>, c: seq<nat>) {
    n <= |f| && a == TreeBuilder.Coded(f, n) && Ready(a, n, MAX_BITS, fc, dl, c)
  }

  /** The trees have all symbols of the tokens. */
  ghost predicate Uses(ts: seq<Token>, la: set<nat>, da: set<nat>) {
    forall i :: 0 <= i < |ts| ==> InRange(ts[i]) && LitSymbol(ts[i]) in la && (ts[i].dist > 0 ==> DistCode(ts[i].dist - 1) in da)
  }

  /** Every token of the block can be sent. */
  lemma TokensCoded(ts: seq<Token>, lf: seq<nat>, lfc: seq<nat>, ldl: seq<nat>, la: set<nat>, lc: seq<nat>,
                    df: seq<nat>, dfc: seq<nat>, ddl: seq<nat>, da: set<nat>, dc: seq<nat>)
    requires AllInRange(ts) && Counted(lf, LitFreqs(ts)) && Counted(df, DistFreqs(ts))
    requires Finished(lf, L_CODES, lfc, ldl, la, lc) && Finished(df, D_CODES, dfc, ddl, da, dc)
    ensures AllCoded(ts, Codebook.Code(lfc, ldl), Codebook.Code(dfc, ddl)) && Codebook.Code(lfc, ldl).Has(END_BLOCK)
    ensures Uses(ts, la, da) && END_BLOCK in la
  {
    hide Ready, TreeBuilder.Coded, InRange, DistCode, LitSymbol, LitCount, DistCount;
    assert lf[END_BLOCK] == lf[..L_CODES][END_BLOCK];
    UsedHas(lf, L_CODES, END_BLOCK);
    ReadyHas(la, L_CODES, MAX_BITS, lfc, ldl, lc, END_BLOCK);
    forall i | 0 <= i < |ts|
      ensures Blocks.Coded(ts[i], Codebook.Code(lfc, ldl), Codebook.Code(dfc, ddl))
      ensures InRange(ts[i]) && LitSymbol(ts[i]) in la && (ts[i].dist > 0 ==> DistCode(ts[i].dist - 1) in da)
    {
      var t := ts[i];
      SymbolsInRange(t);
      LitOccurs(ts, i);
      assert lf[LitSymbol(t)] == lf[..L_CODES][LitSymbol(t)];
      UsedHas(lf, L_CODES, LitSymbol(t));
      ReadyHas(la, L_CODES, MAX_BITS, lfc, ldl, lc, LitSymbol(t));
      if t.dist > 0 {
        var n := DistCode(t.dist - 1);
        assert df[n] == df[..D_CODES][n];
        UsedHas(df, D_CODES, n);
        ReadyHas(da, D_CODES, MAX_BITS, dfc, ddl, dc, n);
      }
    }
  }

  /** The size of the body, from the frequency arrays. */
  lemma BodyCounted(ts: seq<Token>, lf: seq<nat>, df: seq<nat>, l: Codebook.Code, d: Codebook.Code, sl: seq<nat>, sd: seq<nat>)
    requires AllCoded(ts, l, d) && l.Has(END_BLOCK) && |l.len| >= L_CODES && |d.len| >= D_CODES
    requires Counted(lf, LitFreqs(ts)) && Counted(df, DistFreqs(ts))
    ensures |BodyBits(ts, l, d)|
         == SizeTo(lf, l.len, LDesc(sl).Extras(), L_CODES) + SizeTo(df, d.len, DDesc(sd).Extras(), D_CODES)
  {
    hide SizeTo, AllCoded, BodyBits, LitCount, DistCount, ExtraLbits, ExtraDbits;
    BodySize(ts, l, d);
    DescExtras(sl, sd);
    assert forall i :: 0 <= i < L_CODES ==> lf[i] == lf[..L_CODES][i];
    assert forall i :: 0 <= i < D_CODES ==> df[i] == df[..D_CODES][i];
    SizeToSame(lf, l.len, LDesc(sl).Extras(), LitFreqs(ts), l.len, LitExtras(), L_CODES);
    SizeToSame(df, d.len, DDesc(sd).Extras(), DistFreqs(ts), d.len, ExtraDbits(), D_CODES);
  }

  lemma StaticsAre(sl: seq<nat>, sd: seq<nat>, lf: seq<nat>, df: seq<nat>)
    requires |sl| >= L_CODES && |sd| >= D_CODES && |lf| >= L_CODES && |df| >= D_CODES
    ensures SizeTo(lf, LDesc(sl).Statics(), LDesc(sl).Extras(), L_CODES) == SizeTo(lf, sl, LDesc(sl).Extras(), L_CODES)
    ensures SizeTo(df, DDesc(sd).Statics(), DDesc(sd).Extras(), D_CODES) == SizeTo(df, sd, DDesc(sd).Extras(), D_CODES)
  {
    hide ExtraLbits, ExtraDbits;
    SizeToSame(lf, LDesc(sl).Statics(), LDesc(sl).Extras(), lf, sl, LDesc(sl).Extras(), L_CODES);
    SizeToSame(df, DDesc(sd).Statics(), DDesc(sd).Extras(), df, sd, DDesc(sd).Extras(), D_CODES);
  }

  /** Lengths of coded symbols are up to 15, of others 0, up to the last coded symbol. */
  lemma TreeScannable(t: Tree, f: seq<nat>, a: set<nat>, c: seq<nat>, n: nat, x0: nat)
    requires Finished(f, n, t.fc[..], t.dl[..], a, c) && Greatest(a, t.maxCode) && ZeroOutside(t.dl[..], a, n)
    requires n < t.dl.Length && x0 in a
    ensures Scannable(t) && x0 <= t.maxCode < n && t.dl[x0] != 0 && t.maxCode + 1 !in a
  {
    hide Codable, CodesSet, KraftTo, TreeBuilder.Coded;
  }

  /** The guard lies behind every coded symbol, so nothing sent depends on it. */
  lemma GuardHarmless(f: seq<nat>, n: nat, fc: seq<nat>, dl: seq<nat>, a: set<nat>, c: seq<nat>, g: nat, v: nat, e: seq<nat>)
    requires Finished(f, n, fc, dl, a, c) && g !in a && g < |dl| && n <= |e|
    ensures Finished(f, n, fc, dl[g := v], a, c)
    ensures SizeTo(f, dl[g := v], e, n) == SizeTo(f, dl, e, n)
  {
    ReadyKept(a, n, MAX_BITS, fc, dl, c, g, v);
    ReadySizes(a, n, MAX_BITS, fc, dl, c);
    hide Ready, TreeBuilder.Coded;
    forall i | 0 <= i < n && f[i] != 0
      ensures i != g
    {
      UsedHas(f, n, i);
    }
    SizeToSame(f, dl[g := v], e, f, dl, e, n);
  }

  lemma GuardBehind(dl: seq<nat>, m: int, a: set<nat>, v: nat)
    requires Exactly(dl, m, a) && m + 1 < |dl|
    ensures Exactly(dl[m + 1 := v], m, a)
  {
  }

  lemma ReadySizes(a: set<nat>, n: nat, max: nat, fc: seq<nat>, dl: seq<nat>, c: seq<nat>)
    requires Ready(a, n, max, fc, dl, c)
    ensures n <= |fc| == |dl|
  {
  }

  /** The code books of a dynamic block. */
  datatype Codes = Codes(lf: seq<nat>, la: set<nat>, lc: seq<nat>, df: seq<nat>, da: set<nat>, dc: seq<nat>, ba: set<nat>, bc: seq<nat>)

  /** The lengths up to m are those of the symbols of a, and zero elsewhere. */
  ghost predicate Exactly(dl: seq<nat>, m: int, a: set<nat>) {
    && 0 <= m < |dl| && (forall i :: 0 <= i <= m ==> (dl[i] != 0 <==> i in a)) && forall i :: i in a ==> i <= m
  }

  lemma ExactlyNow(f: seq<nat>, n: nat, fc: seq<nat>, dl: seq<nat>, a: set<nat>, c: seq<nat>, m: int)
    requires Finished(f, n, fc, dl, a, c) && Greatest(a, m) && ZeroOutside(dl, a, n) && 0 <= m < n
    ensures Exactly(dl, m, a)
  {
    hide TreeBuilder.Coded, KraftTo, Codable, CodesSet;
  }

  /** Both trees are finished for the tokens. */
  ghost predicate TreesFinished(lt: Tree, dt: Tree, k: Codes)
    reads lt, dt, lt.fc, lt.dl, dt.fc, dt.dl
  {
    && Exactly(lt.dl[..], lt.maxCode, k.la) && Exactly(dt.dl[..], dt.maxCode, k.da)
    && Finished(k.lf, L_CODES, lt.fc[..], lt.dl[..], k.la, k.lc)
    && Finished(k.df, D_CODES, dt.fc[..], dt.dl[..], k.da, k.dc)
  }

  /** build_tree for literals and distances. */
  method BuildBoth(s: State, lt: Tree, dt: Tree, bt: Tree, ghost ts: seq<Token>, ghost sl: seq<nat>, ghost sd: seq<nat>)
    returns (ghost k: Codes)
    requires Distinct(s, lt, dt, bt) && |sl| >= L_CODES && |sd| >= D_CODES && lt.desc == LDesc(sl) && dt.desc == DDesc(sd)
    requires AllInRange(ts) && |ts| <= 0x8000 && Counted(lt.fc[..], LitFreqs(ts)) && Counted(dt.fc[..], DistFreqs(ts))
    modifies s, s.heap, s.depth, s.blCount, lt`maxCode, lt.fc, lt.dl, dt`maxCode, dt.fc, dt.dl
    ensures k.lf == old(lt.fc[..]) && k.df == old(dt.fc[..]) && TreesFinished(lt, dt, k)
    ensures Scannable(lt) && Scannable(dt) && END_BLOCK <= lt.maxCode < L_CODES && 1 <= dt.maxCode < D_CODES
    ensures lt.dl[END_BLOCK] != 0 && lt.maxCode + 1 !in k.la && dt.maxCode + 1 !in k.da
    ensures s.optLen == old(s.optLen) + SizeTo(k.lf, lt.dl[..], LDesc(sl).Extras(), L_CODES)
                                      + SizeTo(k.df, dt.dl[..], DDesc(sd).Extras(), D_CODES)
    ensures s.staticLen == old(s.staticLen) + SizeTo(k.lf, sl, LDesc(sl).Extras(), L_CODES)
                                            + SizeTo(k.df, sd, DDesc(sd).Extras(), D_CODES)
  {
    hide Counted, SumTo, SizeTo, Ready, TreeBuilder.Coded, Greatest, ZeroOutside, Used, InRange, LDesc, DDesc, Exactly;
    ghost var lf, df := lt.fc[..], dt.fc[..];
    CountedTotals(lf, df, ts);
    DescFacts(sl, sd);
    ghost var la, lc := BuildOne(s, lt);
    ghost var da, dc := BuildOne(s, dt);
    k := Codes(lf, la, lc, df, da, dc, {}, []);
    EndUsed(lf, ts);
    TreeScannable(lt, lf, la, lc, L_CODES, END_BLOCK);
    ghost var x := TwoDistances(df);
    TreeScannable(dt, df, da, dc, D_CODES, x);
    ExactlyNow(lf, L_CODES, lt.fc[..], lt.dl[..], la, lc, lt.maxCode);
    ExactlyNow(df, D_CODES, dt.fc[..], dt.dl[..], da, dc, dt.maxCode);
    StaticsAre(sl, sd, lf, df);
  }

  lemma DescFacts(sl: seq<nat>, sd: seq<nat>)
    ensures LDesc(sl).elems == L_CODES && LDesc(sl).maxLength == MAX_BITS && LDesc(sl).lengths.Some?
    ensures DDesc(sd).elems == D_CODES && DDesc(sd).maxLength == MAX_BITS && DDesc(sd).lengths.Some?
    ensures LDesc(sl).Size() == 573 && DDesc(sd).Size() == 61
  {
  }

  lemma EndUsed(lf: seq<nat>, ts: seq<Token>)
    requires Counted(lf, LitFreqs(ts))
    ensures |lf| >= L_CODES && END_BLOCK in TreeBuilder.Coded(lf, L_CODES)
  {
    assert lf[END_BLOCK] == lf[..L_CODES][END_BLOCK];
    UsedHas(lf, L_CODES, END_BLOCK);
  }

  /** At least two distances have codes, so the last of them is not the first symbol. */
  lemma TwoDistances(df: seq<nat>) returns (x: nat)
    requires |df| >= D_CODES
    ensures x in TreeBuilder.Coded(df, D_CODES) && x >= 1
  {
    var u := Used(df, D_CODES);
    var a := TreeBuilder.Coded(df, D_CODES);
    ForcedFew(u);
    if a <= {0} {
      SubsetOfZero(a);
      ForcedEnough(u);
      assert false;
    }
    x :| x in a && x != 0;
  }

  lemma SubsetOfZero(a: set<nat>)
    requires a <= {0}
    ensures |a| <= 1
  {
    if 0 in a { assert a == {0}; } else { assert a == {}; }
  }

  lemma ForcedEnough(u: set<nat>)
    ensures |u + Forced(u)| >= 2
  {
    ForcedTwo(u);
    if Forced(u) == {} {
      assert u + {} == u;
    }
  }

  // ----- sending the trees

  /** The lengths of the bit length codes, three bits each. */
  function BlLens(dl: seq<nat>, n: nat): seq<bool>
    requires n <= CodeLengths.BL_CODES <= |dl|
  {
    if n == 0 then []
    else
      BlLens(dl, n - 1) + LowBits(dl[BlSymbol(n - 1)], 3)
  }

  lemma {:induction false} BlLensSize(dl: seq<nat>, n: nat)
    requires n <= CodeLengths.BL_CODES <= |dl|
    ensures |BlLens(dl, n)| == 3 * n
  {
    if n > 0 {
      BlLensSize(dl, n - 1);
    }
  }

  /** The r-th of them is that of the repeats and 0 first, then of 8, 7, 9, 6 and so on outwards. */
  lemma {:induction false} BlLensAt(dl: seq<nat>, n: nat, r: nat)
    requires r < n <= 19 <= |dl|
    ensures |BlLens(dl, n)| == 3 * n
    ensures BlLens(dl, n)[3 * r..3 * r + 3]
         == LowBits(dl[if r < 3 then 16 + r else if r == 3 then 0 else if r % 2 == 0 then 8 + (r - 4) / 2 else 8 - (r - 3) / 2], 3)
  {
    BlLensSize(dl, n);
    if r < n - 1 {
      BlLensAt(dl, n - 1, r);
    }
    hide LowBits;
  }

  /** The counts at the head of a dynamic block. */
  function Counts3(lcodes: nat, dcodes: nat, blcodes: nat): (b: seq<bool>)
    requires 257 <= lcodes && 1 <= dcodes && 4 <= blcodes
    ensures |b| == 14
  {
    (LowBits(lcodes - 257, 5) + LowBits(dcodes - 1, 5)) + LowBits(blcodes - 4, 4)
  }

  method SendCounts(w: BitWriter, lcodes: nat, dcodes: nat, blcodes: nat)
    requires w.Valid() && 257 <= lcodes <= L_CODES && 1 <= dcodes <= D_CODES && 4 <= blcodes <= CodeLengths.BL_CODES
    modifies w
    ensures w.Valid() && w.Bits() == old(w.Bits()) + Counts3(lcodes, dcodes, blcodes)
  {
    PowSmall();
    hide LowBits, Pow2, w.Bits, w.Valid;
    ghost var before := w.Bits();
    w.SendBits(lcodes - 257, 5);
    w.SendBits(dcodes - 1, 5);
    w.SendBits(blcodes - 4, 4);
    CodeLengths.Joined(before, LowBits(lcodes - 257, 5), LowBits(dcodes - 1, 5), LowBits(blcodes - 4, 4));
    assert w.Bits() == before + (LowBits(lcodes - 257, 5) + (LowBits(dcodes - 1, 5) + LowBits(blcodes - 4, 4)));
    assert LowBits(lcodes - 257, 5) + (LowBits(dcodes - 1, 5) + LowBits(blcodes - 4, 4)) == Counts3(lcodes, dcodes, blcodes);
  }

  method SendBlLens(w: BitWriter, dl: array<nat>, blcodes: nat)
    requires w.Valid() && blcodes <= CodeLengths.BL_CODES <= dl.Length
    requires forall c :: 0 <= c < CodeLengths.BL_CODES ==> dl[c] <= 7
    modifies w
    ensures w.Valid() && w.Bits() == old(w.Bits()) + BlLens(dl[..], blcodes)
  {
    hide LowBits, Pow2, BlSymbol;
    ghost var before, l := w.Bits(), dl[..];
    PowSmall();
    assert before + [] == before;
    var order := BlOrder();
    var rank: nat := 0;
    while rank < blcodes
      invariant rank <= blcodes && w.Valid() && l == dl[..] && w.Bits() == before + BlLens(l, rank)
    {
      w.SendBits(dl[order[rank]], 3);
      assert (before + BlLens(l, rank)) + LowBits(l[order[rank]], 3) == before + (BlLens(l, rank) + LowBits(l[order[rank]], 3));
      rank := rank + 1;
    }
  }

  /** What a dynamic block is made with: both code books, their last symbols, the bit length codes. */
  datatype Trees = Trees(l: Codebook.Code, lmax: int, d: Codebook.Code, dmax: int, bl: Codebook.Code, blcodes: nat) {
    ghost predicate Sized() {
      && 256 <= lmax && lmax + 1 < |l.len| && 0 <= dmax && dmax + 1 < |d.len|
      && 4 <= blcodes <= CodeLengths.BL_CODES <= |bl.len|
    }

    /** Counts, lengths of the bit length codes, and both trees. */
    ghost function Header(): (h: seq<bool>)
      requires Sized()
    {
      (Counts3(lmax + 1, dmax + 1, blcodes) + BlLens(bl.len, blcodes))
      + CodeLengths.SymsBits(TreeSyms(l.len, lmax) + TreeSyms(d.len, dmax), bl)
    }

    /** The whole block after its type. */
    ghost function Block(ts: seq<Token>): seq<bool>
      requires Sized()
    {
      Header() + BodyBits(ts, l, d)
    }
  }

  ghost function TreesNow(lt: Tree, dt: Tree, bt: Tree, blcodes: nat): Trees
    reads lt, dt, lt.dl, lt.fc, dt.dl, dt.fc, bt.dl, bt.fc
  {
    Trees(Book(lt), lt.maxCode, Book(dt), dt.maxCode, Book(bt), blcodes)
  }

  ghost function HeaderBits(lt: Tree, dt: Tree, bt: Tree, blcodes: nat): seq<bool>
    requires TreesNow(lt, dt, bt, blcodes).Sized()
    reads lt, dt, lt.fc, dt.fc, lt.dl, dt.dl, bt.dl, bt.fc
  {
    TreesNow(lt, dt, bt, blcodes).Header()
  }

  /** send_all_trees */
  method SendAllTrees(w: BitWriter, lt: Tree, dt: Tree, bt: Tree, blcodes: nat)
    requires w.Valid() && Scanned(lt) && Scanned(dt) && END_BLOCK <= lt.maxCode < L_CODES && 0 <= dt.maxCode < D_CODES
    requires 4 <= blcodes <= CodeLengths.BL_CODES <= bt.dl.Length
    requires forall c :: 0 <= c < CodeLengths.BL_CODES ==> bt.dl[c] <= 7
    requires CodeLengths.Sendable(BothSyms(lt, dt), Book(bt))
    modifies w
    ensures w.Valid() && w.Bits() == old(w.Bits()) + HeaderBits(lt, dt, bt, blcodes)
  {
    hide Counts3, BlLens, CodeLengths.SymsBits, CodeLengths.Guarded, CodeLengths.Sendable, w.Bits, w.Valid, CodeLengths.Send;
    ghost var before, ls, ds := w.Bits(), TreeSyms(lt.dl[..], lt.maxCode), TreeSyms(dt.dl[..], dt.maxCode);
    ghost var book := Book(bt);
    SendCounts(w, lt.maxCode + 1, dt.maxCode + 1, blcodes);
    SendBlLens(w, bt.dl, blcodes);
    SendableParts(ls, ds, book);
    CodeLengths.SymsBitsConcat(ls, ds, book);
    CodeLengths.SendTree(w, bt.fc, bt.dl, lt.dl, lt.maxCode);
    CodeLengths.SendTree(w, bt.fc, bt.dl, dt.dl, dt.maxCode);
    ghost var x, y := Counts3(lt.maxCode + 1, dt.maxCode + 1, blcodes), BlLens(bt.dl[..], blcodes);
    ghost var p, q := CodeLengths.SymsBits(ls, book), CodeLengths.SymsBits(ds, book);
    assert (((before + x) + y) + p) + q == before + ((x + y) + (p + q));
  }

  lemma SendableParts(ls: seq<CodeLengths.Sym>, ds: seq<CodeLengths.Sym>, book: Codebook.Code)
    requires CodeLengths.Sendable(ls + ds, book)
    ensures CodeLengths.Sendable(ls, book) && CodeLengths.Sendable(ds, book)
  {
    hide CodeLengths.Fits;
    forall s | s in ls || s in ds
      ensures CodeLengths.Fits(s) && book.Has(s.code)
    {
      assert s in ls + ds;
    }
  }

  lemma HeaderSize(lt: Tree, dt: Tree, bt: Tree, blcodes: nat)
    requires TreesNow(lt, dt, bt, blcodes).Sized()
    ensures |HeaderBits(lt, dt, bt, blcodes)| == 14 + 3 * blcodes + |CodeLengths.SymsBits(BothSyms(lt, dt), Book(bt))|
  {
    BlLensSize(bt.dl[..], blcodes);
  }

  /** All trees are ready to be sent and used, and optLen is the number of bits that this takes. */
  ghost predicate TreesBuilt(lt: Tree, dt: Tree, bt: Tree, ts: seq<Token>, maxBlindex: nat, optLen: int)
    reads lt, dt, lt.fc, lt.dl, dt.fc, dt.dl, bt.fc, bt.dl
  {
    && Scanned(lt) && Scanned(dt) && END_BLOCK <= lt.maxCode < L_CODES && 1 <= dt.maxCode < D_CODES
    && LastBl(bt.dl[..], maxBlindex) && (forall c :: 0 <= c < CodeLengths.BL_CODES && c < bt.dl.Length ==> bt.dl[c] <= 7)
    && CodeLengths.Sendable(BothSyms(lt, dt), Book(bt))
    && AllCoded(ts, Book(lt), Book(dt)) && Book(lt).Has(END_BLOCK)
    && optLen == |BodyBits(ts, Book(lt), Book(dt))| + |CodeLengths.SymsBits(BothSyms(lt, dt), Book(bt))|
                 + 3 * (maxBlindex + 1) + 5 + 5 + 4
  }

  lemma MiddlePart(a: seq<bool>, b: seq<bool>, c: seq<bool>, i: nat, n: nat)
    requires i + n <= |b|
    ensures ((a + b) + c)[|a| + i..|a| + i + n] == b[i..i + n]
  {
  }

  lemma LeadingPart(a: seq<bool>, b: seq<bool>, i: nat, j: nat)
    requires i <= j <= |a|
    ensures (a + b)[i..j] == a[i..j]
  {
  }

  /** In the header of a dynamic block the length of each bit length code has its place behind the counts. */
  lemma HeaderAt(x: Trees, r: nat)
    requires x.Sized() && r < x.blcodes
    ensures |x.Header()| >= 14 + 3 * x.blcodes
    ensures x.Header()[..5] == LowBits(x.lmax - 256, 5) && x.Header()[5..10] == LowBits(x.dmax, 5)
    ensures x.Header()[10..14] == LowBits(x.blcodes - 4, 4)
    ensures x.Header()[14 + 3 * r..17 + 3 * r]
         == LowBits(x.bl.len[if r < 3 then 16 + r else if r == 3 then 0 else if r % 2 == 0 then 8 + (r - 4) / 2 else 8 - (r - 3) / 2], 3)
  {
    hide BlLens, CodeLengths.SymsBits, TreeSyms, LowBits, BlSymbol;
    BlLensAt(x.bl.len, x.blcodes, r);
    var counts, lens := Counts3(x.lmax + 1, x.dmax + 1, x.blcodes), BlLens(x.bl.len, x.blcodes);
    var syms := CodeLengths.SymsBits(TreeSyms(x.l.len, x.lmax) + TreeSyms(x.d.len, x.dmax), x.bl);
    MiddlePart(counts, lens, syms, 3 * r, 3);
    LeadingPart(counts, lens + syms, 0, 5);
    LeadingPart(counts, lens + syms, 5, 10);
    LeadingPart(counts, lens + syms, 10, 14);
    assert x.Header() == counts + (lens + syms);
  }

  lemma BuiltSize(lt: Tree, dt: Tree, bt: Tree, ts: seq<Token>, maxBlindex: nat, optLen: int)
    requires TreesBuilt(lt, dt, bt, ts, maxBlindex, optLen)
    ensures TreesNow(lt, dt, bt, maxBlindex + 1).Sized() && |TreesNow(lt, dt, bt, maxBlindex + 1).Block(ts)| == optLen
  {
    hide BodyBits, AllCoded, CodeLengths.Sendable, CodeLengths.Guarded, CodeLengths.SymsBits, Codebook.Code.Has, BlSymbol, BlLens, Counts3;
    HeaderSize(lt, dt, bt, maxBlindex + 1);
  }

  /** The bits of a dynamic block after its type: the trees, then the tokens. */
  ghost function DynamicBits(lt: Tree, dt: Tree, bt: Tree, ts: seq<Token>, maxBlindex: nat, optLen: int): (b: seq<bool>)
    requires TreesBuilt(lt, dt, bt, ts, maxBlindex, optLen)
    reads lt, dt, lt.fc, lt.dl, dt.fc, dt.dl, bt.fc, bt.dl
    ensures |b| == optLen
  {
    hide *;
    BuiltSize(lt, dt, bt, ts, maxBlindex, optLen);
    TreesNow(lt, dt, bt, maxBlindex + 1).Block(ts)
  }

  lemma BuiltParts(lt: Tree, dt: Tree, bt: Tree, ts: seq<Token>, maxBlindex: nat, optLen: int)
    requires TreesBuilt(lt, dt, bt, ts, maxBlindex, optLen)
    ensures Scanned(lt) && Scanned(dt) && END_BLOCK <= lt.maxCode < L_CODES && 0 <= dt.maxCode < D_CODES
    ensures 4 <= maxBlindex + 1 <= CodeLengths.BL_CODES <= bt.dl.Length
    ensures forall c :: 0 <= c < CodeLengths.BL_CODES ==> bt.dl[c] <= 7
    ensures CodeLengths.Sendable(BothSyms(lt, dt), Book(bt)) && AllCoded(ts, Book(lt), Book(dt)) && Book(lt).Has(END_BLOCK)
    ensures Book(lt) == Codebook.Code(lt.fc[..], lt.dl[..]) && Book(dt) == Codebook.Code(dt.fc[..], dt.dl[..])
    ensures TreesNow(lt, dt, bt, maxBlindex + 1).Sized()
    ensures DynamicBits(lt, dt, bt, ts, maxBlindex, optLen)
         == HeaderBits(lt, dt, bt, maxBlindex + 1) + BodyBits(ts, Book(lt), Book(dt))
  {
    hide BodyBits, AllCoded, CodeLengths.Sendable, CodeLengths.Guarded, Trees.Header, CodeLengths.SymsBits, Codebook.Code.Has;
  }

  /** Sending them: send_all_trees and compress_block. */
  method SendDynamicBlock(w: BitWriter, tables: Tables, dBuf: array<nat>, lBuf: array<nat>, lastLit: nat,
                          lt: Tree, dt: Tree, bt: Tree, maxBlindex: nat, ghost optLen: int) returns (lastEobLen: nat)
    requires w.Valid() && tables.Valid() && lastLit <= dBuf.Length && lastLit <= lBuf.Length
    requires TreesBuilt(lt, dt, bt, Tokens(dBuf[..], lBuf[..], lastLit), maxBlindex, optLen)
    requires lt.fc.Length == lt.dl.Length && dt.fc.Length == dt.dl.Length
    modifies w
    ensures w.Valid()
    ensures w.Bits() == old(w.Bits()) + DynamicBits(lt, dt, bt, Tokens(dBuf[..], lBuf[..], lastLit), maxBlindex, optLen)
  {
    hide *;
    ghost var before := w.Bits();
    BuiltParts(lt, dt, bt, Tokens(dBuf[..], lBuf[..], lastLit), maxBlindex, optLen);
    SendAllTrees(w, lt, dt, bt, maxBlindex + 1);
    lastEobLen := CompressBlock(w, tables, dBuf, lBuf, lastLit, lt.fc, lt.dl, dt.fc, dt.dl);
    ghost var ts := Tokens(dBuf[..], lBuf[..], lastLit);
    assert (before + HeaderBits(lt, dt, bt, maxBlindex + 1)) + BodyBits(ts, Book(lt), Book(dt))
        == before + (HeaderBits(lt, dt, bt, maxBlindex + 1) + BodyBits(ts, Book(lt), Book(dt)));
  }

  /** build_tree twice and build_bl_tree: optLen is the size of a dynamic block, staticLen that of a static one. */
  method BuildTrees(s: State, lt: Tree, dt: Tree, bt: Tree, ghost ts: seq<Token>, ghost sl: Codebook.Code, ghost sd: Codebook.Code)
    returns (maxBlindex: nat, ghost k: Codes)
    requires Distinct(s, lt, dt, bt) && |sl.len| >= L_CODES && |sd.len| >= D_CODES
    requires lt.desc == LDesc(sl.len) && dt.desc == DDesc(sd.len) && bt.desc == BlDesc()
    requires AllInRange(ts) && |ts| <= 0x8000 && Counted(lt.fc[..], LitFreqs(ts)) && Counted(dt.fc[..], DistFreqs(ts))
    requires forall c :: 0 <= c < CodeLengths.BL_CODES ==> bt.fc[c] == 0
    requires AllCoded(ts, sl, sd) && sl.Has(END_BLOCK) && s.optLen == 0 && s.staticLen == 0
    modifies s, s.heap, s.depth, s.blCount, lt`maxCode, lt.fc, lt.dl, dt`maxCode, dt.fc, dt.dl, bt`maxCode, bt.fc, bt.dl
    ensures TreesFinished(lt, dt, k) && TreesBuilt(lt, dt, bt, ts, maxBlindex, s.optLen) && Uses(ts, k.la, k.da) && END_BLOCK in k.la
    ensures BlReady(bt.fc[..], bt.dl[..], k.ba, k.bc)
    ensures s.staticLen == |BodyBits(ts, sl, sd)|
  {
    hide *;
    DistinctParts(s, lt, dt, bt);
    k := BuildBoth(s, lt, dt, bt, ts, sl.len, sd.len);
    ghost var ldl, ddl := lt.dl[..], dt.dl[..];
    FinishedParts(lt, dt, k);
    ghost var a, c;
    maxBlindex, a, c := BuildBlTree(s, lt, dt, bt, END_BLOCK);
    k := k.(ba := a, bc := c);
    GuardsHarmless(k, ts, lt.fc[..], ldl, lt.maxCode, dt.fc[..], ddl, dt.maxCode, sl.len, sd.len);
    BodyCounted(ts, k.lf, k.df, sl, sd, sl.len, sd.len);
    AllBuilt(lt, dt, bt, k, ts, maxBlindex, s.optLen);
  }

  lemma DistinctParts(s: State, lt: Tree, dt: Tree, bt: Tree)
    requires Distinct(s, lt, dt, bt) && bt.desc == BlDesc()
    ensures lt != dt && lt != bt && dt != bt && bt.fc !in {s.heap, s.depth, s.blCount, lt.fc, lt.dl, dt.fc, dt.dl}
    ensures lt.fc !in {s.heap, s.depth, s.blCount, lt.dl, dt.dl, bt.fc, bt.dl}
    ensures dt.fc !in {s.heap, s.depth, s.blCount, lt.dl, dt.dl, bt.fc, bt.dl}
    ensures bt.fc.Length == bt.dl.Length >= CodeLengths.BL_CODES
  {
    BlDescFacts();
    hide LDesc, DDesc, BlDesc;
  }

  lemma FinishedParts(lt: Tree, dt: Tree, k: Codes)
    requires TreesFinished(lt, dt, k) && Scannable(lt) && Scannable(dt)
    ensures Exactly(lt.dl[..], lt.maxCode, k.la) && Exactly(dt.dl[..], dt.maxCode, k.da)
    ensures Finished(k.lf, L_CODES, lt.fc[..], lt.dl[..], k.la, k.lc) && Finished(k.df, D_CODES, dt.fc[..], dt.dl[..], k.da, k.dc)
    ensures 0 <= lt.maxCode && lt.maxCode + 1 < lt.dl.Length && 0 <= dt.maxCode && dt.maxCode + 1 < dt.dl.Length
  {
    hide Finished;
  }

  lemma AllBuilt(lt: Tree, dt: Tree, bt: Tree, k: Codes, ts: seq<Token>, maxBlindex: nat, optLen: int)
    requires Exactly(lt.dl[..], lt.maxCode, k.la) && Exactly(dt.dl[..], dt.maxCode, k.da)
    requires Finished(k.lf, L_CODES, lt.fc[..], lt.dl[..], k.la, k.lc) && Finished(k.df, D_CODES, dt.fc[..], dt.dl[..], k.da, k.dc)
    requires Scanned(lt) && Scanned(dt) && END_BLOCK <= lt.maxCode < L_CODES && 1 <= dt.maxCode < D_CODES
    requires LastBl(bt.dl[..], maxBlindex) && bt.dl.Length >= CodeLengths.BL_CODES
    requires forall c :: 0 <= c < CodeLengths.BL_CODES ==> bt.dl[c] <= 7
    requires CodeLengths.Sendable(BothSyms(lt, dt), Book(bt))
    requires AllCoded(ts, Codebook.Code(lt.fc[..], lt.dl[..]), Codebook.Code(dt.fc[..], dt.dl[..]))
    requires Codebook.Code(lt.fc[..], lt.dl[..]).Has(END_BLOCK)
    requires optLen == |BodyBits(ts, Codebook.Code(lt.fc[..], lt.dl[..]), Codebook.Code(dt.fc[..], dt.dl[..]))|
                       + |CodeLengths.SymsBits(BothSyms(lt, dt), Book(bt))| + 3 * (maxBlindex + 1) + 5 + 5 + 4
    ensures TreesFinished(lt, dt, k) && TreesBuilt(lt, dt, bt, ts, maxBlindex, optLen)
  {
    hide Finished, Exactly, AllCoded, LastBl, CodeLengths.Sendable, CodeLengths.SymsBits, BodyBits, TreeSyms, CodeLengths.Guarded,
      Codebook.Code.Has;
  }

  /** The guards that scan_tree writes behind the lengths change no code. */
  lemma GuardsHarmless(k: Codes, ts: seq<Token>, lfc: seq<nat>, ldl: seq<nat>, lm: nat, dfc: seq<nat>, ddl: seq<nat>, dm: nat,
                       sl: seq<nat>, sd: seq<nat>)
    requires Finished(k.lf, L_CODES, lfc, ldl, k.la, k.lc) && Finished(k.df, D_CODES, dfc, ddl, k.da, k.dc)
    requires Exactly(ldl, lm, k.la) && Exactly(ddl, dm, k.da) && lm + 1 !in k.la && dm + 1 !in k.da
    requires lm + 1 < |ldl| && dm + 1 < |ddl| && AllInRange(ts) && Counted(k.lf, LitFreqs(ts)) && Counted(k.df, DistFreqs(ts))
    ensures var l, d := ldl[lm + 1 := CodeLengths.GUARD], ddl[dm + 1 := CodeLengths.GUARD];
            && Finished(k.lf, L_CODES, lfc, l, k.la, k.lc) && Finished(k.df, D_CODES, dfc, d, k.da, k.dc)
            && Exactly(l, lm, k.la) && Exactly(d, dm, k.da) && Uses(ts, k.la, k.da) && END_BLOCK in k.la
            && AllCoded(ts, Codebook.Code(lfc, l), Codebook.Code(dfc, d)) && Codebook.Code(lfc, l).Has(END_BLOCK)
            && |k.lf| >= L_CODES && |k.df| >= D_CODES && |ldl| >= L_CODES && |ddl| >= D_CODES
            && |BodyBits(ts, Codebook.Code(lfc, l), Codebook.Code(dfc, d))|
            == SizeTo(k.lf, ldl, LDesc(sl).Extras(), L_CODES) + SizeTo(k.df, ddl, DDesc(sd).Extras(), D_CODES)
  {
    hide *;
    var l, d := ldl[lm + 1 := CodeLengths.GUARD], ddl[dm + 1 := CodeLengths.GUARD];
    FinishedSizes(k.lf, L_CODES, lfc, ldl, k.la, k.lc);
    FinishedSizes(k.df, D_CODES, dfc, ddl, k.da, k.dc);
    ExtrasSizes(sl, sd);
    GuardHarmless(k.lf, L_CODES, lfc, ldl, k.la, k.lc, lm + 1, CodeLengths.GUARD, LDesc(sl).Extras());
    GuardHarmless(k.df, D_CODES, dfc, ddl, k.da, k.dc, dm + 1, CodeLengths.GUARD, DDesc(sd).Extras());
    GuardBehind(ldl, lm, k.la, CodeLengths.GUARD);
    GuardBehind(ddl, dm, k.da, CodeLengths.GUARD);
    TokensCoded(ts, k.lf, lfc, l, k.la, k.lc, k.df, dfc, d, k.da, k.dc);
    BodyCounted(ts, k.lf, k.df, Codebook.Code(lfc, l), Codebook.Code(dfc, d), sl, sd);
  }

  lemma FinishedSizes(f: seq<nat>, n: nat, fc: seq<nat>, dl: seq<nat>, a: set<nat>, c: seq<nat>)
    requires Finished(f, n, fc, dl, a, c)
    ensures n <= |f| && n <= |fc| == |dl|
  {
    ReadySizes(a, n, MAX_BITS, fc, dl, c);
  }

  lemma ExtrasSizes(sl: seq<nat>, sd: seq<nat>)
    ensures |LDesc(sl).Extras()| >= L_CODES && |DDesc(sd).Extras()| >= D_CODES
  {
  }
}
