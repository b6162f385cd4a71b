/**
 What the tables of huft_build decode.  Following the links on any lookahead leads to the one
 symbol whose code word the lookahead starts with, and uses up just that word.  That holds
 exactly if no code skips a table, which all sets of codes in Deflate satisfy.
 */
module HuftDecoding {
  import opened Arith
  import opened Bits
  import opened BitOrder
  import opened Sums
  import opened HuffmanTheory
  import opened LengthRepair
  import opened CanonicalCodes
  import opened HuftTheory
  import opened HuftState
  import opened HuftPlacing
  import opened HuftBuilding
  import opened HuftTrees

  // ----- when no code skips a table

  lemma {:induction false} TailShares(c: seq<nat>, g: nat, k: nat, n: nat)
    requires k <= n <= g + 1 && n <= |c|
    ensures KraftTo(c, g, k) <= KraftTo(c, g, n) && Total(c, k) <= Total(c, n)
    ensures k <= g ==> KraftTo(c, g, n) - KraftTo(c, g, k) <= (Total(c, n) - Total(c, k)) * Pow2(g - k)
  {
    if k < n {
      TailShares(c, g, k, n - 1);
      Pow2Monotone(g - (n - 1), g - k);
      MulLe(c[n - 1], Pow2(g - (n - 1)), c[n - 1], Pow2(g - k));
      MulAdd(Pow2(g - k), Total(c, n - 1) - Total(c, k), c[n - 1]);
    }
  }

  /** A code that skips a table has at least 2^(l + 1) codes behind it. */
  lemma SkipNeedsMany(f: Plan, k: nat, fwd: nat, t: nat)
    requires f.Valid() && f.IsCode(k, fwd) && t >= 1 && f.l * t < k && Low(fwd, k - f.l * t) == 0 && k > f.l * (t + 1)
    ensures Total(f.c, f.g + 1) >= Pow2(f.l + 1)
  {
    hide KraftTo, NextCode, Pow2, High, Low, Total;
    var w := f.l * t;
    ProductStep(f.l, t);
    CodePlace(f, k, fwd);
    SpanInside(f, k, fwd, w);
    TailShares(f.c, f.g, k, f.g + 1);
    Pow2Add(k - w, f.g - k);
    Pow2Monotone(f.l + 1, k - w);
    hide Pos;
    Few(Total(f.c, f.g + 1) - Total(f.c, k), Pow2(f.g - k), Pow2(k - w));
  }

  /** The codes with the prefix take up 2^(g - w) from the first of them on. */
  lemma SpanInside(f: Plan, k: nat, fwd: nat, w: nat)
    requires f.Valid() && f.IsCode(k, fwd) && w <= k && Low(fwd, k - w) == 0
    ensures f.At(k, fwd) + Pow2(f.g - w) <= KraftTo(f.c, f.g, f.g + 1)
  {
    hide KraftTo, NextCode, High, Low, Pow2;
    CodesInside(f, k, fwd);
    PosNest(fwd, k, w, f.g);
    Pow2Add(w, f.g - w);
    var p := High(fwd, k - w);
    PosMono(p, Pow2(w), w, f.g);
    PosMono(p + 1, Pow2(w), w, f.g);
    PosMono(p, p, w, f.g);
  }

  lemma Few(n: nat, p: nat, q: nat)
    requires p > 0 && n * p >= q * p
    ensures n >= q
  {
    if n < q {
      MulLess(n, q, p);
    }
  }

  /** So sets of fewer codes never do. */
  lemma FewNeverSkip(f: Plan)
    requires f.Valid() && Total(f.c, f.g + 1) < Pow2(f.l + 1)
    ensures NoSkip(f)
  {
    hide KraftTo, NextCode, Pow2, High, Low, Pos, Total, Plan.Valid, Plan.IsCode;
    forall k: nat, fwd: nat | f.IsCode(k, fwd)
      ensures NoSkipAt(f, k, fwd)
    {
      forall t: nat | t >= 1 && f.l * t < k && Low(fwd, k - f.l * t) == 0
        ensures k <= f.l * (t + 1)
      {
        if k > f.l * (t + 1) {
          SkipNeedsMany(f, k, fwd, t);
        }
      }
    }
  }

  /** Nor do those that need no third table. */
  lemma TwoLevelsNeverSkip(f: Plan)
    requires f.g <= 2 * f.l
    ensures NoSkip(f)
  {
    hide NextCode, High, Low;
    forall k: nat, fwd: nat | f.IsCode(k, fwd)
      ensures NoSkipAt(f, k, fwd)
    {
      forall t: nat | t >= 1 && f.l * t < k && Low(fwd, k - f.l * t) == 0
        ensures k <= f.l * (t + 1)
      {
        MulLe(f.l, 2, f.l, t + 1);
      }
    }
  }

  /** The codes of complete lengths are as many as the symbols. */
  lemma CompleteTotal(f: Plan, lens: seq<nat>)
    requires f.Valid() && f.g <= BMAX && Counts(Symbols(lens), lens, f.c) && forall n :: n in Symbols(lens) ==> lens[n] <= f.g
    ensures Total(f.c, f.g + 1) <= |lens|
  {
    var a := Symbols(lens);
    KraftByCounts(a, lens, f.c, f.g);
    SymbolsFew(lens, |lens|);
  }

  lemma {:induction false} SymbolsFew(lens: seq<nat>, n: nat)
    requires n <= |lens|
    ensures |Used(lens, n)| <= n
  {
    if n > 0 {
      SymbolsFew(lens, n - 1);
      UsedNext(lens, n - 1);
    }
  }

  /** The sets that Deflate has tables built for: literals and lengths with m = 9, distances with 6, code lengths with 7. */
  lemma CallersNeverSkip(f: Plan, lens: seq<nat>, m: nat)
    requires f.Valid() && f.g <= BMAX && Counts(Symbols(lens), lens, f.c) && Sized(lens, m, f.l, f.g)
    requires (m == 9 && |lens| <= N_MAX) || (m == 6 && |lens| <= 30) || (m == 7 && |lens| <= 19)
    ensures NoSkip(f)
  {
    hide NoSkip, Plan.Valid, Counts, KraftTo, Total;
    if f.l < m {
      TwoLevelsNeverSkip(f);
    } else {
      CompleteTotal(f, lens);
      Pow2Monotone(m + 1, f.l + 1);
      PowTens();
      FewNeverSkip(f);
    }
  }

  lemma PowTens()
    ensures Pow2(7) == 128 && Pow2(8) == 256 && Pow2(10) == 1024
  {
    Pow2Values();
  }

  /** But lengths 1, 3, 3, 3, 3 with tables of one bit do: after the first code the next is two tables away. */
  lemma SkippingPlan(f: Plan)
    requires |f.c| > 3 && f.c[0] == 0 && f.c[1] == 1 && f.c[2] == 0 && f.c[3] == 4 && f.g == 3 && f.l == 1
    ensures !NoSkip(f)
  {
    assert NextCode(f.c, 1) == 0 && NextCode(f.c, 2) == 2 && NextCode(f.c, 3) == 4;
    assert f.IsCode(3, 4);
    HighLowUnique(0, 1, 2);
    assert !NoSkipAt(f, 3, 4) by {
      assert f.l * 1 < 3 && Low(4, 3 - f.l * 1) == 0 && 3 > f.l * (1 + 1);
    }
  }

  /** These lengths are complete. */
  lemma SkippingLengths(lens: seq<nat>)
    requires lens == [1, 3, 3, 3, 3]
    ensures CountAt(Symbols(lens), lens, 0) == 0 && CountAt(Symbols(lens), lens, 1) == 1
    ensures CountAt(Symbols(lens), lens, 2) == 0 && CountAt(Symbols(lens), lens, 3) == 4
    ensures Symbols(lens) != {} && Kraft(Symbols(lens), lens, BMAX) == Pow2(BMAX)
  {
    assert Symbols(lens) == {0, 1, 2, 3, 4};
    hide Symbols;
    forall k: nat
      ensures CountAt(Symbols(lens), lens, k) == (if k == 1 then 1 else 0) + (if k == 3 then 4 else 0)
    {
      FiveSum(Symbols(lens), IsLength(lens, k));
    }
    FiveSum(Symbols(lens), Shares(lens, BMAX));
    assert Pow2(15) == 2 * Pow2(14) && Pow2(14) == 2 * Pow2(13) && Pow2(13) == 2 * Pow2(12);
  }

  lemma FiveSum(a: set<nat>, g: seq<nat>)
    requires |g| == 5 && a == {0, 1, 2, 3, 4}
    ensures SumOver(a, g, 5) == g[0] + g[1] + g[2] + g[3] + g[4]
  {
    assert SumOver(a, g, 1) == SumOver(a, g, 0) + g[0] == g[0];
    assert SumOver(a, g, 2) == SumOver(a, g, 1) + g[1];
    assert SumOver(a, g, 3) == SumOver(a, g, 2) + g[2];
    assert SumOver(a, g, 4) == SumOver(a, g, 3) + g[3];
  }

  /** huft_build accepts them, but leaves entries unset. */
  method SkippingExample(b: array<nat>) returns (r: ZResult, bits: nat, tables: seq<seq<Huft>>, ghost f: Plan, ghost ms: seq<Meta>)
    requires b[..] == [1, 3, 3, 3, 3]
    ensures r.ZOk? && bits == 1 && Tabled(f, tables, ms, bits, b[..], 257, [], []) && !AllSet(tables)
  {
    hide Kraft, Pow2, NoSkip, Plan.Valid, Sound, Plan.IsCode, AllSet, Symbols, CountAt, Code;
    assert b.Length == |b[..]| && forall i :: 0 <= i < b.Length ==> b[i] == b[..][i];
    SkippingLengths(b[..]);
    r, bits, tables, f, ms := HuftBuild(b, 257, [], [], 1);
    SizedExample(b[..], bits, f.g);
    SkippingPlan(f);
  }

  lemma SizedExample(lens: seq<nat>, bits: nat, g: nat)
    requires lens == [1, 3, 3, 3, 3] && Sized(lens, 1, bits, g)
    ensures bits == 1 && g == 3
  {
    assert lens[0] == 1 && lens[1] == 3;
  }

  // ----- one look-up

  /** Table n has been reached by the bits in `past`. */
  ghost predicate AtTable(f: Plan, s: Work, n: nat, past: seq<bool>) {
    n < |s.ms| && |past| == s.ms[n].w && past == ToBits(s.ms[n].prefix, s.ms[n].w)
  }

  /** The entry for a lookahead of at least j bits. */
  ghost function EntryAt(s: Work, n: nat, look: seq<bool>): Huft
    requires n < |s.ts| == |s.ms| && s.ms[n].j <= |look| && |s.ts[n]| == Pow2(s.ms[n].j)
  {
    LowFromLow(look[..s.ms[n].j]);
    s.ts[n][FromLow(look[..s.ms[n].j])]
  }

  ghost predicate IsLink(r: Huft) {
    r.Huft? && 1 <= r.exop <= 15
  }

  /** The index, read from the lookahead, together with the prefix. */
  lemma FullIsPast(m: Meta, past: seq<bool>, look: seq<bool>, idx: nat)
    requires |past| == m.w && past == ToBits(m.prefix, m.w) && |look| >= m.j && idx == FromLow(look[..m.j])
    ensures idx < Pow2(m.j) && ToBits(Full(m, idx), m.w + m.j) == past + look[..m.j]
  {
    hide Pow2, ToBits, LowBits, Reversed, FromLow;
    LowFromLow(look[..m.j]);
    ReversedBits(Reversed(idx, m.j), m.j);
    ReversedTwice(idx, m.j);
    ReversedBelow(idx, m.j);
    ToBitsConcat(m.prefix, m.w, Reversed(idx, m.j), m.j);
  }

  /** The first bits of a number. */
  lemma FirstBits(v: nat, n: nat, r: nat)
    ensures ToBits(v, n + r)[..n] == ToBits(High(v, r), n)
  {
    HighLow(v, r);
    ToBitsConcat(High(v, r), n, Low(v, r), r);
  }

  /** A symbol's entry: its code word is what has been read and what will be dropped. */
  lemma LeafWord(f: Plan, s: Work, n: nat, past: seq<bool>, look: seq<bool>) returns (k: nat, fwd: nat)
    requires Sound(f, s) && AtTable(f, s, n, past) && s.ms[n].j <= |look|
    requires n < |s.ts| == |s.ms| && |s.ts[n]| == Pow2(s.ms[n].j) && !EntryAt(s, n, look).Unset? && !IsLink(EntryAt(s, n, look))
    ensures var r := EntryAt(s, n, look);
            && f.IsCode(k, fwd) && 1 <= r.bits <= s.ms[n].j && k == |past| + r.bits
            && past + look[..r.bits] == ToBits(fwd, k)
            && r.exop == f.pay(k, fwd).exop && r.more == f.pay(k, fwd).base
  {
    SoundTable(f, s, n);
    hide Plan.IsCode, High, Full, FromLow, ToBits, Sound, LinkOf, Pow2;
    var m := s.ms[n];
    LowFromLow(look[..m.j]);
    var idx := FromLow(look[..m.j]);
    var r := EntryAt(s, n, look);
    assert EntrySound(f, s.ms, m, idx, r);
    LinkShape(f, s.ms, m, idx, r);
    k :| LeafAt(f, m, idx, r, k);
    fwd := High(Full(m, idx), m.w + m.j - k);
    FullIsPast(m, past, look, idx);
    FirstBits(Full(m, idx), k, m.w + m.j - k);
    assert (past + look[..m.j])[..k] == past + look[..r.bits];
  }

  lemma LinkShape(f: Plan, ms: seq<Meta>, m: Meta, idx: nat, r: Huft)
    ensures LinkOf(f, ms, m, idx, r) ==> IsLink(r)
  {
  }

  /** A link: the table it leads to is reached by what will be dropped. */
  lemma LinkReaches(f: Plan, s: Work, n: nat, past: seq<bool>, look: seq<bool>)
    requires f.Valid() && Sound(f, s) && AtTable(f, s, n, past) && s.ms[n].j <= |look|
    requires n < |s.ts| == |s.ms| && |s.ts[n]| == Pow2(s.ms[n].j) && IsLink(EntryAt(s, n, look))
    ensures var r := EntryAt(s, n, look);
            && 1 <= r.bits <= s.ms[n].j && AtTable(f, s, r.more, past + look[..r.bits]) && r.exop == s.ms[r.more].j
            && s.ms[r.more].w == s.ms[n].w + r.bits
  {
    SoundTable(f, s, n);
    hide Plan.IsCode, High, Low, Full, FromLow, ToBits, Sound, Pow2, Reversed, LowBits;
    var m := s.ms[n];
    LowFromLow(look[..m.j]);
    var idx := FromLow(look[..m.j]);
    var r := EntryAt(s, n, look);
    assert EntrySound(f, s.ms, m, idx, r);
    LeafShape(f, m, idx, r);
    // idx fits l bits, so the first l bits of the lookahead spell it too
    SplitBits(idx, f.l, m.j - f.l);
    HighLowUnique(idx, 0, f.l);
    assert LowBits(idx, m.j)[..f.l] == LowBits(idx, f.l);
    assert look[..m.j][..f.l] == look[..f.l];
    ReversedBits(Reversed(idx, f.l), f.l);
    ReversedTwice(idx, f.l);
    ReversedBelow(idx, f.l);
    ToBitsConcat(m.prefix, m.w, Reversed(idx, f.l), f.l);
  }

  lemma LeafShape(f: Plan, m: Meta, idx: nat, r: Huft)
    requires f.Valid()
    ensures (exists k :: LeafAt(f, m, idx, r, k)) ==> !IsLink(r)
    ensures f.l >= 1
  {
  }

  lemma SoundTable(f: Plan, s: Work, n: nat)
    requires Sound(f, s) && n < |s.ms|
    ensures n < |s.ts| == |s.ms| && TableSound(f, s.ts[n], s.ms, s.ms[n])
    ensures 1 <= s.ms[n].j && s.ms[n].w + s.ms[n].j <= f.g && |s.ts[n]| == Pow2(s.ms[n].j)
  {
  }

  /** Two codes that start the same bits are the same. */
  lemma SameCode(f: Plan, k: nat, fwd: nat, n: nat, v: nat, bits: seq<bool>)
    requires f.Valid() && f.IsCode(k, fwd) && f.IsCode(n, v) && ToBits(fwd, k) <= bits && ToBits(v, n) <= bits
    ensures k == n && fwd == v
  {
    CodesBelow(f, k, fwd);
    CodesBelow(f, n, v);
    if n <= k {
      PrefixCode(f, n, v, k, fwd, bits);
    } else {
      PrefixCode(f, k, fwd, n, v, bits);
    }
  }

  lemma CodesBelow(f: Plan, k: nat, fwd: nat)
    requires f.Valid() && f.IsCode(k, fwd)
    ensures fwd < Pow2(k) && k <= f.g
  {
    CodesRoom(f, k);
  }

  lemma PrefixCode(f: Plan, n: nat, v: nat, k: nat, fwd: nat, bits: seq<bool>)
    requires f.IsCode(k, fwd) && f.IsCode(n, v) && n <= k <= f.g && v < Pow2(n) && fwd < Pow2(k)
    requires ToBits(fwd, k) <= bits && ToBits(v, n) <= bits
    ensures k == n && fwd == v
  {
    hide ToBits, High, Low, NextCode, KraftTo, Pow2, Plan.IsCode, Pos;
    FirstBits(fwd, n, k - n);
    assert ToBits(fwd, k)[..n] == bits[..n] == ToBits(v, n);
    HighBelow(fwd, k - n, n);
    FromToBits(v, n);
    FromToBits(High(fwd, k - n), n);
    PosNest(fwd, k, n, f.g);
    PosMono(v, v, n, f.g);
    HuftPlacing.OneCode(f, n, v, k, fwd);
  }

  // ----- following the links

  /** The symbol entry that a lookahead leads to from table n, and the bits dropped on the way. */
  ghost function Walk(f: Plan, s: Work, n: nat, past: seq<bool>, look: seq<bool>): (Huft, nat)
    requires f.Valid() && Sound(f, s) && AllSet(s.ts) && AtTable(f, s, n, past) && |look| >= f.g - s.ms[n].w
    decreases f.g - |past|
  {
    SoundTable(f, s, n);
    var r := EntryAt(s, n, look);
    if IsLink(r) then
      LinkReaches(f, s, n, past, look);
      var (leaf, used) := Walk(f, s, r.more, past + look[..r.bits], look[r.bits..]);
      (leaf, used + r.bits)
    else (r, if r.Huft? then r.bits else 0)
  }

  /** The walk ends at a code that what was read starts with. */
  lemma {:induction false} WalkEnds(f: Plan, s: Work, n: nat, past: seq<bool>, look: seq<bool>) returns (k: nat, fwd: nat)
    requires f.Valid() && Sound(f, s) && AllSet(s.ts) && AtTable(f, s, n, past) && |look| >= f.g - s.ms[n].w
    ensures var (r, used) := Walk(f, s, n, past, look);
            && f.IsCode(k, fwd) && k == |past| + used && used <= |look| && past + look[..used] == ToBits(fwd, k)
            && r.Huft? && r.exop == f.pay(k, fwd).exop && r.more == f.pay(k, fwd).base
    decreases f.g - |past|
  {
    WalkStep(f, s, n, past, look);
    hide *;
    var r := EntryAt(s, n, look);
    if IsLink(r) {
      k, fwd := WalkEnds(f, s, r.more, past + look[..r.bits], look[r.bits..]);
      var (leaf, used) := Walk(f, s, r.more, past + look[..r.bits], look[r.bits..]);
      assert past + look[..used + r.bits] == (past + look[..r.bits]) + look[r.bits..][..used];
    } else {
      k, fwd := LeafWord(f, s, n, past, look);
    }
  }

  /** One step of the walk, spelled out. */
  lemma WalkStep(f: Plan, s: Work, n: nat, past: seq<bool>, look: seq<bool>)
    requires f.Valid() && Sound(f, s) && AllSet(s.ts) && AtTable(f, s, n, past) && |look| >= f.g - s.ms[n].w
    ensures n < |s.ts| == |s.ms| && |s.ts[n]| == Pow2(s.ms[n].j) && s.ms[n].j <= |look| && |past| == s.ms[n].w
    ensures 1 <= s.ms[n].j && s.ms[n].w + s.ms[n].j <= f.g
    ensures var r := EntryAt(s, n, look);
            && r.Huft?
            && (IsLink(r) ==>
                  && 1 <= r.bits <= s.ms[n].j && AtTable(f, s, r.more, past + look[..r.bits]) && r.exop == s.ms[r.more].j
                  && s.ms[r.more].w == s.ms[n].w + r.bits && s.ms[r.more].w + s.ms[r.more].j <= f.g
                  && var (leaf, used) := Walk(f, s, r.more, past + look[..r.bits], look[r.bits..]);
                     Walk(f, s, n, past, look) == (leaf, used + r.bits))
            && (!IsLink(r) ==> Walk(f, s, n, past, look) == (r, r.bits))
  {
    SoundTable(f, s, n);
    SetEntry(s, n, look);
    hide Sound, AllSet, ToBits, Plan.Valid, EntryAt, TableSound;
    if IsLink(EntryAt(s, n, look)) {
      LinkReaches(f, s, n, past, look);
      SoundTable(f, s, EntryAt(s, n, look).more);
    }
  }

  lemma SetEntry(s: Work, n: nat, look: seq<bool>)
    requires AllSet(s.ts) && n < |s.ts| == |s.ms| && s.ms[n].j <= |look| && |s.ts[n]| == Pow2(s.ms[n].j)
    ensures !EntryAt(s, n, look).Unset?
  {
    LowFromLow(look[..s.ms[n].j]);
  }

  /** Tables for a complete set of lengths in which no code skips a table. */
  ghost predicate Decoder(f: Plan, tables: seq<seq<Huft>>, ms: seq<Meta>, bits: nat, lens: seq<nat>, s: nat, d: seq<nat>, e: seq<nat>) {
    && Tabled(f, tables, ms, bits, lens, s, d, e) && Counts(Symbols(lens), lens, f.c) && NoSkip(f)
    && forall n :: n in Symbols(lens) ==> 1 <= lens[n] <= f.g
  }

  lemma DecoderCodable(f: Plan, tables: seq<seq<Huft>>, ms: seq<Meta>, bits: nat, lens: seq<nat>, s: nat, d: seq<nat>, e: seq<nat>)
    requires Decoder(f, tables, ms, bits, lens, s, d, e)
    ensures Codable(Symbols(lens), lens, f.c, f.g) && KraftTo(f.c, f.g, f.g + 1) == Pow2(f.g)
    ensures f.Valid() && Sound(f, Work(tables, ms, [])) && AllSet(tables) && AtTable(f, Work(tables, ms, []), 0, [])
  {
    hide Sound, AllSet, NoSkip, KraftTo, Counts;
  }

  /** Any lookahead leads to the one symbol whose code word it starts with, and drops just that word. */
  lemma WalkDecodes(f: Plan, tables: seq<seq<Huft>>, ms: seq<Meta>, bits: nat, lens: seq<nat>, s: nat, d: seq<nat>, e: seq<nat>,
                    look: seq<bool>) returns (n: nat)
    requires Decoder(f, tables, ms, bits, lens, s, d, e) && |look| >= f.g
    ensures n in Symbols(lens) && lens[n] <= |f.c| && Word(Symbols(lens), lens, f.c, n) <= look
    ensures forall m :: m in Symbols(lens) && m != n ==> lens[m] <= |f.c| && !(Word(Symbols(lens), lens, f.c, m) <= look)
    ensures f.Valid() && Sound(f, Work(tables, ms, [])) && AllSet(tables) && AtTable(f, Work(tables, ms, []), 0, [])
    ensures var (r, used) := Walk(f, Work(tables, ms, []), 0, [], look);
            used == lens[n] && r.Huft? && Op(r.exop, r.more) == OpOf(n, s, d, e)
  {
    DecoderCodable(f, tables, ms, bits, lens, s, d, e);
    var w := Work(tables, ms, []);
    n := WordsComplete(Symbols(lens), lens, f.c, f.g, look);
    var k, fwd := WalkEnds(f, w, 0, [], look);
    assert [] + look[..k] == look[..k];
    hide Sound, AllSet, Walk, Plan.Valid, Plan.IsCode, Codable, KraftTo, Counts, CanonicalCodes.Code, ToBits;
    SameCode(f, k, fwd, lens[n], CanonicalCodes.Code(Symbols(lens), lens, f.c, n), look);
    forall m | m in Symbols(lens) && m != n
      ensures lens[m] <= |f.c| && !(Word(Symbols(lens), lens, f.c, m) <= look)
    {
      CodableLengths(Symbols(lens), lens, f.c, f.g, m, n);
      WordsPrefixFree(Symbols(lens), lens, f.c, f.g, m, n);
      WordsPrefixFree(Symbols(lens), lens, f.c, f.g, n, m);
    }
  }
}
