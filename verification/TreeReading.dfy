/**
 The trees at the head of a dynamic block, as inflate_blocks reads them: the counts, the lengths
 of the bit length codes, and the lengths of both trees in their run-length code.  Reading stops
 wherever the input ends and goes on from there.
 */
module TreeReading {
  import opened Options
  import opened Arith
  import opened Bits
  import opened BitOrder
  import opened Alphabet
  import opened HuffmanTheory
  import opened LengthRepair
  import opened CanonicalCodes
  import opened BlockTrees
  import opened BlockWriter
  import opened HuftTheory
  import opened HuftState
  import opened HuftPlacing
  import opened HuftBuilding
  import opened HuftTrees
  import opened HuftDecoding
  import opened InflateScript
  import opened InflateSteps
  import opened BitReading
  import BitWriting
  import CL = CodeLengths

  // ----- the table of the bit length codes

  /** The code words leave nothing over. */
  ghost predicate Complete(t: Table) {
    Counts(Symbols(t.lens), t.lens, t.f.c)
  }

  /** There is one code, of one bit. */
  ghost predicate Lone(t: Table, n: nat) {
    t.f.g == 1 && n < |t.lens| && Symbols(t.lens) == {n} && t.lens[n] == 1
  }

  /** A table for the bit length codes: it has as many bits as the longest of them. */
  ghost predicate OneLook(t: Table) {
    && t.Valid(CL.BL_CODES, [], []) && |t.lens| == CL.BL_CODES && t.bits == t.f.g <= 7
    && CountedBelow(t.lens, t.f.c, t.f.g) && (Complete(t) || exists n :: Lone(t, n))
  }

  /** The entry for the bits to come. */
  lemma LookReaches(t: Table, look: seq<bool>) returns (k: nat, fwd: nat)
    requires OneLook(t) && |look| >= t.bits
    ensures AtTable(t.f, t.Work(), 0, []) && Looked(t, 0, []) && t.ms[0].j == t.bits
    ensures var r := EntryAt(t.Work(), 0, look);
            && r.Huft? && t.f.IsCode(k, fwd) && 1 <= k == r.bits <= t.bits && look[..k] == ToBits(fwd, k)
            && r.exop == t.f.pay(k, fwd).exop && r.more == t.f.pay(k, fwd).base
  {
    FirstTableReached(t, CL.BL_CODES, [], []);
    TableParts(t, CL.BL_CODES, [], [], 0, []);
    hide Table.Valid, AtTable, EntryAt, Plan.IsCode, Plan.Valid, Sound, AllSet, ToBits, Pow2, Complete, Lone, CountedBelow;
    SetLooked(t, 0, look);
    NoLinks(t, look);
    k, fwd := LeafWord(t.f, t.Work(), 0, [], look);
    assert [] + look[..k] == look[..k];
  }

  /** A table as wide as the longest code has no links. */
  lemma NoLinks(t: Table, look: seq<bool>)
    requires Reached(t, 0, []) && t.bits == t.f.l == t.f.g && t.ms[0].j == t.bits && t.ms[0].w == 0 && |look| >= t.bits
    ensures !IsLink(EntryAt(t.Work(), 0, look))
  {
    hide Plan.IsCode, Plan.Valid, ToBits, Pow2, Full, High, Reversed, AllSet;
    var r := EntryAt(t.Work(), 0, look);
    if IsLink(r) {
      LinkReaches(t.f, t.Work(), 0, [], look);
      SoundTable(t.f, t.Work(), 0);
      SoundTable(t.f, t.Work(), r.more);
      LinkBits(t, look);
    }
  }

  lemma LinkBits(t: Table, look: seq<bool>)
    requires Reached(t, 0, []) && t.ms[0].j <= |look| && IsLink(EntryAt(t.Work(), 0, look))
    ensures EntryAt(t.Work(), 0, look).bits == t.f.l
  {
    SoundTable(t.f, t.Work(), 0);
    hide Plan.IsCode, ToBits, Pow2, Full, High, Reversed, AllSet, Plan.Valid;
    LowFromLow(look[..t.ms[0].j]);
    var idx := FromLow(look[..t.ms[0].j]);
    var r := EntryAt(t.Work(), 0, look);
    assert EntrySound(t.f, t.ms, t.ms[0], idx, r);
    LeafNotLink(t.f, t.ms[0], idx, r);
  }

  lemma LeafNotLink(f: Plan, m: Meta, idx: nat, r: Huft)
    requires f.Valid()
    ensures (exists k :: LeafAt(f, m, idx, r, k)) ==> !IsLink(r)
  {
  }

  /** Complete codes: the symbol whose word comes next. */
  lemma LookComplete(t: Table, look: seq<bool>) returns (c: nat)
    requires OneLook(t) && Complete(t) && |look| >= t.bits
    ensures Looked(t, 0, []) && t.ms[0].j == t.bits
    ensures c < |t.lens| && t.Codes(c) && 1 <= t.lens[c] <= t.bits && t.Book().Word(c) == look[..t.lens[c]]
    ensures EntryAt(t.Work(), 0, look) == Huft(0, t.lens[c], c)
  {
    var k, fwd := LookReaches(t, look);
    DecoderOf(t);
    DecoderCodable(t.f, t.tables, t.ms, t.bits, t.lens, CL.BL_CODES, [], []);
    c := WordsComplete(Symbols(t.lens), t.lens, t.f.c, t.f.g, look);
    CodedAs(t, c);
    BookWord(t.lens, t.f.c, c);
    hide Decoder, Table.Valid, Plan.Valid, Plan.IsCode, Codable, KraftTo, Counts, CanonicalCodes.Code, ToBits, Sound, AllSet, EntryAt, AtTable,
      Symbols, BookOf, Looked;
    SameCode(t.f, k, fwd, t.lens[c], CanonicalCodes.Code(Symbols(t.lens), t.lens, t.f.c, c), look);
  }

  lemma DecoderOf(t: Table)
    requires OneLook(t) && Complete(t)
    ensures Decoder(t.f, t.tables, t.ms, t.bits, t.lens, CL.BL_CODES, [], [])
  {
    hide Plan.Valid, Sound, AllSet, NoSkip, Plan.IsCode, CanonicalCodes.Code, Counts;
  }

  lemma CodedAs(t: Table, n: nat)
    requires t.Valid(CL.BL_CODES, [], []) && |t.lens| == CL.BL_CODES && t.Codes(n)
    ensures n < |t.lens| && 1 <= t.lens[n] <= t.f.g && t.lens[n] <= |t.f.c|
    ensures var v := CanonicalCodes.Code(Symbols(t.lens), t.lens, t.f.c, n);
            t.f.IsCode(t.lens[n], v) && t.f.pay(t.lens[n], v) == Op(0, n)
  {
    hide Plan.Valid, Sound, AllSet, NoSkip, Plan.IsCode, CanonicalCodes.Code;
  }

  /** A lone code: both bits lead to its symbol, as the entry for the unused bit keeps the base of the one before. */
  lemma LookLone(t: Table, n: nat, look: seq<bool>)
    requires OneLook(t) && Lone(t, n) && |look| >= 1
    ensures Looked(t, 0, []) && t.ms[0].j == t.bits == 1 && |t.tables[0]| == 2 && t.tables[0][0].Huft?
    ensures var r := EntryAt(t.Work(), 0, look);
            r.Huft? && r.bits == 1 && (if r.exop == INVALID then t.tables[0][0].more else r.more) == n
  {
    LoneFirst(t, n);
    var k, fwd := LookReaches(t, look);
    LoneCode(t, n, fwd);
    hide Table.Valid, EntryAt, Looked, AtTable, CanonicalCodes.Code, Symbols;
  }

  lemma LoneCode(t: Table, n: nat, fwd: nat)
    requires OneLook(t) && Lone(t, n) && t.f.IsCode(1, fwd)
    ensures t.f.pay(1, fwd).exop != INVALID ==> t.f.pay(1, fwd) == Op(0, n)
    ensures fwd == 0 ==> t.f.pay(1, fwd) == Op(0, n)
  {
    CodedAs(t, n);
    hide Plan.Valid, Sound, AllSet, NoSkip, Plan.IsCode, CountedBelow, Counts;
    var v := CanonicalCodes.Code(Symbols(t.lens), t.lens, t.f.c, n);
    LoneZero(t, n);
    if t.f.pay(1, fwd).exop != INVALID {
      var m :| CodeFor(t.f, t.lens, m, 1, fwd);
    }
  }

  lemma LoneZero(t: Table, n: nat)
    requires Lone(t, n) && t.f.Valid()
    ensures CanonicalCodes.Code(Symbols(t.lens), t.lens, t.f.c, n) == 0
  {
    assert Below({n}, n) == {};
    EmptySum(IsLength(t.lens, 1), |t.lens|);
    assert NextCode(t.f.c, 1) == 0;
  }

  /** So the first entry is the symbol's. */
  lemma LoneFirst(t: Table, n: nat)
    requires OneLook(t) && Lone(t, n)
    ensures Looked(t, 0, []) && t.ms[0].j == 1 && |t.tables[0]| == 2 && t.tables[0][0].Huft? && t.tables[0][0].more == n
  {
    var look := [false];
    var k, fwd := LookReaches(t, look);
    hide Table.Valid, AtTable, OneLook, Lone, Plan.IsCode;
    assert FromLow(look) == 0 by { assert look[1..] == []; }
    assert look[..1] == look;
    assert Pow2(1) == 2;
    assert ToBits(fwd, 1) == [fwd % 2 == 1] by { assert ToBits(fwd / 2, 0) == []; }
    LoneFwd(t, n, fwd);
    LoneCode(t, n, fwd);
  }

  lemma LoneFwd(t: Table, n: nat, fwd: nat)
    requires OneLook(t) && Lone(t, n) && t.f.IsCode(1, fwd)
    ensures fwd < 2
  {
    CodesBelow(t.f, 1, fwd);
    assert Pow2(1) == 2;
  }

  lemma TheLone(t: Table) returns (n: nat)
    requires OneLook(t) && !Complete(t)
    ensures Lone(t, n) && t.Codes(n) && t.lens[n] == 1 == t.bits
  {
    n :| Lone(t, n);
  }

  /** The DTREE look-up: the next symbol and the length of its code. */
  method LookBits(tb: seq<seq<Huft>>, bb: nat, r: BitReader, ghost t: Table) returns (c: nat, n: nat)
    requires OneLook(t) && tb == t.tables && bb == t.bits <= r.k && r.Valid()
    ensures c < |t.lens| && t.Codes(c) && 1 <= n == t.lens[c] <= bb && r.p <= |r.input| && n <= |r.Ahead()|
    ensures Complete(t) ==> t.Book().Word(c) == r.Ahead()[..n]
  {
    hide Table.Valid, Complete, OneLook, Lone, EntryAt, FromLow, Pow2, BitReader.Valid, BitReader.Ahead, LowBits, Symbols, CountedBelow;
    r.InInput();
    ghost var look := r.Ahead();
    r.PeekIs(bb);
    if Complete(t) {
      ghost var x := LookComplete(t, look);
    } else {
      ghost var x := TheLone(t);
      LookLone(t, x, look);
    }
    IndexedEntry(t, 0, [], look, r.Peek(bb));
    var h := tb[0][r.Peek(bb)];
    n := h.bits;
    c := if h.exop == INVALID then tb[0][0].more else h.more;
  }

  // ----- symbols as they are spelled

  /** The bits of one symbol: its code word, then its extra bits. */
  ghost predicate SpeltOne(t: Table, s: CL.Sym, bits: seq<bool>) {
    && (forall n :: 0 <= n < |t.lens| ==> t.lens[n] <= |t.f.c|)
    && CL.Fits(s) && t.Codes(s.code) && s.code < |t.lens| && |bits| == t.lens[s.code] + CL.ExtraBits(s.code)
    && bits[t.lens[s.code]..] == LowBits(s.extra, CL.ExtraBits(s.code))
    && (Complete(t) ==> bits[..t.lens[s.code]] == t.Book().Word(s.code))
  }

  /** The bits of some symbols. */
  ghost predicate Spelt(t: Table, syms: seq<CL.Sym>, bits: seq<bool>)
    decreases |syms|
  {
    if syms == [] then bits == []
    else exists m :: 0 <= m <= |bits| && Spelt(t, syms[..|syms| - 1], bits[..m]) && SpeltOne(t, syms[|syms| - 1], bits[m..])
  }

  lemma SpeltPut(t: Table, syms: seq<CL.Sym>, bits: seq<bool>, s: CL.Sym, more: seq<bool>)
    requires Spelt(t, syms, bits) && SpeltOne(t, s, more)
    ensures Spelt(t, syms + [s], bits + more)
  {
    hide SpeltOne;
    assert (syms + [s])[..|syms|] == syms;
    assert (bits + more)[..|bits|] == bits && (bits + more)[|bits|..] == more;
  }

  /** With complete codes these are the bits that send_tree sends. */
  lemma {:induction false} SpeltAsSent(t: Table, syms: seq<CL.Sym>, bits: seq<bool>)
    requires OneLook(t) && Complete(t) && Spelt(t, syms, bits)
    ensures bits == CL.SymsBits(syms, t.Book())
    decreases |syms|
  {
    hide *;
    LookSizes(t);
    if syms != [] {
      var front, s := syms[..|syms| - 1], syms[|syms| - 1];
      var m := SpeltSplit(t, syms, bits);
      SpeltAsSent(t, front, bits[..m]);
      OneAsSent(t, s, bits[m..]);
      assert bits == bits[..m] + bits[m..] && syms == front + [s];
      CL.SymsBitsPut(front, s, t.Book());
    } else {
      SpeltNone(t, bits);
      CL.NoSyms(t.Book());
    }
  }

  lemma SpeltSplit(t: Table, syms: seq<CL.Sym>, bits: seq<bool>) returns (m: nat)
    requires Spelt(t, syms, bits) && syms != []
    ensures m <= |bits| && Spelt(t, syms[..|syms| - 1], bits[..m]) && SpeltOne(t, syms[|syms| - 1], bits[m..])
  {
    hide SpeltOne;
    m :| 0 <= m <= |bits| && Spelt(t, syms[..|syms| - 1], bits[..m]) && SpeltOne(t, syms[|syms| - 1], bits[m..]);
  }

  lemma SpeltNone(t: Table, bits: seq<bool>)
    requires Spelt(t, [], bits)
    ensures bits == []
  {
  }

  lemma OneAsSent(t: Table, s: CL.Sym, bits: seq<bool>)
    requires OneLook(t) && Complete(t) && SpeltOne(t, s, bits)
    ensures bits == CL.SymBits(s, t.Book())
  {
    hide Table.Valid, BookOf, LowBits, Complete;
    assert bits == bits[..t.lens[s.code]] + bits[t.lens[s.code]..];
  }

  // ----- the state between two inputs

  function Nl(table: nat): nat { 257 + table % 32 }

  function Nd(table: nat): nat { 1 + table / 32 % 32 }

  function Nb(table: nat): nat { 4 + table / 1024 }

  function Expected(table: nat): nat { Nl(table) + Nd(table) }

  /** "too many length or distance symbols" */
  predicate TooMany(table: nat) {
    table % 32 > 29 || table / 32 % 32 > 29
  }

  /** The counts in 14 bits. */
  ghost predicate Counted14(table: nat) {
    table < 0x4000 && !TooMany(table)
  }

  /** The header is refused for its counts alone if the first five bits ask for more than 286 literal and length symbols or the
      next five for more than 30 distances. */
  lemma CountsRefused(ahead: seq<bool>)
    requires |ahead| >= 14
    ensures TooMany(FromLow(ahead[..14])) <==> 257 + FromLow(ahead[..5]) > 286 || 1 + FromLow(ahead[5..10]) > 30
  {
    var table := FromLow(ahead[..14]);
    LowFromLow(ahead[..14]);
    Pow2Values();
    assert Pow2(14) == 4 * Pow2(12);
    CountBits(table);
    PowSmall();
    FromLowBits(table % 32, 5);
    FromLowBits(table / 32 % 32, 5);
    hide LowBits, FromLow, Pow2;
    assert ahead[..5] == ahead[..14][..5] == LowBits(table % 32, 5);
    assert ahead[5..10] == ahead[..14][5..10] == LowBits(table / 32 % 32, 5);
  }

  lemma CountBits(table: nat)
    requires table < 0x4000
    ensures LowBits(table, 14) == Counts3(Nl(table), Nd(table), Nb(table)) && Nb(table) <= CL.BL_CODES
  {
    PowSmall();
    Pow2Values();
    SplitBits(table, 5, 9);
    SplitBits(High(table, 5), 5, 4);
    LowBitsLow(table, 5);
    LowBitsLow(High(table, 5), 5);
    assert High(table, 5) == table / 32 && Low(table, 5) == table % 32;
    assert High(table / 32, 5) == table / 1024 && Low(table / 32, 5) == table / 32 % 32;
    hide LowBits;
    assert LowBits(table % 32, 5) + (LowBits(table / 32 % 32, 5) + LowBits(table / 1024, 4))
        == (LowBits(table % 32, 5) + LowBits(table / 32 % 32, 5)) + LowBits(table / 1024, 4);
  }

  /** Reading the lengths of the bit length codes: those up to index, in the order of bl_order. */
  ghost predicate InBitLengths(table: nat, index: nat, bl: seq<nat>, done: seq<bool>) {
    && Counted14(table) && index <= Nb(table) <= CL.BL_CODES <= |bl|
    && (forall i :: 0 <= i < index ==> BlSymbol(i) < |bl| && bl[BlSymbol(i)] <= 7)
    && done == Counts3(Nl(table), Nd(table), Nb(table)) + BlLens(bl, index)
  }

  /** Reading the lengths of both trees: the symbols so far give the lengths in pre. */
  ghost predicate InLengths(table: nat, t: Table, syms: seq<CL.Sym>, bits: seq<bool>, pre: seq<nat>, done: seq<bool>) {
    && Counted14(table) && Nb(table) <= CL.BL_CODES && OneLook(t) && BitLens(table, t.lens)
    && Spelt(t, syms, bits) && CL.LengthsFrom([], syms, Expected(table)) == Some(pre) && |pre| <= Expected(table)
    && (forall i :: 0 <= i < |pre| ==> pre[i] <= 15)
    && done == (Counts3(Nl(table), Nd(table), Nb(table)) + BlLens(t.lens, Nb(table))) + bits
  }

  /** Lengths of the bit length codes: those not sent are zero. */
  ghost predicate BitLens(table: nat, bl: seq<nat>) {
    && |bl| == CL.BL_CODES && (forall i :: 0 <= i < CL.BL_CODES ==> bl[i] <= 7)
    && forall i :: Nb(table) <= i < CL.BL_CODES ==> BlSymbol(i) < |bl| && bl[BlSymbol(i)] == 0
  }

  /** Whether huft_build makes a tree that inflate accepts. */
  ghost predicate TreeOk(lens: seq<nat>) {
    && Symbols(lens) != {} && Kraft(Symbols(lens), lens, BMAX) <= Pow2(BMAX)
    && (Kraft(Symbols(lens), lens, BMAX) == Pow2(BMAX) || Longest(lens, 1))
  }

  /** What comes of reading the trees, once the input does not run out first. */
  datatype Heading = TreesRead | BadCounts | BadBitLengths | BadRepeat | BadTrees

  // ----- one symbol read

  /** Why the DTREE loop stops for input: the bits left do not hold the longest code, or not the next symbol. */
  ghost predicate Wanting(t: Table, left: seq<bool>) {
    || |left| < t.bits
    || exists c :: WantsExtra(t, c, left)
  }

  ghost predicate WantsExtra(t: Table, c: nat, left: seq<bool>) {
    && (forall n :: 0 <= n < |t.lens| ==> t.lens[n] <= |t.f.c|)
    && 16 <= c < |t.lens| && t.Codes(c) && t.lens[c] <= |left| < t.lens[c] + CL.ExtraBits(c)
    && (Complete(t) ==> left[..t.lens[c]] == t.Book().Word(c))
  }

  /** NEEDBITS(n + i), DUMPBITS(n), the low i bits, DUMPBITS(i). */
  method ReadExtra(r: BitReader, n: nat, i: nat) returns (ok: bool, x: nat)
    requires r.Valid() && n <= r.k && n + i <= 24
    modifies r`b, r`k, r`p, r`extra
    ensures r.Valid() && (old(r.InHand()) ==> r.InHand())
    ensures !ok ==> r.Ahead() == old(r.Ahead()) && r.p == |r.input| && |r.Ahead()| < n + i
    ensures ok ==> n + i <= |old(r.Ahead())| && r.Ahead() == old(r.Ahead())[n + i..]
                   && x < Pow2(i) && LowBits(x, i) == old(r.Ahead())[n..n + i]
  {
    hide BitReader.Valid, BitReader.Ahead, BitReader.InHand, LowBits, FromLow, Pow2;
    x := 0;
    ok := r.NeedBits(n + i);
    if ok {
      r.InInput();
      ghost var ahead := r.Ahead();
      r.DumpBits(n);
      r.PeekIs(i);
      x := r.Peek(i);
      LowFromLow(r.Ahead()[..i]);
      r.DumpBits(i);
      assert ahead[n..][..i] == ahead[n..n + i] && ahead[n..][i..] == ahead[n + i..];
    }
  }

  /** One turn of the DTREE loop up to the check on repeats: a symbol, and its repeat count if it is one. */
  method ReadSymbol(r: BitReader, tb: seq<seq<Huft>>, bb: nat, ghost t: Table) returns (ok: bool, c: nat, x: nat)
    requires OneLook(t) && tb == t.tables && bb == t.bits && r.Valid()
    modifies r`b, r`k, r`p, r`extra
    ensures r.Valid() && (old(r.InHand()) ==> r.InHand())
    ensures !ok ==> r.Ahead() == old(r.Ahead()) && r.p == |r.input| && Wanting(t, r.Ahead())
    ensures ok ==> var n := |old(r.Ahead())| - |r.Ahead()|;
                   && 0 < n <= |old(r.Ahead())| && r.Ahead() == old(r.Ahead())[n..]
                   && SpeltOne(t, CL.Sym(c, x), old(r.Ahead())[..n])
  {
    hide BitReader.Valid, BitReader.Ahead, BitReader.InHand, OneLook, Complete, LowBits, FromLow, Pow2;
    c, x := 0, 0;
    LookSizes(t);
    ok := r.NeedBits(bb);
    if ok {
      r.InInput();
      ghost var ahead := r.Ahead();
      var n;
      c, n := LookBits(tb, bb, r, t);
      if c < 16 {
        r.DumpBits(n);
        SpeltPlain(t, c, ahead);
      } else {
        var i := if c == 18 then 7 else c - 14;
        ok, x := ReadExtra(r, n, i);
        SpeltRepeat(t, c, x, i, ahead, ok);
      }
    }
  }

  lemma LookSizes(t: Table)
    requires OneLook(t)
    ensures 1 <= t.bits <= 7 && |t.lens| == CL.BL_CODES && forall n :: 0 <= n < |t.lens| ==> t.lens[n] <= |t.f.c|
  {
    hide Sound, AllSet, NoSkip, Plan.IsCode, CanonicalCodes.Code, Complete, Lone;
  }

  lemma SpeltPlain(t: Table, c: nat, ahead: seq<bool>)
    requires OneLook(t) && c < 16 && t.Codes(c) && c < |t.lens| && t.lens[c] <= |ahead|
    requires forall n :: 0 <= n < |t.lens| ==> t.lens[n] <= |t.f.c|
    requires Complete(t) ==> t.Book().Word(c) == ahead[..t.lens[c]]
    ensures SpeltOne(t, CL.Sym(c, 0), ahead[..t.lens[c]])
  {
    hide OneLook, Complete;
    var bits := ahead[..t.lens[c]];
    assert bits[t.lens[c]..] == [] == LowBits(0, 0);
  }

  lemma SpeltRepeat(t: Table, c: nat, x: nat, i: nat, ahead: seq<bool>, ok: bool)
    requires 16 <= c < |t.lens| == CL.BL_CODES && t.Codes(c) && t.lens[c] <= |ahead| && i == (if c == 18 then 7 else c - 14)
    requires forall n :: 0 <= n < |t.lens| ==> t.lens[n] <= |t.f.c|
    requires Complete(t) ==> t.Book().Word(c) == ahead[..t.lens[c]]
    requires ok ==> t.lens[c] + i <= |ahead| && x < Pow2(i) && LowBits(x, i) == ahead[t.lens[c]..t.lens[c] + i]
    requires !ok ==> |ahead| < t.lens[c] + i
    ensures i == CL.ExtraBits(c)
    ensures !ok ==> Wanting(t, ahead)
    ensures ok ==> SpeltOne(t, CL.Sym(c, x), ahead[..t.lens[c] + i])
  {
    PowSmall();
    hide Complete, LowBits;
    if ok {
      var bits := ahead[..t.lens[c] + i];
      assert bits[..t.lens[c]] == ahead[..t.lens[c]] && bits[t.lens[c]..] == ahead[t.lens[c]..t.lens[c] + i];
    } else {
      assert WantsExtra(t, c, ahead);
    }
  }

  // ----- the tables

  /** A table as huft_build makes it for these lengths. */
  ghost predicate Made(t: Table, lens: seq<nat>, s: nat, d: seq<nat>, e: seq<nat>, m: nat) {
    && t.lens == lens && Tabled(t.f, t.tables, t.ms, t.bits, lens, s, d, e) && Sized(lens, m, t.bits, t.f.g)
    && CountedBelow(lens, t.f.c, t.f.g)
    && (Kraft(Symbols(lens), lens, BMAX) == Pow2(BMAX) ==> Counts(Symbols(lens), lens, t.f.c))
  }

  /** huft_build on part of the lengths read. */
  method MakeTable(lens: seq<nat>, s: nat, d: seq<nat>, e: seq<nat>, m: nat)
    returns (r: ZResult, bits: nat, tables: seq<seq<Huft>>, ghost t: Table)
    requires 1 <= |lens| <= N_MAX && forall i :: 0 <= i < |lens| ==> lens[i] <= BMAX
    requires |lens| > s ==> |lens| - s <= |d| && |lens| - s <= |e|
    ensures r.ZOk? && bits == 0 <==> Symbols(lens) == {}
    ensures r.ZOk? && bits != 0 <==> TreeOk(lens)
    ensures TreeOk(lens) || (Symbols(lens) != {} && Kraft(Symbols(lens), lens, BMAX) <= Pow2(BMAX)) ==>
              Made(t, lens, s, d, e, m) && bits == t.bits && tables == t.tables
    ensures Symbols(lens) == {} ==> tables == []
  {
    hide Symbols, Kraft, Pow2, Tabled, Counts, CountedBelow, Longest, Shortest;
    var b := new nat[|lens|](i requires 0 <= i < |lens| => lens[i]);
    assert b[..] == lens;
    ghost var f, ms;
    r, bits, tables, f, ms := HuftBuild(b, s, d, e, m);
    t := Table(f, tables, ms, bits, lens);
    if Symbols(lens) != {} && !r.ZDataError? {
      SizedParts(f, tables, ms, lens, s, d, e, m, bits);
    }
  }

  lemma SizedParts(f: Plan, tables: seq<seq<Huft>>, ms: seq<Meta>, lens: seq<nat>, s: nat, d: seq<nat>, e: seq<nat>, m: nat, bits: nat)
    requires Sized(lens, m, bits, f.g) && Tabled(f, tables, ms, bits, lens, s, d, e)
    ensures bits != 0 && Longest(lens, f.g) && (f.g == 1 <==> Longest(lens, 1))
  {
    hide Tabled;
    TabledBits(f, tables, ms, lens, s, d, e, bits);
    var n :| 0 <= n < |lens| && lens[n] == f.g;
  }

  lemma TabledBits(f: Plan, tables: seq<seq<Huft>>, ms: seq<Meta>, lens: seq<nat>, s: nat, d: seq<nat>, e: seq<nat>, bits: nat)
    requires Tabled(f, tables, ms, bits, lens, s, d, e)
    ensures bits >= 1
  {
    hide Sound, AllSet, NoSkip, Plan.IsCode, CanonicalCodes.Code;
  }

  /** One code, where all lengths are 1 and the codes are not complete. */
  lemma OneOfLength1(lens: seq<nat>) returns (n: nat)
    requires Symbols(lens) != {} && Longest(lens, 1) && Kraft(Symbols(lens), lens, BMAX) < Pow2(BMAX)
    ensures Symbols(lens) == {n} && n < |lens| && lens[n] == 1
  {
    var a := Symbols(lens);
    var c := [CountAt(a, lens, 0), CountAt(a, lens, 1)];
    ZeroCount(a, lens);
    KraftByCounts(a, lens, c, 1);
    KraftOne(c);
    KraftScaled(a, lens, 1, BMAX);
    assert Pow2(15) == 2 * Pow2(14);
    n :| n in a;
    hide Kraft, Pow2, CountAt;
    if |a| >= 2 {
      MulLe(Pow2(14), 2, Pow2(14), |a|);
    }
    SingleOf(a, n);
  }

  lemma KraftOne(c: seq<nat>)
    requires |c| == 2 && c[0] == 0
    ensures KraftTo(c, 1, 2) == c[1] == LengthRepair.Total(c, 2)
  {
    assert KraftTo(c, 1, 1) == KraftTo(c, 1, 0) + c[0] * Pow2(1) == 0;
    assert KraftTo(c, 1, 2) == KraftTo(c, 1, 1) + c[1] * Pow2(0) == c[1];
    assert LengthRepair.Total(c, 1) == LengthRepair.Total(c, 0) + c[0] == 0;
  }

  lemma SingleOf(a: set<nat>, n: nat)
    requires n in a && |a| < 2
    ensures a == {n}
  {
    assert |a - {n}| == 0;
  }

  /** The table that inflate_trees_bits makes. */
  lemma MadeOneLook(t: Table, table: nat, lens: seq<nat>)
    requires BitLens(table, lens) && TreeOk(lens) && Made(t, lens, CL.BL_CODES, [], [], 7)
    ensures OneLook(t) && (Kraft(Symbols(lens), lens, BMAX) == Pow2(BMAX) ==> Complete(t))
  {
    hide Tabled, Kraft, Pow2, Counts, Symbols, CountedBelow, Table.Valid;
    SevenBits(lens, t.bits, t.f.g);
    CallersTablesWork(t, 7, CL.BL_CODES, [], []);
    if Kraft(Symbols(lens), lens, BMAX) < Pow2(BMAX) {
      var n := OneOfLength1(lens);
      SizedParts(t.f, t.tables, t.ms, lens, CL.BL_CODES, [], [], 7, t.bits);
      assert Lone(t, n);
    }
  }

  lemma SevenBits(lens: seq<nat>, bits: nat, g: nat)
    requires Sized(lens, 7, bits, g) && forall i :: 0 <= i < |lens| ==> lens[i] <= 7
    ensures bits == g <= 7
  {
  }

  // ----- the bit length codes, step by step

  /** border */
  function Border(): (s: seq<nat>)
    ensures |s| == CL.BL_CODES && forall r :: 0 <= r < |s| ==> s[r] == BlSymbol(r)
  {
    [16, 17, 18, 0, 8, 7, 9, 6, 10, 5, 11, 4, 12, 3, 13, 2, 14, 1, 15]
  }

  /** The rank of a bit length code in border. */
  function RankIn(c: nat): nat {
    if c >= 16 then c - 16 else if c == 0 then 3 else if c < 8 then 19 - 2 * c else 2 * c - 12
  }

  lemma RankInverse(i: nat)
    requires i < CL.BL_CODES
    ensures RankIn(i) < CL.BL_CODES && BlSymbol(RankIn(i)) == i && BlSymbol(i) < CL.BL_CODES && RankIn(BlSymbol(i)) == i
  {
  }

  /** Only the lengths sent so far matter. */
  lemma {:induction false} BlLensSame(x: seq<nat>, y: seq<nat>, n: nat)
    requires n <= CL.BL_CODES && CL.BL_CODES <= |x| && CL.BL_CODES <= |y|
    requires forall i :: 0 <= i < n ==> BlSymbol(i) < CL.BL_CODES && x[BlSymbol(i)] == y[BlSymbol(i)]
    ensures BlLens(x, n) == BlLens(y, n)
  {
    hide BlSymbol;
    if n > 0 {
      BlLensSame(x, y, n - 1);
    }
  }

  /** Three bits at a time are taken for the lengths of these codes, in this order. */
  lemma BitLengthAt(table: nat, index: nat, bl: seq<nat>, done: seq<bool>, r: nat)
    requires InBitLengths(table, index, bl, done) && r < index
    ensures |bl| >= 19 && |done| == 14 + 3 * index
    ensures done[14 + 3 * r..17 + 3 * r]
         == LowBits(bl[if r < 3 then 16 + r else if r == 3 then 0 else if r % 2 == 0 then 8 + (r - 4) / 2 else 8 - (r - 3) / 2], 3)
  {
    BlLensAt(bl, index, r);
    hide BlLens, LowBits, BlSymbol;
    assert done[14 + 3 * r..17 + 3 * r] == BlLens(bl, index)[3 * r..3 * r + 3];
  }

  lemma BitLengthStep(table: nat, index: nat, bl: seq<nat>, done: seq<bool>, x: nat)
    requires InBitLengths(table, index, bl, done) && index < Nb(table) && x <= 7
    ensures BlSymbol(index) < CL.BL_CODES <= |bl|
    ensures InBitLengths(table, index + 1, bl[BlSymbol(index) := x], done + LowBits(x, 3))
  {
    hide BlSymbol, LowBits;
    RankInverse(index);
    var next := bl[BlSymbol(index) := x];
    forall i | 0 <= i < index
      ensures BlSymbol(i) < CL.BL_CODES && next[BlSymbol(i)] == bl[BlSymbol(i)]
    {
      RankInverse(i);
    }
    BlLensSame(bl, next, index);
    var counts := Counts3(Nl(table), Nd(table), Nb(table));
    assert (counts + BlLens(bl, index)) + LowBits(x, 3) == counts + (BlLens(bl, index) + LowBits(x, 3));
  }

  lemma BitLengthsStart(table: nat, bl: seq<nat>)
    requires Counted14(table) && CL.BL_CODES <= |bl|
    ensures InBitLengths(table, 0, bl, LowBits(table, 14)) && Nb(table) <= CL.BL_CODES
  {
    CountBits(table);
    hide LowBits;
    assert Counts3(Nl(table), Nd(table), Nb(table)) + [] == Counts3(Nl(table), Nd(table), Nb(table));
  }

  /** "while index < 19": the lengths that are not sent. */
  method ClearRest(blens: array<nat>, from: nat)
    requires from <= CL.BL_CODES <= blens.Length
    modifies blens
    ensures forall i :: 0 <= i < CL.BL_CODES ==> BlSymbol(i) < blens.Length
                                                 && blens[BlSymbol(i)] == if i < from then old(blens[BlSymbol(i)]) else 0
  {
    hide BlSymbol;
    forall i | 0 <= i < CL.BL_CODES
      ensures BlSymbol(i) < CL.BL_CODES && RankIn(BlSymbol(i)) == i
    {
      RankInverse(i);
    }
    var border := Border();
    var index := from;
    while index < CL.BL_CODES
      invariant from <= index <= CL.BL_CODES
      invariant forall i :: 0 <= i < CL.BL_CODES ==> blens[border[i]] == if from <= i < index then 0 else old(blens[border[i]])
    {
      blens[border[index]] := 0;
      index := index + 1;
    }
  }

  lemma BitLengthsDone(table: nat, was: seq<nat>, now: seq<nat>, done: seq<bool>)
    requires InBitLengths(table, Nb(table), was, done) && |now| == |was|
    requires forall i :: 0 <= i < CL.BL_CODES ==> BlSymbol(i) < |now| && now[BlSymbol(i)] == if i < Nb(table) then was[BlSymbol(i)] else 0
    ensures BitLens(table, now[..CL.BL_CODES])
    ensures done == Counts3(Nl(table), Nd(table), Nb(table)) + BlLens(now[..CL.BL_CODES], Nb(table))
  {
    hide BlSymbol, BlLens;
    var lens := now[..CL.BL_CODES];
    forall i | 0 <= i < CL.BL_CODES
      ensures lens[i] <= 7 && BlSymbol(i) < CL.BL_CODES
    {
      RankInverse(i);
    }
    BlLensSame(was, lens, Nb(table));
  }

  // ----- the lengths of the trees, step by step

  lemma LengthsStart(table: nat, t: Table, done: seq<bool>)
    requires Counted14(table) && Nb(table) <= CL.BL_CODES && OneLook(t) && BitLens(table, t.lens)
    requires done == Counts3(Nl(table), Nd(table), Nb(table)) + BlLens(t.lens, Nb(table))
    ensures InLengths(table, t, [], [], [], done)
  {
    hide OneLook, BitLens, BlLens;
    assert done + [] == done;
  }

  lemma LengthsStep(table: nat, t: Table, syms: seq<CL.Sym>, bits: seq<bool>, pre: seq<nat>, done: seq<bool>, s: CL.Sym, more: seq<bool>)
    requires InLengths(table, t, syms, bits, pre, done) && |pre| < Expected(table) && SpeltOne(t, s, more)
    requires CL.Apply(pre, s, Expected(table)).Some?
    ensures InLengths(table, t, syms + [s], bits + more, CL.Apply(pre, s, Expected(table)).value, done + more)
  {
    hide OneLook, BlLens, Spelt, SpeltOne, Complete;
    SpeltPut(t, syms, bits, s, more);
    CL.LengthsPut([], syms, s, Expected(table));
    ApplyBounds(pre, s, Expected(table));
    hide CL.LengthsFrom, CL.Apply;
    var head := Counts3(Nl(table), Nd(table), Nb(table)) + BlLens(t.lens, Nb(table));
    assert (head + bits) + more == head + (bits + more);
  }

  lemma ApplyBounds(pre: seq<nat>, s: CL.Sym, total: nat)
    requires |pre| < total && (forall i :: 0 <= i < |pre| ==> pre[i] <= 15) && CL.Apply(pre, s, total).Some?
    ensures var next := CL.Apply(pre, s, total).value;
            |next| <= total && forall i :: 0 <= i < |next| ==> next[i] <= 15
  {
  }

  /** "do blens[i++] = c while --j" */
  method FillLengths(blens: array<nat>, index: nat, c: nat, j0: nat) returns (i: nat)
    requires index + j0 <= blens.Length && j0 > 0
    modifies blens
    ensures i == index + j0 && blens[..i] == old(blens[..index]) + CL.Repeat(c, j0)
  {
    i := index;
    var j := j0;
    ghost var pre := blens[..index];
    while j != 0
      invariant 0 <= j <= j0 && i + j == index + j0
      invariant blens[..i] == pre + CL.Repeat(c, j0 - j)
    {
      blens[i] := c;
      i := i + 1;
      j := j - 1;
      assert blens[..i] == blens[..i - 1] + [c];
      assert CL.Repeat(c, j0 - j) == CL.Repeat(c, j0 - j - 1) + [c];
    }
  }

  /** What a symbol does to the lengths: one length more, or a run, or it is refused. */
  method Enter(blens: array<nat>, index: nat, total: nat, c0: nat, x: nat) returns (ok: bool, i: nat)
    requires index < total <= blens.Length
    modifies blens
    ensures ok <==> CL.Apply(old(blens[..index]), CL.Sym(c0, x), total).Some?
    ensures ok ==> index < i <= total && blens[..i] == CL.Apply(old(blens[..index]), CL.Sym(c0, x), total).value
    ensures !ok ==> blens[..] == old(blens[..])
  {
    ghost var pre := blens[..index];
    i := index;
    if c0 < 16 {
      blens[i] := c0;
      i := i + 1;
      assert blens[..i] == pre + [c0];
      return true, i;
    }
    var j := (if c0 == 18 then 11 else 3) + x;
    if i + j > total || (c0 == 16 && i < 1) {
      return false, i;
    }
    var c := if c0 == 16 then blens[i - 1] else 0;
    i := FillLengths(blens, i, c, j);
    ok := true;
  }

  // ----- inflate_blocks, from TABLE to CODES

  datatype Stage = TABLE | BTREE | DTREE | CODES | BADB

  /** Why reading stops. */
  datatype Leaving = NeedsInput | Stopped(h: Heading)

  /** Both trees, as inflate_trees_dynamic takes them; a distance tree may be empty if no length code can be sent. */
  ghost predicate Accepted(lens: seq<nat>, nl: nat)
    requires nl <= |lens|
  {
    TreeOk(lens[..nl]) && (TreeOk(lens[nl..]) || (Symbols(lens[nl..]) == {} && nl == 257))
  }

  /** What reading ended with: the lengths so far, and the symbol that was refused. */
  datatype Why = Why(lens: seq<nat>, s: CL.Sym, more: seq<bool>)

  /** "invalid bit length repeat": the last symbol read does not go with the lengths before it. */
  ghost predicate RefusedAt(table: nat, t: Table, syms: seq<CL.Sym>, bits: seq<bool>, done: seq<bool>, w: Why) {
    && |w.more| <= |done| && InLengths(table, t, syms, bits, w.lens, done[..|done| - |w.more|]) && |w.lens| < Expected(table)
    && done[|done| - |w.more|..] == w.more && SpeltOne(t, w.s, w.more) && CL.Apply(w.lens, w.s, Expected(table)).None?
  }

  /** What the bits read say, with `ahead` still to come. */
  ghost predicate EndsAt(h: Heading, table: nat, t: Table, syms: seq<CL.Sym>, bits: seq<bool>, done: seq<bool>, w: Why, ahead: seq<bool>) {
    match h
    case BadCounts => done == [] && |ahead| >= 14 && (257 + FromLow(ahead[..5]) > 286 || 1 + FromLow(ahead[5..10]) > 30)
    case BadBitLengths =>
      && Counted14(table) && BitLens(table, w.lens) && Nb(table) <= CL.BL_CODES && !TreeOk(w.lens)
      && done == Counts3(Nl(table), Nd(table), Nb(table)) + BlLens(w.lens, Nb(table))
    case BadRepeat => RefusedAt(table, t, syms, bits, done, w)
    case BadTrees => InLengths(table, t, syms, bits, w.lens, done) && |w.lens| == Expected(table) && !Accepted(w.lens, Nl(table))
    case TreesRead => InLengths(table, t, syms, bits, w.lens, done) && |w.lens| == Expected(table) && Accepted(w.lens, Nl(table))
  }

  class TreeReader {
    const r: BitReader
    var stage: Stage
    var table: nat
    var index: nat
    var blens: array<nat>
    var bb: nat
    var tb: seq<seq<Huft>>
    var bl: nat
    var tl: seq<seq<Huft>>
    var bd: nat
    var td: seq<seq<Huft>>
    ghost var done: seq<bool>  // the bits read so far
    ghost var t: Table
    ghost var syms: seq<CL.Sym>
    ghost var bits: seq<bool>
    ghost var lt: Table
    ghost var dt: Table

    ghost predicate Valid()
      reads this, r, blens
    {
      && r.Valid()
      && match stage
         case TABLE => done == []
         case BTREE => blens.Length >= Expected(table) && InBitLengths(table, index, blens[..], done)
         case DTREE =>
           && index <= Expected(table) <= blens.Length && InLengths(table, t, syms, bits, blens[..index], done)
           && tb == t.tables && bb == t.bits
         case _ => true
    }

    constructor (r: BitReader)
      requires r.Valid()
      ensures Valid() && stage.TABLE? && this.r == r && fresh(blens) && done == []
    {
      this.r, stage, table, index := r, TABLE, 0, 0;
      blens := new nat[0];
      bb, tb, bl, tl, bd, td := 0, [], 0, [], 0, [];
      done := [];
    }

    /** TABLE: the counts. */
    method ReadTable() returns (stop: Option<Leaving>)
      requires Valid() && stage.TABLE?
      modifies this`stage, this`table, this`index, this`blens, this`done, r`b, r`k, r`p, r`extra
      ensures r.Valid() && (old(r.InHand()) ==> r.InHand()) && done + r.Ahead() == old(done + r.Ahead())
      ensures (stop.None? ==> Valid() && stage.BTREE?) && (blens == old(blens) || fresh(blens))
      ensures stop.Some? ==> match stop.value
                             case NeedsInput => Valid() && stage.TABLE? && blens == old(blens) && r.p == |r.input| && |r.Ahead()| < 14
                             case Stopped(h) => 
                               && h.BadCounts? && stage.BADB? && done == [] && |r.Ahead()| >= 14
                               && (257 + FromLow(r.Ahead()[..5]) > 286 || 1 + FromLow(r.Ahead()[5..10]) > 30)
    {
      hide BitReader.Valid, BitReader.Ahead, BitReader.InHand, FromLow, LowBits, Pow2, InBitLengths;
      var ok := r.NeedBits(14);
      r.InInput();
      if !ok {
        return Some(NeedsInput);
      }
      r.PeekIs(14);
      table := r.Peek(14);
      CountsRefused(r.Ahead());
      if TooMany(table) {
        stage := BADB;
        return Some(Stopped(BadCounts));
      }
      ghost var ahead := r.Ahead();
      CountsRead(table, ahead);
      blens := new nat[Expected(table)](i => 0);
      r.DumpBits(14);
      index := 0;
      done := LowBits(table, 14);
      BitLengthsStart(table, blens[..]);
      assert done + ahead[14..] == ahead == [] + ahead;
      stage := BTREE;
      stop := None;
    }

    static lemma CountsRead(table: nat, ahead: seq<bool>)
      requires |ahead| >= 14 && table == FromLow(ahead[..14])
      ensures LowBits(table, 14) == ahead[..14] && table < 0x4000 && Expected(table) >= CL.BL_CODES
    {
      LowFromLow(ahead[..14]);
      Pow2Values();
      assert Pow2(14) == 4 * Pow2(12);
    }

    /** BTREE: the lengths of the bit length codes. */
    method ReadBitLengths() returns (ok: bool)
      requires Valid() && stage.BTREE?
      modifies this`index, this`done, blens, r`b, r`k, r`p, r`extra
      ensures Valid() && (old(r.InHand()) ==> r.InHand()) && done + r.Ahead() == old(done + r.Ahead())
      ensures if ok then index == Nb(table) else index < Nb(table) && r.p == |r.input| && |r.Ahead()| < 3
    {
      hide BitReader.Valid, BitReader.Ahead, BitReader.InHand, FromLow, LowBits, Pow2, InBitLengths, BlSymbol;
      r.InInput();
      var border := Border();
      ghost var all := done + r.Ahead();
      ReadingMore(table, index, blens[..], done);
      while index < Nb(table)
        invariant Valid() && (old(r.InHand()) ==> r.InHand()) && r.p <= |r.input| && done + r.Ahead() == all
        invariant index <= Nb(table) <= CL.BL_CODES
      {
        ok := ReadBitLength(border[index]);
        r.InInput();
        if !ok {
          return false;
        }
      }
      ok := true;
    }

    /** One of them. */
    method ReadBitLength(c: nat) returns (ok: bool)
      requires Valid() && stage.BTREE? && index < Nb(table) && c == BlSymbol(index)
      modifies this`index, this`done, blens, r`b, r`k, r`p, r`extra
      ensures Valid() && (old(r.InHand()) ==> r.InHand()) && done + r.Ahead() == old(done + r.Ahead())
      ensures if ok then index == old(index) + 1 else index == old(index) && r.p == |r.input| && |r.Ahead()| < 3
    {
      hide BitReader.Valid, BitReader.Ahead, BitReader.InHand, FromLow, LowBits, Pow2, InBitLengths, BlSymbol;
      r.InInput();
      ok := r.NeedBits(3);
      r.InInput();
      if ok {
        r.PeekIs(3);
        ghost var ahead, was := r.Ahead(), blens[..];
        ThreeBits(ahead, r.Peek(3));
        BitLengthStep(table, index, was, done, r.Peek(3));
        blens[c] := r.Peek(3);
        assert blens[..] == was[c := r.Peek(3)];
        index := index + 1;
        r.DumpBits(3);
        done := done + ahead[..3];
        assert (done[..|done| - 3] + ahead[..3]) + ahead[3..] == done[..|done| - 3] + ahead;
      }
    }

    static lemma ReadingMore(table: nat, index: nat, bl: seq<nat>, done: seq<bool>)
      requires InBitLengths(table, index, bl, done)
      ensures index <= Nb(table) <= CL.BL_CODES <= |bl|
    {
    }

    static lemma ThreeBits(ahead: seq<bool>, x: nat)
      requires |ahead| >= 3 && x == FromLow(ahead[..3])
      ensures LowBits(x, 3) == ahead[..3] && x <= 7
    {
      LowFromLow(ahead[..3]);
      assert Pow2(3) == 8;
    }

    /** The end of BTREE: the other lengths are zero, and inflate_trees_bits makes the table. */
    method BuildBitTree() returns (ok: bool, ghost lens: seq<nat>)
      requires Valid() && stage.BTREE? && index == Nb(table)
      modifies this`stage, this`index, this`bb, this`tb, this`t, this`syms, this`bits, blens
      ensures ok ==> Valid() && stage.DTREE?
      ensures !ok ==> stage.BADB? && Counted14(table) && BitLens(table, lens) && Nb(table) <= CL.BL_CODES && !TreeOk(lens)
                      && done == Counts3(Nl(table), Nd(table), Nb(table)) + BlLens(lens, Nb(table))
    {
      hide *;
      ghost var was := blens[..];
      InBtree();
      ReadingMore(table, index, was, done);
      ClearRest(blens, index);
      BitLengthsDone(table, was, blens[..], done);
      lens := blens[..CL.BL_CODES];
      BitLensSmall(table, lens);
      var res, n, tables;
      ghost var made;
      res, n, tables, made := MakeTable(blens[..CL.BL_CODES], CL.BL_CODES, [], [], 7);
      ok := res == ZOk && n != 0;
      if !ok {
        stage := BADB;
        return;
      }
      MadeOneLook(made, table, lens);
      MadeParts(made, lens, CL.BL_CODES, [], [], 7);
      LengthsStart(table, made, done);
      bb, tb, t, syms, bits := n, tables, made, [], [];
      index := 0;
      assert blens[..0] == [];
      stage := DTREE;
      AtDtree();
    }

    lemma InBtree()
      requires Valid() && stage.BTREE?
      ensures r.Valid() && Expected(table) <= blens.Length && InBitLengths(table, index, blens[..], done)
      ensures Counted14(table) && CL.BL_CODES == 19 <= N_MAX
    {
      hide BitReader.Valid, BlLens, BlSymbol;
    }

    static lemma BitLensSmall(table: nat, lens: seq<nat>)
      requires BitLens(table, lens)
      ensures |lens| == CL.BL_CODES && forall i :: 0 <= i < |lens| ==> lens[i] <= BMAX
    {
    }

    static lemma MadeParts(t: Table, lens: seq<nat>, s: nat, d: seq<nat>, e: seq<nat>, m: nat)
      requires Made(t, lens, s, d, e, m)
      ensures t.lens == lens
    {
    }

    /** One turn of the DTREE loop. */
    method ReadLength() returns (stop: Option<Leaving>, ghost w: Why)
      requires Valid() && stage.DTREE? && index < Expected(table)
      modifies this`stage, this`index, this`done, this`syms, this`bits, blens, r`b, r`k, r`p, r`extra
      ensures r.Valid() && (old(r.InHand()) ==> r.InHand()) && done + r.Ahead() == old(done + r.Ahead())
      ensures stop.None? ==> Valid() && stage.DTREE? && index > old(index)
      ensures stop.Some? ==> match stop.value
                             case NeedsInput => Valid() && stage.DTREE? && index == old(index) && r.p == |r.input| && Wanting(t, r.Ahead())
                             case Stopped(h) => h.BadRepeat? && stage.BADB? && RefusedAt(table, t, syms, bits, done, w)
    {
      hide *;
      InDtree();
      r.InInput();
      LengthsParts(table, t, syms, bits, blens[..index], done);
      ghost var ahead, pre := r.Ahead(), blens[..index];
      w := Why([], CL.Sym(0, 0), []);
      var ok, c, x := ReadSymbol(r, tb, bb, t);
      r.InInput();
      if !ok {
        AtDtree();
        return Some(NeedsInput), w;
      }
      ghost var more := ahead[..|ahead| - |r.Ahead()|];
      assert done + ahead == (done + more) + r.Ahead();
      var i;
      ok, i := Enter(blens, index, Expected(table), c, x);
      if ok {
        LengthsStep(table, t, syms, bits, pre, done, CL.Sym(c, x), more);
        index, syms, bits := i, syms + [CL.Sym(c, x)], bits + more;
        done := done + more;
        stop := None;
        AtDtree();
      } else {
        done := done + more;
        w := Why(pre, CL.Sym(c, x), more);
        assert done[..|done| - |more|] == old(done);
        stage := BADB;
        NowRefused(w);
        stop := Some(Stopped(BadRepeat));
      }
    }

    lemma InDtree()
      requires Valid() && stage.DTREE?
      ensures r.Valid() && index <= Expected(table) <= blens.Length && tb == t.tables && bb == t.bits
      ensures InLengths(table, t, syms, bits, blens[..index], done)
    {
      hide InLengths, BitReader.Valid;
    }

    lemma AtDtree()
      requires r.Valid() && stage.DTREE? && index <= Expected(table) <= blens.Length && tb == t.tables && bb == t.bits
      requires InLengths(table, t, syms, bits, blens[..index], done)
      ensures Valid()
    {
      hide InLengths, BitReader.Valid;
    }

    lemma NowRefused(w: Why)
      requires |w.more| <= |done| && InLengths(table, t, syms, bits, w.lens, done[..|done| - |w.more|]) && |w.lens| < Expected(table)
      requires done[|done| - |w.more|..] == w.more && SpeltOne(t, w.s, w.more) && CL.Apply(w.lens, w.s, Expected(table)).None?
      ensures RefusedAt(table, t, syms, bits, done, w)
    {
    }

    static lemma LengthsParts(table: nat, t: Table, syms: seq<CL.Sym>, bits: seq<bool>, pre: seq<nat>, done: seq<bool>)
      requires InLengths(table, t, syms, bits, pre, done)
      ensures Counted14(table) && OneLook(t) && |pre| <= Expected(table) && forall i :: 0 <= i < |pre| ==> pre[i] <= 15
    {
      hide OneLook;
    }

    /** inflate_trees_dynamic */
    method BuildTrees() returns (ok: bool, ghost lens: seq<nat>)
      requires Valid() && stage.DTREE? && index == Expected(table)
      modifies this`stage, this`bl, this`tl, this`bd, this`td, this`lt, this`dt
      ensures InLengths(table, t, syms, bits, lens, done) && |lens| == Expected(table)
      ensures ok <==> Accepted(lens, Nl(table))
      ensures if ok then stage.CODES? && Built(lens) else stage.BADB?
    {
      hide *;
      InDtree();
      lens := blens[..index];
      LengthsParts(table, t, syms, bits, lens, done);
      CountsWithin(table);
      BaseSizes();
      var nl, nd := Nl(table), Nd(table);
      assert blens[..nl] == lens[..nl] && blens[nl..nl + nd] == lens[nl..];
      var res;
      res, bl, tl, lt := MakeTable(blens[..nl], 257, Cplens(), Cplext(), 9);
      AcceptedIf(lens, nl);
      if res != ZOk || bl == 0 {
        stage := BADB;
        return false, lens;
      }
      res, bd, td, dt := MakeTable(blens[nl..nl + nd], 0, Cpdist(), Cpdext(), 6);
      if res != ZOk || (bd == 0 && nl > 257) {
        stage := BADB;
        return false, lens;
      }
      stage := CODES;
      NowBuilt(lens);
      ok := true;
    }

    static lemma CountsWithin(table: nat)
      requires Counted14(table)
      ensures 257 <= Nl(table) <= 286 && 1 <= Nd(table) <= 30 && Nl(table) + Nd(table) == Expected(table) && N_MAX == 288 && BMAX == 15
    {
    }

    static lemma BaseSizes()
      ensures |Cplens()| >= 29 && |Cplext()| >= 29 && |Cpdist()| >= 30 && |Cpdext()| >= 30
    {
    }

    static lemma AcceptedIf(lens: seq<nat>, nl: nat)
      requires nl <= |lens|
      ensures Accepted(lens, nl) <==> TreeOk(lens[..nl]) && (TreeOk(lens[nl..]) || (Symbols(lens[nl..]) == {} && nl == 257))
      ensures TreeOk(lens[nl..]) ==> Symbols(lens[nl..]) != {}
    {
      hide Kraft, Symbols;
    }

    lemma NowBuilt(lens: seq<nat>)
      requires Expected(table) == |lens|
      requires Made(lt, lens[..Nl(table)], 257, Cplens(), Cplext(), 9) && tl == lt.tables && bl == lt.bits
      requires if Symbols(lens[Nl(table)..]) == {} then bd == 0 && td == []
               else Made(dt, lens[Nl(table)..], 0, Cpdist(), Cpdext(), 6) && td == dt.tables && bd == dt.bits
      ensures Built(lens)
    {
      hide Made;
    }

    /** The tables for both trees. */
    ghost predicate Built(lens: seq<nat>)
      reads this
    {
      && |lens| == Expected(table) && Made(lt, lens[..Nl(table)], 257, Cplens(), Cplext(), 9) && tl == lt.tables && bl == lt.bits
      && (if Symbols(lens[Nl(table)..]) == {} then bd == 0 && td == []
          else Made(dt, lens[Nl(table)..], 0, Cpdist(), Cpdext(), 6) && td == dt.tables && bd == dt.bits)
    }

    /** Reading goes on only with more input. */
    ghost predicate Short()
      requires r.p <= |r.input|
      reads this, r
    {
      && r.p == |r.input|
      && match stage
         case TABLE => |r.Ahead()| < 14
         case BTREE => index < Nb(table) && |r.Ahead()| < 3
         case DTREE => index < Expected(table) && Wanting(t, r.Ahead())
         case _ => false
    }

    /** What the bits read say, and the tables if there are any. */
    ghost predicate Ends(h: Heading, w: Why)
      requires r.p <= |r.input|
      reads this, r
    {
      EndsAt(h, table, t, syms, bits, done, w, r.Ahead()) && (h.TreesRead? ==> Built(w.lens))
    }

    lemma Reads()
      requires Valid()
      ensures r.Valid() && r.p <= |r.input|
    {
      hide BitReader.Valid, InLengths, InBitLengths;
      r.InInput();
    }

    /** The caller comes back with more input. */
    method Supply(chunk: seq<byte>)
      requires Valid() && r.p == |r.input|
      modifies r`input, r`p
      ensures Valid() && r.input == chunk && r.p <= |r.input| && r.Ahead() == old(r.Ahead()) + BitWriting.ByteBits(chunk)
    {
      hide BitReader.Valid, BitReader.Ahead, InLengths, InBitLengths;
      r.Supply(chunk);
    }

    /** The trees, as far as the input goes. */
    method Process() returns (leave: Leaving, ghost w: Why)
      requires Valid() && !stage.CODES? && !stage.BADB?
      modifies this, blens, r`b, r`k, r`p, r`extra
      ensures blens == old(blens) || fresh(blens)
      ensures r.Valid() && (old(r.InHand()) ==> r.InHand()) && done + r.Ahead() == old(done + r.Ahead())
      ensures match leave
              case NeedsInput => Valid() && Short()
              case Stopped(h) => Ends(h, w) && (if h.TreesRead? then stage.CODES? else stage.BADB?)
    {
      hide Valid, BitReader.Valid, BitReader.Ahead, BitReader.InHand, InLengths, InBitLengths, Built, RefusedAt, Wanting, BitLens, BlLens,
        TreeOk, Counted14, FromLow, Accepted;
      Reads();
      w := Why([], CL.Sym(0, 0), []);
      if stage.TABLE? {
        var stop := ReadTable();
        r.InInput();
        if stop.Some? {
          return stop.value, w;
        }
      }
      if stage.BTREE? {
        var ok := ReadBitLengths();
        Reads();
        if !ok {
          return NeedsInput, w;
        }
        ghost var lens;
        ok, lens := BuildBitTree();
        if !ok {
          w := w.(lens := lens);
          return Stopped(BadBitLengths), w;
        }
      }
      leave, w := ReadTrees();
    }

    /** DTREE */
    method ReadTrees() returns (leave: Leaving, ghost w: Why)
      requires Valid() && stage.DTREE?
      modifies this, blens, r`b, r`k, r`p, r`extra
      ensures blens == old(blens)
      ensures r.Valid() && (old(r.InHand()) ==> r.InHand()) && done + r.Ahead() == old(done + r.Ahead())
      ensures match leave
              case NeedsInput => Valid() && Short()
              case Stopped(h) => Ends(h, w) && (if h.TreesRead? then stage.CODES? else stage.BADB?)
    {
      hide Valid, BitReader.Valid, BitReader.Ahead, BitReader.InHand, InLengths, Built, RefusedAt, Wanting, Expected, Accepted;
      InDtree();
      r.InInput();
      w := Why([], CL.Sym(0, 0), []);
      ghost var all := done + r.Ahead();
      while index < Expected(table)
        invariant Valid() && stage.DTREE? && r.p <= |r.input| && index <= Expected(table) && blens == old(blens)
        invariant done + r.Ahead() == all && (old(r.InHand()) ==> r.InHand())
      {
        var stop;
        stop, w := ReadLength();
        r.InInput();
        if stop.Some? {
          return stop.value, w;
        }
        InDtree();
      }
      InDtree();
      var ok;
      ghost var lens;
      ok, lens := BuildTrees();
      w := w.(lens := lens);
      leave := Stopped(if ok then TreesRead else BadTrees);
    }
  }
}
