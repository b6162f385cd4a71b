/**
 Where inflate_fast goes wrong: bits left over from one input buffer and bytes of the next are
 held together, and UNGRAB hands back more bytes than it took from the buffer at hand.
 */
module LostBytes {
  import opened Options
  import opened Arith
  import opened Bits
  import opened BitOrder
  import opened Sums
  import opened Alphabet
  import opened Lz77Tokens
  import opened HuffmanTheory
  import opened LengthRepair
  import opened CanonicalCodes
  import opened HuftTheory
  import opened HuftState
  import opened HuftPlacing
  import opened HuftBuilding
  import opened HuftTrees
  import opened HuftDecoding
  import opened BitWriting
  import opened BitReading
  import opened InflateScript
  import opened InflateSteps
  import opened InflateFast
  import opened TreeReading
  import opened Window
  import Codebook

  /** Lengths of literal codes: one bit for the literal 0, nine for 128 others, two for the end of the block. */
  function Skewed(): (lens: seq<nat>)
    ensures |lens| == 257
  {
    seq(257, n => if n == 0 then 1 else if n <= 128 then 9 else if n == END_BLOCK then 2 else 0)
  }

  /** And of distance codes. */
  function Pair(): (lens: seq<nat>) {
    [1, 1]
  }

  /** Equal terms in a row. */
  lemma {:induction false} SumRow(a: set<nat>, g: seq<nat>, m: nat, n: nat, v: nat)
    requires m <= n <= |g| && forall i :: m <= i < n ==> (if i in a then g[i] else 0) == v
    ensures SumOver(a, g, n) == SumOver(a, g, m) + (n - m) * v
    decreases n
  {
    if m < n {
      SumRow(a, g, m, n - 1, v);
      MulAdd(v, n - 1 - m, 1);
    }
  }

  lemma SumSkewed(g: seq<nat>, x: nat, y: nat, z: nat)
    requires |g| == 257 && g[0] == x && g[256] == z && forall i :: 1 <= i <= 128 ==> g[i] == y
    ensures SumOver(Symbols(Skewed()), g, 257) == x + 128 * y + z
  {
    var a := Symbols(Skewed());
    SumRow(a, g, 0, 1, x);
    SumRow(a, g, 1, 129, y);
    SumRow(a, g, 129, 256, 0);
    SumRow(a, g, 256, 257, z);
  }

  /** These lengths are complete, and one code has one bit. */
  lemma SkewedComplete()
    ensures 0 in Symbols(Skewed()) && END_BLOCK in Symbols(Skewed())
    ensures Kraft(Symbols(Skewed()), Skewed(), BMAX) == Pow2(BMAX) && CountAt(Symbols(Skewed()), Skewed(), 1) == 1
  {
    var lens := Skewed();
    hide Symbols;
    SumSkewed(Shares(lens, BMAX), Pow2(14), Pow2(6), Pow2(13));
    SumSkewed(IsLength(lens, 1), 1, 0, 0);
    PowersHere();
    SkewedUsed();
  }

  lemma SkewedUsed()
    ensures 0 in Symbols(Skewed()) && END_BLOCK in Symbols(Skewed())
  {
  }

  lemma PowersHere()
    ensures Pow2(6) == 64 && Pow2(13) == 8192 && Pow2(14) == 16384 && Pow2(15) == 32768
  {
    Pow2Values();
  }

  lemma PairComplete()
    ensures Symbols(Pair()) == {0, 1} && Kraft(Symbols(Pair()), Pair(), BMAX) == Pow2(BMAX)
  {
    assert Symbols(Pair()) == {0, 1};
    SumRow({0, 1}, Shares(Pair(), BMAX), 0, 2, Pow2(14));
    PowersHere();
  }

  /** The tables of a dynamic block with these lengths. */
  ghost predicate SkewedTables(lt: Table, dt: Table) {
    && lt.Valid(LITERALS + 1, Cplens(), Cplext()) && lt.lens == Skewed() && lt.bits == lt.f.g == 9 && CountedBelow(lt.lens, lt.f.c, lt.f.g)
    && dt.Valid(0, Cpdist(), Cpdext()) && dt.lens == Pair()
  }

  /** huft_build makes them, as inflate_trees_dynamic calls it. */
  method MakeSkewed() returns (bl: nat, tl: seq<seq<Huft>>, bd: nat, td: seq<seq<Huft>>, ghost lt: Table, ghost dt: Table)
    ensures SkewedTables(lt, dt) && tl == lt.tables && bl == lt.bits && td == dt.tables && bd == dt.bits
  {
    hide *;
    SkewedComplete();
    PairComplete();
    SizesHere();
    var res;
    res, bl, tl, lt := MakeTable(Skewed(), LITERALS + 1, Cplens(), Cplext(), 9);
    res, bd, td, dt := MakeTable(Pair(), 0, Cpdist(), Cpdext(), 6);
    AreSkewed(lt, dt);
  }

  lemma SizesHere()
    ensures (forall i :: 0 <= i < |Skewed()| ==> Skewed()[i] <= BMAX) && |Skewed()| == 257 <= N_MAX && LITERALS + 1 == 257
    ensures |Pair()| == 2 && Pair()[0] <= BMAX && Pair()[1] <= BMAX && |Cpdist()| >= 2 && |Cpdext()| >= 2
  {
  }

  lemma AreSkewed(lt: Table, dt: Table)
    requires Made(lt, Skewed(), LITERALS + 1, Cplens(), Cplext(), 9) && Made(dt, Pair(), 0, Cpdist(), Cpdext(), 6)
    requires Kraft(Symbols(Pair()), Pair(), BMAX) == Pow2(BMAX)
    ensures SkewedTables(lt, dt)
  {
    hide Tabled, CountedBelow, Counts, Table.Valid, Kraft, Symbols, Pow2, Skewed;
    SkewedSize(lt.bits, lt.f.g);
    CallersTablesWork(lt, 9, LITERALS + 1, Cplens(), Cplext());
    CallersTablesWork(dt, 6, 0, Cpdist(), Cpdext());
  }

  lemma SkewedSize(bits: nat, g: nat)
    requires Sized(Skewed(), 9, bits, g)
    ensures bits == g == 9
  {
    var lens := Skewed();
    assert lens[0] == 1 && lens[1] == 9;
  }

  /** The words: 0 for the literal, 10 for the end of the block. */
  lemma SkewedWords(lt: Table, dt: Table)
    requires SkewedTables(lt, dt)
    ensures lt.Book().Word(0) == [false] && lt.Book().Word(END_BLOCK) == [true, false]
  {
    hide Table.Valid, Tabled, CountedBelow, Skewed, Symbols, CountAt, BookOf, Codebook.Code.Word, ToBits;
    SkewedCounts(lt, dt);
    SkewedComplete();
    SkewedLens();
    FirstCodes(Symbols(lt.lens), lt.lens, lt.f.c);
    BookWord(lt.lens, lt.f.c, 0);
    BookWord(lt.lens, lt.f.c, END_BLOCK);
    BitsHere();
  }

  lemma FirstCodes(a: set<nat>, lens: seq<nat>, c: seq<nat>)
    requires |lens| == 257 && lens[0] == 1 && lens[END_BLOCK] == 2 && (forall n :: 0 <= n < END_BLOCK ==> lens[n] != 2)
    requires |c| > 9 && c[0] == 0 && c[1] == 1
    ensures CanonicalCodes.Code(a, lens, c, 0) == 0 && CanonicalCodes.Code(a, lens, c, END_BLOCK) == 2
  {
    hide CountAt, Rank;
    NoneBelow(a, lens, 0, 1);
    NoneBelow(a, lens, END_BLOCK, 2);
    assert NextCode(c, 1) == 0 && NextCode(c, 2) == 2;
  }

  lemma BitsHere()
    ensures ToBits(0, 1) == [false] && ToBits(2, 2) == [true, false]
  {
    assert ToBits(0, 0) == [] && ToBits(1, 0) == [] && ToBits(1, 1) == [true];
  }

  lemma SkewedLens()
    ensures Skewed()[0] == 1 && Skewed()[END_BLOCK] == 2 && forall n :: 0 <= n < END_BLOCK ==> Skewed()[n] != 2
  {
  }

  lemma SkewedCounts(lt: Table, dt: Table)
    requires SkewedTables(lt, dt)
    ensures |lt.f.c| > 9 && lt.f.c[0] == 0 && lt.f.c[1] == CountAt(Symbols(Skewed()), Skewed(), 1)
    ensures forall n :: 0 <= n < |lt.lens| ==> lt.lens[n] <= |lt.f.c|
  {
    hide Symbols, CountAt, Skewed, Sound, AllSet, NoSkip, Plan.IsCode;
  }

  lemma NoneBelow(a: set<nat>, lens: seq<nat>, n: nat, k: nat)
    requires n < |lens| && forall i :: 0 <= i < n ==> lens[i] != k
    ensures Rank(a, lens, n, k) == 0
  {
    SumRow(CanonicalCodes.Below(a, n), IsLength(lens, k), 0, |lens|, 0);
  }

  /** A block of the literal 0 alone. */
  ghost function ZeroBlock(lt: Table, dt: Table, tail: seq<bool>): Script {
    Script(lt, dt, [Lit(0)], [Token(0, 0)], EndOfBlock, tail)
  }

  lemma ZeroBlockValid(lt: Table, dt: Table, tail: seq<bool>)
    requires SkewedTables(lt, dt)
    ensures var s := ZeroBlock(lt, dt, tail);
            s.Valid() && s.lt == lt && s.dt == dt && |s.items| == 1 && s.items[0] == Lit(0) && s.ending.EndOfBlock? && s.tail == tail
  {
    hide Script.Tabled, Table.Valid, CountedBelow, Symbols, Cplens, Cplext, Cpdist, Cpdext, ExtraLbits, ExtraDbits, Pow2, Skewed, Pair;
    SkewedComplete();
    ZeroBlockTabled(lt, dt, tail);
  }

  lemma ZeroBlockTabled(lt: Table, dt: Table, tail: seq<bool>)
    requires SkewedTables(lt, dt)
    ensures ZeroBlock(lt, dt, tail).Tabled()
  {
    hide Table.Valid, CountedBelow, Symbols, Cplens, Cplext, Cpdist, Cpdext, Skewed;
  }

  lemma ZeroBlockBits(lt: Table, dt: Table, tail: seq<bool>)
    requires SkewedTables(lt, dt)
    ensures var s := ZeroBlock(lt, dt, tail);
            s.Valid() && s.lt == lt && s.dt == dt && |s.items| == 1 && s.ending.EndOfBlock? && s.tail == tail
    ensures var s := ZeroBlock(lt, dt, tail); s.From(0) == [false] + s.From(1) && s.From(1) == [true, false] + tail
  {
    hide *;
    ZeroBlockValid(lt, dt, tail);
    SkewedWords(lt, dt);
    BlockFrom(ZeroBlock(lt, dt, tail));
  }

  lemma BlockFrom(s: Script)
    requires s.Valid() && |s.items| == 1 && s.items[0] == Lit(0) && s.ending.EndOfBlock?
    ensures s.Tabled() && (forall n :: 0 <= n < |s.lt.lens| ==> s.lt.lens[n] <= |s.lt.f.c|) && END_BLOCK < |s.lt.Book().len|
    ensures s.From(0) == s.lt.Book().Word(0) + s.From(1) && s.From(1) == s.lt.Book().Word(END_BLOCK) + s.tail
  {
    hide Tabled, NoSkip, BookOf, Codebook.Code.Word, Cplens, Cplext, Cpdist, Cpdext;
    assert s.Sends(s.items[0]);
    assert s.From(1) == s.EndBits() + s.tail;
  }

  /** Eight bits are held and one byte is left when the literal begins.  NEEDBITS(9) takes that byte, the literal uses one bit,
      and fifteen stay when the output turns out to be full. */
  method LiteralTaken(r: BitReader, bl: nat, tl: seq<seq<Huft>>, ghost lt: Table, ghost dt: Table, ghost tail: seq<bool>) returns (t: Huft)
    requires SkewedTables(lt, dt) && tl == lt.tables && bl == lt.bits
    requires r.Valid() && r.k == 8 && r.p + 1 == |r.input| && ZeroBlock(lt, dt, tail).Valid() && r.Ahead() <= ZeroBlock(lt, dt, tail).From(0)
    modifies r`b, r`k, r`p, r`extra
    ensures t == Huft(0, 1, 0) && r.Valid() && r.k == 15 && r.p == |r.input| && r.Ahead() == old(r.Ahead())[1..]
  {
    hide *;
    ghost var s := ZeroBlock(lt, dt, tail);
    NineBits(lt, dt);
    r.HeldWithin();
    var ok := r.NeedBits(bl);
    r.HeldWithin();
    OneByteTaken(|old(r.Ahead())|, r.k, r.p, |r.input|);
    r.PeekIs(bl);
    LiteralEntry(lt, dt, tail, r.Ahead(), r.Peek(bl));
    t := tl[0][r.Peek(bl)];
    r.DumpBits(t.bits);
  }

  lemma NineBits(lt: Table, dt: Table)
    requires SkewedTables(lt, dt)
    ensures lt.bits == 9
  {
    hide Table.Valid, CountedBelow;
  }

  lemma OneByteTaken(ahead: nat, k: nat, p: nat, n: nat)
    requires ahead == 16 == k + 8 * (n - p) && k >= 8 && p <= n && (k >= 9 || p == n)
    ensures k == 16 && p == n
  {
  }

  lemma LiteralEntry(lt: Table, dt: Table, tail: seq<bool>, look: seq<bool>, idx: nat)
    requires SkewedTables(lt, dt) && ZeroBlock(lt, dt, tail).Valid() && look <= ZeroBlock(lt, dt, tail).From(0) && |look| >= 9
    requires idx == FromLow(look[..9]) && idx < Pow2(9)
    ensures |lt.tables| > 0 && idx < |lt.tables[0]| && lt.tables[0][idx] == Huft(0, 1, 0)
  {
    hide Table.Valid, CountedBelow, AtTable, EntryAt, Pow2, FromLow, ToBits, Plan.IsCode, Script.Valid, Script.From, Skewed, Symbols, BookOf,
      Codebook.Code.Word, Cplens, Cplext, Cpdist, Cpdext, Reached, Looked, Tells, IsLink;
    var s, rest := ZeroBlock(lt, dt, tail), ZeroBlock(lt, dt, tail).From(0);
    FirstTableReached(lt, LITERALS + 1, Cplens(), Cplext());
    InflateScript.FirstTable(lt, LITERALS + 1, Cplens(), Cplext());
    TableParts(lt, LITERALS + 1, Cplens(), Cplext(), 0, []);
    SkewedComplete();
    SkewedWords(lt, dt);
    ZeroBlockBits(lt, dt, tail);
    var k, v, op := SymbolEntry(lt, LITERALS + 1, Cplens(), Cplext(), 0);
    EntryOps(0);
    assert [] + rest == rest && |ToBits(v, k)| == k;
    LookUp(lt, LITERALS + 1, Cplens(), Cplext(), 0, [], look, rest, k, v);
    WideFirst(lt, dt);
    NoLinks(lt, look);
    InFirst(lt, idx);
    IndexedEntry(lt, 0, [], look, idx);
    TellsLiteral(lt.tables[0][idx], rest);
  }

  lemma TellsLiteral(t: Huft, rest: seq<bool>)
    requires Tells(t, Op(0, 0), 1, [], rest)
    ensures t == Huft(0, 1, 0)
  {
  }

  lemma WideFirst(lt: Table, dt: Table)
    requires SkewedTables(lt, dt)
    ensures lt.f.l == lt.f.g == lt.bits == 9
  {
    hide Sound, AllSet, NoSkip, CountedBelow, Plan.IsCode;
  }

  lemma InFirst(t: Table, idx: nat)
    requires Looked(t, 0, []) && idx < Pow2(t.ms[0].j)
    ensures |t.tables| > 0 && idx < |t.tables[0]|
  {
  }

  /** The output has room again, and there is new input: inflate_fast takes one byte of it for the end of the block and hands
      back two. */
  method EndLost(bl: nat, tl: seq<seq<Huft>>, bd: nat, td: seq<seq<Huft>>, r: BitReader, w: Window, ghost lt: Table, ghost dt: Table,
                 ghost h: seq<byte>, ghost tail: seq<bool>) returns (res: Fast, lost: bool)
    requires SkewedTables(lt, dt) && tl == lt.tables && bl == lt.bits && td == dt.tables && bd == dt.bits
    requires r.Valid() && r.k == 15 && r.p == 0 && |r.input| >= 10 && r.Ahead() <= [true, false] + tail
    requires w.Valid() && w.hist == h + [0] && w.m >= 258
    modifies r`b, r`k, r`p, r`extra, w`write, w`m, w`hist, w`produced, w.window
    ensures res.FastEnd? && w.hist == old(w.hist) && lost && r.Valid() && r.k / 8 == r.p + 1
    ensures r.p <= |r.input| && r.Ahead() == old(r.Ahead())[2..]
  {
    hide *;
    ghost var s := ZeroBlock(lt, dt, tail);
    ZeroBlockBits(lt, dt, tail);
    BeforeEnd(lt, dt, tail, h, r, w);
    var n;
    ghost var i;
    r.HeldWithin();
    res, n, lost, i := FastLoop(bl, bd, tl, td, r, w, s, h, 1);
    AfterEnd(lt, dt, tail, h, i, old(w.hist), w.hist);
    r.HeldWithin();
    SameTail(old(r.Ahead()), r.Ahead(), tail);
  }

  lemma BeforeEnd(lt: Table, dt: Table, tail: seq<bool>, h: seq<byte>, r: BitReader, w: Window)
    requires SkewedTables(lt, dt) && ZeroBlock(lt, dt, tail).Valid() && r.Valid() && w.Valid() && w.hist == h + [0]
    requires r.p <= |r.input| && r.Ahead() <= ZeroBlock(lt, dt, tail).From(1)
    ensures AtToken(ZeroBlock(lt, dt, tail), h, 1, r, w) && Told(h, ZeroBlock(lt, dt, tail).ts, 1, w.hist)
  {
    hide Script.Valid, Script.From, BitReader.Valid, BitReader.Ahead, Window.Valid, SkewedTables;
    var ts := [Token(0, 0)];
    assert ts[..0] == [] && ts[..1] == ts;
    assert ExpandOn(h, []) == Some(h) && ExpandOn(h, ts) == Some(h + [0]);
  }

  lemma SameTail(before: seq<bool>, after: seq<bool>, tail: seq<bool>)
    requires before <= [true, false] + tail && after <= tail && |after| == |before| - 2
    ensures after == before[2..]
  {
    assert forall i :: 0 <= i < |after| ==> after[i] == ([true, false] + tail)[i + 2];
  }

  lemma AfterEnd(lt: Table, dt: Table, tail: seq<bool>, h: seq<byte>, i: nat, hist: seq<byte>, hist': seq<byte>)
    requires ZeroBlock(lt, dt, tail).Valid()
    requires Told(h, ZeroBlock(lt, dt, tail).ts, 1, hist) && i == 1 && Told(h, ZeroBlock(lt, dt, tail).ts, i, hist')
    ensures hist == hist' && |ZeroBlock(lt, dt, tail).items| == 1
  {
  }
}
