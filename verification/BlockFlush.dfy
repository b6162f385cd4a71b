/**
 The block level of deflate as one object: _tr_tally collects tokens, _tr_flush_block sends
 them as a stored, static or dynamic block, and compressedLen never strays from the number of
 bits sent.
 */
module BlockFlush {
  import opened Options
  import opened Arith
  import opened Bits
  import opened BitOrder
  import opened BitWriting
  import opened Codebook
  import opened Alphabet
  import opened DeflateState
  import opened TreeBuilder
  import opened Lz77Tokens
  import opened Blocks
  import opened BlockSizes
  import opened BlockTrees
  import opened BlockWriter
  import CodeLengths
  import StaticTrees

  const STORED_BLOCK: nat := 0
  const STATIC_TREES: nat := 1
  const DYN_TREES: nat := 2

  /** The kind of block that was sent. */
  datatype Kind = Stored | Static | Dynamic

  /** lit_bufsize is at most 2^15 (memory level 9). */
  const MAX_LIT_BUFSIZE: nat := 0x8000

  /** The head of every block: its type, and whether it is the last. */
  function TypeBits(kind: nat, eof: bool): seq<bool> {
    LowBits(2 * kind + (if eof then 1 else 0), 3)
  }

  /** The bits after `bits` up to the next byte boundary. */
  function Padding(bits: seq<bool>): (p: seq<bool>)
    ensures |bits + p| % 8 == 0 && |p| < 8
  {
    seq((8 - |bits| % 8) % 8, i => false)
  }

  /** The lengths and bytes of a stored block. */
  function StoredBits(data: seq<byte>): (b: seq<bool>)
  {
    (LowBits(|data| % 0x1_0000, 16) + LowBits(0xffff - |data| % 0x1_0000, 16)) + ByteBits(data)
  }

  lemma StoredSize(data: seq<byte>)
    ensures |StoredBits(data)| == 8 * (|data| + 4)
  {
  }

  /** copy_block with header. */
  method CopyBlock(w: BitWriter, data: seq<byte>)
    requires w.Valid()
    modifies w
    ensures w.Valid() && w.Bits() == (old(w.Bits()) + Padding(old(w.Bits()))) + StoredBits(data)
  {
    hide LowBits;
    ghost var before := w.Bits();
    w.BiWindup();
    WindupPads(before, w.Bits());
    assert w.Bits() == ByteBits(w.pending) by { NoMore(w.biBuf, w.biValid, w.pending); }
    ghost var head := ByteBits(w.pending);
    ghost var x, y := LowBits(|data| % 0x1_0000, 16), LowBits(0xffff - |data| % 0x1_0000, 16);
    var len := |data| % 0x1_0000;
    w.PutShort(len);
    w.PutShort(0xffff - len);
    ghost var mid := w.pending;
    var n: nat := 0;
    assert mid + data[..0] == mid;
    while n < |data|
      invariant n <= |data| && w.biValid == 0 && w.biBuf == 0 && w.pending == mid + data[..n]
    {
      w.pending := w.pending + [data[n]];
      n := n + 1;
    }
    assert data[..n] == data;
    ByteBitsConcat(mid, data);
    NoMore(w.biBuf, w.biValid, w.pending);
    assert ((head + x) + y) + ByteBits(data) == head + ((x + y) + ByteBits(data));
    assert w.Valid() by { PowZero(); }
  }

  lemma PowZero()
    ensures Pow2(0) == 1
  {
  }

  lemma NoMore(buf: nat, valid: nat, pending: seq<byte>)
    requires valid == 0
    ensures ByteBits(pending) + LowBits(buf, valid) == ByteBits(pending)
  {
  }

  lemma WindupPads(before: seq<bool>, after: seq<bool>)
    requires before <= after && |after| % 8 == 0 && |after| < |before| + 8
    requires forall i :: |before| <= i < |after| ==> !after[i]
    ensures after == before + Padding(before)
  {
    assert |Padding(before)| == |after| - |before|;
  }

  /** The fixed code books. */
  ghost predicate Books(sl: Codebook.Code, sd: Codebook.Code) {
    && |sl.len| >= L_CODES && |sd.len| >= D_CODES
    && (forall n :: 0 <= n < L_CODES ==> sl.Has(n)) && (forall n :: 0 <= n < D_CODES ==> sd.Has(n))
  }

  lemma AllStatic(ts: seq<Token>, sl: Codebook.Code, sd: Codebook.Code)
    requires Books(sl, sd) && AllInRange(ts)
    ensures AllCoded(ts, sl, sd) && sl.Has(END_BLOCK)
  {
    hide DistCode, LitSymbol, InRange, Codebook.Code.Has;
    forall i | 0 <= i < |ts|
      ensures Blocks.Coded(ts[i], sl, sd)
    {
      SymbolsInRange(ts[i]);
    }
  }

  method NewBuffer(n: nat) returns (a: array<nat>)
    ensures fresh(a) && a.Length == n
  {
    a := new nat[n](i => 0);
  }

  /** init_block for the three trees. */
  method ClearFreqs(fc: array<nat>, n: nat)
    requires n <= fc.Length
    modifies fc
    ensures forall i :: 0 <= i < n ==> fc[i] == 0
  {
    var i := 0;
    while i < n
      invariant i <= n && forall j :: 0 <= j < i ==> fc[j] == 0
    {
      fc[i] := 0;
      i := i + 1;
    }
  }

  lemma NoTokensCounted(lf: seq<nat>, df: seq<nat>)
    requires L_CODES <= |lf| && D_CODES <= |df|
    requires forall i :: 0 <= i < L_CODES ==> lf[i] == if i == END_BLOCK then 1 else 0
    requires forall i :: 0 <= i < D_CODES ==> df[i] == 0
    ensures Counted(lf, LitFreqs([])) && Counted(df, DistFreqs([]))
  {
  }

  /** One more token, counted. */
  lemma CountedPut(lf: seq<nat>, df: seq<nat>, ts: seq<Token>, t: Token)
    requires Counted(lf, LitFreqs(ts)) && Counted(df, DistFreqs(ts)) && InRange(t)
    ensures LitSymbol(t) < |lf| && Counted(lf[LitSymbol(t) := lf[LitSymbol(t)] + 1], LitFreqs(ts + [t]))
    ensures t.dist == 0 ==> Counted(df, DistFreqs(ts + [t]))
    ensures t.dist > 0 ==> var n := DistCode(t.dist - 1); n < |df| && Counted(df[n := df[n] + 1], DistFreqs(ts + [t]))
  {
    hide LitSymbol, DistCode, LitCount, DistCount, InRange;
    FreqsPut(ts, t);
    SymbolsInRange(t);
    assert lf[LitSymbol(t)] == lf[..L_CODES][LitSymbol(t)];
    if t.dist > 0 {
      assert df[DistCode(t.dist - 1)] == df[..D_CODES][DistCode(t.dist - 1)];
    }
  }

  class Deflater {
    const w: BitWriter
    const s: State
    const lt: Tree
    const dt: Tree
    const bt: Tree
    const tables: Tables
    const slCode: array<nat>
    const slLen: array<nat>
    const sdCode: array<nat>
    const sdLen: array<nat>
    const dBuf: array<nat>
    const lBuf: array<nat>
    const level: nat
    var lastLit: nat
    var compressedLen: int
    var lastEobLen: nat

    /** What never changes: sizes, distinct arrays, constant tables. */
    ghost predicate Fixed()
      reads slCode, slLen, sdCode, sdLen
    {
      && Distinct(s, lt, dt, bt) && tables.Valid()
      && dBuf.Length == lBuf.Length <= MAX_LIT_BUFSIZE && dBuf != lBuf
      && Outside(dBuf) && Outside(lBuf) && Outside(slCode) && Outside(slLen) && Outside(sdCode) && Outside(sdLen)
      && dBuf !in {slCode, slLen, sdCode, sdLen} && lBuf !in {slCode, slLen, sdCode, sdLen}
      && Books(StaticLit(), StaticDist())
      && lt.desc == LDesc(slLen[..]) && dt.desc == DDesc(sdLen[..]) && bt.desc == BlDesc()
    }

    /** x is none of the arrays of the trees and of the state they are built with. */
    ghost predicate Outside(x: array<nat>) {
      x !in {lt.fc, lt.dl, dt.fc, dt.dl, bt.fc, bt.dl, s.heap, s.depth, s.blCount}
    }

    ghost function StaticLit(): Codebook.Code
      reads slCode, slLen
    {
      Codebook.Code(slCode[..], slLen[..])
    }

    ghost function StaticDist(): Codebook.Code
      reads sdCode, sdLen
    {
      Codebook.Code(sdCode[..], sdLen[..])
    }

    /** The tokens collected for the current block. */
    ghost function Block(): seq<Token>
      requires lastLit <= dBuf.Length == lBuf.Length
      reads this, dBuf, lBuf
    {
      Tokens(dBuf[..], lBuf[..], lastLit)
    }

    /** The frequencies count the collected tokens, and the length accounts for every bit. */
    ghost predicate Valid()
      reads this, w, s, lt.fc, dt.fc, bt.fc, dBuf, lBuf, slCode, slLen, sdCode, sdLen
    {
      && Fixed() && w.Valid() && lastLit <= dBuf.Length
      && AllInRange(Block()) && Counted(lt.fc[..], LitFreqs(Block())) && Counted(dt.fc[..], DistFreqs(Block()))
      && (forall c :: 0 <= c < CodeLengths.BL_CODES && c < bt.fc.Length ==> bt.fc[c] == 0)
      && s.optLen == 0 && s.staticLen == 0 && compressedLen == |w.Bits()|
    }

    /** The state of a new stream, given the constant tables; _tr_init goes on to call init_block. */
    constructor (litBufsize: nat, lev: nat, tab: Tables, lc: array<nat>, ll: array<nat>, dc: array<nat>, dl: array<nat>)
      requires litBufsize <= MAX_LIT_BUFSIZE && tab.Valid()
      requires Books(Codebook.Code(lc[..], ll[..]), Codebook.Code(dc[..], dl[..]))
      ensures Fixed() && w.Valid() && w.Bits() == [] && compressedLen == 0 && dBuf.Length == lBuf.Length == litBufsize && level == lev
      ensures slCode == lc && slLen == ll && sdCode == dc && sdLen == dl
      ensures fresh(w) && fresh(s) && fresh({lt, dt, bt}) && fresh({lt.fc, dt.fc, bt.fc})
      ensures fresh({lt.dl, dt.dl, bt.dl}) && fresh({s.heap, s.depth, s.blCount}) && fresh({dBuf, lBuf})
    {
      hide Books, LDesc, DDesc, BlDesc, StaticDesc.Valid, StaticDesc.Size, Tables.Valid, BitWriter.Valid, BitWriter.Bits;
      Deflater.BooksSizes(ll[..], dl[..]);
      tables, slCode, slLen, sdCode, sdLen := tab, lc, ll, dc, dl;
      w := new BitWriter();
      s := new State();
      lt := new Tree(LDesc(ll[..]));
      dt := new Tree(DDesc(dl[..]));
      bt := new Tree(BlDesc());
      var dists := NewBuffer(litBufsize);
      var lits := NewBuffer(litBufsize);
      dBuf, lBuf := dists, lits;
      level, lastLit, compressedLen, lastEobLen := lev, 0, 0, 8;
      new;
    }

    static lemma BooksSizes(l: seq<nat>, d: seq<nat>)
      requires exists lc, dc :: Books(Codebook.Code(lc, l), Codebook.Code(dc, d))
      ensures LDesc(l).Valid() && DDesc(d).Valid() && BlDesc().Valid()
    {
      DescsValid(l, d);
    }

    /** _tr_tally, but for the guess whether to end the block early, which the caller may make at will. */
    method TrTally(dist: nat, lc: nat) returns (full: bool)
      requires Valid() && lastLit < dBuf.Length && InRange(Token(dist, lc))
      modifies this`lastLit, dBuf, lBuf, lt.fc, dt.fc
      ensures Valid() && Block() == old(Block()) + [Token(dist, lc)] && w.Bits() == old(w.Bits())
      ensures StaticLit() == old(StaticLit()) && StaticDist() == old(StaticDist())
      ensures full <==> lastLit == lBuf.Length - 1
    {
      hide LitFreqs, DistFreqs, Counted, Books, LitSymbol, DistCode, InRange, LengthCode;
      ghost var ts, t, lf, df := Block(), Token(dist, lc), lt.fc[..], dt.fc[..];
      CountedPut(lf, df, ts, t);
      Symbols(t, tables);
      dBuf[lastLit] := dist;
      lBuf[lastLit] := lc;
      lastLit := lastLit + 1;
      assert Block() == ts + [t];
      if dist == 0 {
        lt.fc[lc] := lt.fc[lc] + 1;
      } else {
        var l := tables.lengthCode[lc] + LITERALS + 1;
        lt.fc[l] := lt.fc[l] + 1;
        var d := DCode(tables.distCode, dist - 1);
        dt.fc[d] := dt.fc[d] + 1;
      }
      full := lastLit == lBuf.Length - 1;
    }

    lemma Symbols(t: Token, tables: Tables)
      requires InRange(t) && tables.Valid()
      ensures t.dist == 0 ==> LitSymbol(t) == t.lc
      ensures t.dist > 0 ==> t.lc < |tables.lengthCode| && LitSymbol(t) == tables.lengthCode[t.lc] + LITERALS + 1
      ensures t.dist > 0 ==> |tables.distCode| == 512 && t.dist - 1 < 32768 && DCode(tables.distCode, t.dist - 1) == DistCode(t.dist - 1)
    {
      hide LengthCode, DistCode, DCode;
    }

    /** init_block */
    method InitBlock()
      requires Fixed() && w.Valid() && compressedLen == |w.Bits()|
      modifies this`lastLit, lt.fc, dt.fc, bt.fc, s`optLen, s`staticLen
      ensures Valid() && Block() == []
    {
      hide LitFreqs, DistFreqs, Counted, Books;
      DescFacts(slLen[..], sdLen[..]);
      ClearFreqs(lt.fc, L_CODES);
      ClearFreqs(dt.fc, D_CODES);
      BlDescFacts();
      ClearFreqs(bt.fc, CodeLengths.BL_CODES);
      lt.fc[END_BLOCK] := 1;
      s.optLen, s.staticLen := 0, 0;
      lastLit := 0;
      NoTokensCounted(lt.fc[..], dt.fc[..]);
    }

    /** _tr_stored_block */
    method TrStoredBlock(data: seq<byte>, eof: bool)
      requires w.Valid() && compressedLen == |w.Bits()|
      modifies this`compressedLen, this`lastEobLen, w
      ensures w.Valid() && compressedLen == |w.Bits()|
      ensures var b := old(w.Bits()) + TypeBits(STORED_BLOCK, eof); w.Bits() == (b + Padding(b)) + StoredBits(data)
    {
      hide w.Bits, w.Valid, StoredBits, LowBits;
      StoredSize(data);
      SendType(w, STORED_BLOCK, eof);
      ghost var b := w.Bits();
      CopyBlock(w, data);
      lastEobLen := 8;
      compressedLen := ((compressedLen + 3 + 7) / 8) * 8;
      RoundUp(b);
      compressedLen := compressedLen + 8 * (|data| + 4);
    }

    lemma RoundUp(b: seq<bool>)
      ensures ((|b| + 7) / 8) * 8 == |b + Padding(b)|
    {
    }

    /** A block with the fixed trees. */
    method SendStatic(eof: bool, staticLen: int)
      requires Fixed() && w.Valid() && compressedLen == |w.Bits()| && lastLit <= dBuf.Length && AllInRange(Block())
      requires staticLen == |BodyBits(Block(), StaticLit(), StaticDist())|
      modifies this`compressedLen, this`lastEobLen, w
      ensures w.Valid() && compressedLen == |w.Bits()|
      ensures w.Bits() == old((w.Bits() + TypeBits(STATIC_TREES, eof)) + BodyBits(Block(), StaticLit(), StaticDist()))
    {
      hide w.Bits, w.Valid, BodyBits, AllCoded, AllInRange, Books, LowBits;
      AllStatic(Block(), StaticLit(), StaticDist());
      SendType(w, STATIC_TREES, eof);
      lastEobLen := CompressBlock(w, tables, dBuf, lBuf, lastLit, slCode, slLen, sdCode, sdLen);
      compressedLen := compressedLen + 3 + staticLen;
    }

    /** A block with its own trees, which come first. */
    method SendDynamic(eof: bool, maxBlindex: nat, optLen: int)
      requires Fixed() && w.Valid() && compressedLen == |w.Bits()| && lastLit <= dBuf.Length
      requires TreesBuilt(lt, dt, bt, Block(), maxBlindex, optLen)
      modifies this`compressedLen, this`lastEobLen, w
      ensures w.Valid() && compressedLen == |w.Bits()|
      ensures w.Bits() == old((w.Bits() + TypeBits(DYN_TREES, eof)) + DynamicBits(lt, dt, bt, Block(), maxBlindex, optLen))
    {
      hide w.Bits, w.Valid, TreesBuilt, DynamicBits, Books, LowBits;
      SendType(w, DYN_TREES, eof);
      lastEobLen := SendDynamicBlock(w, tables, dBuf, lBuf, lastLit, lt, dt, bt, maxBlindex, optLen);
      compressedLen := compressedLen + 3 + optLen;
    }

    /** The three trees for the tokens; in the shared state are left the sizes of both kinds of block. */
    method MakeTrees() returns (maxBlindex: nat, ghost k: Codes)
      requires Valid()
      modifies s, s.heap, s.depth, s.blCount, lt`maxCode, lt.fc, lt.dl, dt`maxCode, dt.fc, dt.dl, bt`maxCode, bt.fc, bt.dl
      ensures Fixed() && Block() == old(Block()) && StaticLit() == old(StaticLit()) && StaticDist() == old(StaticDist())
      ensures TreesFinished(lt, dt, k) && TreesBuilt(lt, dt, bt, Block(), maxBlindex, s.optLen) && BlReady(bt.fc[..], bt.dl[..], k.ba, k.bc)
      ensures Uses(Block(), k.la, k.da) && END_BLOCK in k.la
      ensures s.staticLen == |BodyBits(Block(), StaticLit(), StaticDist())|
    {
      hide *;
      TreesReady();
      OutOfTheWay();
      maxBlindex, k := BuildTrees(s, lt, dt, bt, Block(), StaticLit(), StaticDist());
    }

    /** Building the trees changes neither the block nor the constant tables. */
    lemma OutOfTheWay()
      requires Fixed()
      ensures dBuf !in {s.heap, s.depth, s.blCount, lt.fc, lt.dl, dt.fc, dt.dl, bt.fc, bt.dl}
      ensures lBuf !in {s.heap, s.depth, s.blCount, lt.fc, lt.dl, dt.fc, dt.dl, bt.fc, bt.dl}
      ensures slCode !in {s.heap, s.depth, s.blCount, lt.fc, lt.dl, dt.fc, dt.dl, bt.fc, bt.dl}
      ensures slLen !in {s.heap, s.depth, s.blCount, lt.fc, lt.dl, dt.fc, dt.dl, bt.fc, bt.dl}
      ensures sdCode !in {s.heap, s.depth, s.blCount, lt.fc, lt.dl, dt.fc, dt.dl, bt.fc, bt.dl}
      ensures sdLen !in {s.heap, s.depth, s.blCount, lt.fc, lt.dl, dt.fc, dt.dl, bt.fc, bt.dl}
    {
      hide Fixed;
      FixedOutside();
    }

    lemma FixedOutside()
      requires Fixed()
      ensures Outside(dBuf) && Outside(lBuf) && Outside(slCode) && Outside(slLen) && Outside(sdCode) && Outside(sdLen)
    {
      hide Books, LDesc, DDesc, BlDesc, Distinct, Outside;
    }

    /** All that building the trees needs. */
    lemma TreesReady()
      requires Valid()
      ensures lastLit <= dBuf.Length == lBuf.Length && Fixed()
      ensures Distinct(s, lt, dt, bt) && |StaticLit().len| >= L_CODES && |StaticDist().len| >= D_CODES
      ensures lt.desc == LDesc(StaticLit().len) && dt.desc == DDesc(StaticDist().len) && bt.desc == BlDesc()
      ensures AllInRange(Block()) && |Block()| <= 0x8000
      ensures Counted(lt.fc[..], LitFreqs(Block())) && Counted(dt.fc[..], DistFreqs(Block()))
      ensures bt.fc.Length >= CodeLengths.BL_CODES && forall c :: 0 <= c < CodeLengths.BL_CODES ==> bt.fc[c] == 0
      ensures AllCoded(Block(), StaticLit(), StaticDist()) && StaticLit().Has(END_BLOCK) && s.optLen == 0 && s.staticLen == 0
    {
      hide Counted, LitFreqs, DistFreqs, AllCoded, AllInRange, Books, LDesc, DDesc, BlDesc, w.Valid, w.Bits;
      AllStatic(Block(), StaticLit(), StaticDist());
      BooksHold(StaticLit(), StaticDist());
      BlDescFacts();
    }

    lemma BooksHold(sl: Codebook.Code, sd: Codebook.Code)
      requires Books(sl, sd)
      ensures |sl.len| >= L_CODES && |sd.len| >= D_CODES
    {
    }

    /** The block in one of the three ways, after the sizes in bytes have been compared. */
    method SendBlock(buf: Option<seq<byte>>, storedLen: nat, eof: bool, maxBlindex: nat, optLenb0: int, staticLenb: int)
      returns (kind: Kind)
      requires Fixed() && w.Valid() && compressedLen == |w.Bits()| && lastLit <= dBuf.Length && AllInRange(Block())
      requires s.staticLen == |BodyBits(Block(), StaticLit(), StaticDist())|
      requires TreesBuilt(lt, dt, bt, Block(), maxBlindex, s.optLen)
      modifies this`compressedLen, this`lastEobLen, w
      ensures w.Valid() && compressedLen == |w.Bits()|
      ensures match kind
              case Stored => buf.Some? && storedLen + 4 <= staticLenb && storedLen + 4 <= optLenb0
              case Static => staticLenb <= optLenb0 && (buf.Some? ==> staticLenb < storedLen + 4)
              case Dynamic => optLenb0 < staticLenb && (buf.Some? ==> optLenb0 < storedLen + 4)
      ensures w.Bits() == old(Sent(kind, w.Bits(), if buf.Some? then buf.value else [], eof, maxBlindex))
    {
      hide w.Bits, w.Valid, BodyBits, TreesBuilt, DynamicBits, Books, AllInRange, StoredBits;
      var optLenb := if staticLenb <= optLenb0 then staticLenb else optLenb0;
      if storedLen + 4 <= optLenb && buf.Some? {
        TrStoredBlock(buf.value, eof);
        kind := Stored;
      } else if staticLenb == optLenb {
        SendStatic(eof, s.staticLen);
        kind := Static;
      } else {
        SendDynamic(eof, maxBlindex, s.optLen);
        kind := Dynamic;
      }
    }

    /** What a block of the given kind adds to the bits sent so far. */
    ghost function Sent(kind: Kind, bits: seq<bool>, data: seq<byte>, eof: bool, maxBlindex: nat): seq<bool>
      requires lastLit <= dBuf.Length == lBuf.Length
      requires kind.Dynamic? ==> TreesBuilt(lt, dt, bt, Block(), maxBlindex, s.optLen)
      reads this, s, dBuf, lBuf, slCode, slLen, sdCode, sdLen, lt, dt, lt.fc, lt.dl, dt.fc, dt.dl, bt.fc, bt.dl
    {
      match kind
      case Stored => var b := bits + TypeBits(STORED_BLOCK, eof); (b + Padding(b)) + StoredBits(data)
      case Static => (bits + TypeBits(STATIC_TREES, eof)) + BodyBits(Block(), StaticLit(), StaticDist())
      case Dynamic => (bits + TypeBits(DYN_TREES, eof)) + DynamicBits(lt, dt, bt, Block(), maxBlindex, s.optLen)
    }

    /** _tr_flush_block: the block goes out in one of three ways, and a new one begins.
        x describes the trees of a dynamic block, and k says that they are complete canonical codes. */
    method TrFlushBlock(buf: Option<seq<byte>>, storedLen: nat, eof: bool)
      returns (total: int, kind: Kind, ghost x: Trees, ghost k: Codes)
      requires Valid() && (buf.Some? ==> |buf.value| == storedLen) && (level == 0 ==> buf.Some?)
      modifies this, w, s, s.heap, s.depth, s.blCount
      modifies lt`maxCode, lt.fc, lt.dl, dt`maxCode, dt.fc, dt.dl, bt`maxCode, bt.fc, bt.dl
      ensures kind.Stored? ==> buf.Some?
      ensures kind.Dynamic? ==> x.Sized() && DynamicOk(x, k, old(Block()))
      ensures w.Bits() == Ended(BlockSent(kind, old(w.Bits()), buf, eof, old(Block()), old(StaticLit()), old(StaticDist()), x), eof)
      ensures level == 0 ==> kind.Stored?
      // with the three type bits no other kind takes fewer bytes, and of equal ones stored comes before static before dynamic
      ensures level > 0 ==>
                && x.Sized()
                && var raw, fixed, own :=
                     storedLen + 4, (|BodyBits(old(Block()), old(StaticLit()), old(StaticDist()))| + 10) / 8, (|x.Block(old(Block()))| + 10) / 8;
                   match kind
                   case Stored => raw <= fixed && raw <= own
                   case Static => fixed <= own && (buf.Some? ==> fixed < raw)
                   case Dynamic => own < fixed && (buf.Some? ==> own < raw)
      ensures !eof ==> Valid() && Block() == []
      ensures total == |w.Bits()| / 8 && (eof ==> |w.Bits()| % 8 == 0 && w.biValid == 0)
      ensures StaticLit() == old(StaticLit()) && StaticDist() == old(StaticDist()) && AllInRange(old(Block()))
    {
      hide w.Bits, w.Valid, BodyBits, TreesBuilt, DynamicBits, Books, AllInRange, StoredBits, Counted, Fixed, TreesFinished, Uses,
        DynamicOk, Trees.Block, Trees.Sized, Block, BlReady;
      ValidParts();
      if level > 0 {
        var maxBlindex: nat;
        maxBlindex, k := MakeTrees();
        x := TreesNow(lt, dt, bt, maxBlindex + 1);
        DynamicNow(maxBlindex, k, Block());
        kind := SendBlock(buf, storedLen, eof, maxBlindex, InBytes(s.optLen), InBytes(s.staticLen));
      } else {
        TrStoredBlock(buf.value, eof);
        kind, x, k := Stored, TreesNow(lt, dt, bt, 4), Codes([], {}, [], [], {}, [], {}, []);
      }
      total := EndBlock(eof);
    }

    lemma ValidParts()
      requires Valid()
      ensures Fixed() && w.Valid() && lastLit <= dBuf.Length == lBuf.Length && AllInRange(Block()) && compressedLen == |w.Bits()|
    {
    }

    lemma DynamicNow(maxBlindex: nat, k: Codes, ts: seq<Token>)
      requires TreesFinished(lt, dt, k) && TreesBuilt(lt, dt, bt, ts, maxBlindex, s.optLen) && Uses(ts, k.la, k.da) && END_BLOCK in k.la
      requires BlReady(bt.fc[..], bt.dl[..], k.ba, k.bc)
      ensures var x := TreesNow(lt, dt, bt, maxBlindex + 1);
              x.Sized() && DynamicOk(x, k, ts) && DynamicBits(lt, dt, bt, ts, maxBlindex, s.optLen) == x.Block(ts)
    {
      hide Finished, Exactly, Uses, AllCoded, CodeLengths.Guarded, Trees.Header, BodyBits, CodeLengths.Sendable, CodeLengths.SymsBits,
        BlReady;
      HeaderNow(maxBlindex, k, ts);
    }

    lemma HeaderNow(maxBlindex: nat, k: Codes, ts: seq<Token>)
      requires TreesBuilt(lt, dt, bt, ts, maxBlindex, s.optLen) && BlReady(bt.fc[..], bt.dl[..], k.ba, k.bc)
      ensures var x := TreesNow(lt, dt, bt, maxBlindex + 1);
              x.Sized() && HeaderOk(x, k)
    {
      hide AllCoded, CodeLengths.Guarded, BodyBits, CodeLengths.Sendable, CodeLengths.SymsBits, BlReady, TreeSyms;
      forall r | maxBlindex < r < CodeLengths.BL_CODES
        ensures BlSymbol(r) < bt.dl.Length && bt.dl[BlSymbol(r)] == 0
      {
      }
    }

    /** What follows the block: init_block, and at the end of the stream bi_windup. */
    method EndBlock(eof: bool) returns (total: int)
      requires Fixed() && w.Valid() && compressedLen == |w.Bits()|
      modifies this, w, lt.fc, dt.fc, bt.fc, s`optLen, s`staticLen
      ensures w.Bits() == Ended(old(w.Bits()), eof)
      ensures !eof ==> Valid() && Block() == []
      ensures total == |w.Bits()| / 8 && (eof ==> |w.Bits()| % 8 == 0 && w.biValid == 0)
      ensures StaticLit() == old(StaticLit()) && StaticDist() == old(StaticDist())
    {
      hide w.Bits, w.Valid, Fixed, Counted, AllInRange, Valid;
      FixedOutside();
      InitBlock();
      if eof {
        ghost var b := w.Bits();
        w.BiWindup();
        WindupPads(b, w.Bits());
        compressedLen := compressedLen + 7;
        RoundUp(b);
      }
      total := compressedLen / 8;
    }
  }

  /** The bits sent after a block of the given kind. */
  ghost function BlockSent(kind: Kind, before: seq<bool>, buf: Option<seq<byte>>, eof: bool, ts: seq<Token>,
                           sl: Codebook.Code, sd: Codebook.Code, x: Trees): seq<bool>
    requires (kind.Stored? ==> buf.Some?) && (kind.Dynamic? ==> x.Sized())
  {
    match kind
    case Stored => var b := before + TypeBits(STORED_BLOCK, eof); (b + Padding(b)) + StoredBits(buf.value)
    case Static => (before + TypeBits(STATIC_TREES, eof)) + BodyBits(ts, sl, sd)
    case Dynamic => (before + TypeBits(DYN_TREES, eof)) + x.Block(ts)
  }

  /** The stream is padded to a whole byte after the last block. */
  ghost function Ended(bits: seq<bool>, eof: bool): seq<bool> {
    if eof then bits + Padding(bits) else bits
  }

  /** The trees of a dynamic block are complete canonical codes that have a word for all that is sent. */
  ghost predicate DynamicOk(x: Trees, k: Codes, ts: seq<Token>) {
    && 0 <= x.lmax && x.lmax + 2 <= |x.l.len| && 0 <= x.dmax && x.dmax + 2 <= |x.d.len|
    && Finished(k.lf, L_CODES, x.l.code, x.l.len, k.la, k.lc) && Finished(k.df, D_CODES, x.d.code, x.d.len, k.da, k.dc)
    && CodeLengths.Guarded(x.l.len[..x.lmax + 2]) && CodeLengths.Guarded(x.d.len[..x.dmax + 2])
    && Exactly(x.l.len, x.lmax, k.la) && Exactly(x.d.len, x.dmax, k.da)
    && AllCoded(ts, x.l, x.d) && Uses(ts, k.la, k.da) && END_BLOCK in k.la && HeaderOk(x, k)
  }

  /** The code for the lengths is complete too, and has a word for every symbol of the header. */
  ghost predicate HeaderOk(x: Trees, k: Codes) {
    && x.Sized() && x.lmax < L_CODES && x.dmax < D_CODES && BlReady(x.bl.code, x.bl.len, k.ba, k.bc)
    && CodeLengths.Sendable(TreeSyms(x.l.len, x.lmax) + TreeSyms(x.d.len, x.dmax), x.bl)
    && (forall c :: 0 <= c < CodeLengths.BL_CODES ==> x.bl.len[c] <= 7)
    && forall r :: x.blcodes <= r < CodeLengths.BL_CODES ==> BlSymbol(r) < |x.bl.len| && x.bl.len[BlSymbol(r)] == 0
  }

  /** A length in bits, with the three type bits, in whole bytes. */
  function InBytes(bits: int): int {
    (bits + 3 + 7) / 8
  }

  method SendType(w: BitWriter, kind: nat, eof: bool)
    requires w.Valid() && kind <= 2
    modifies w
    ensures w.Valid() && w.Bits() == old(w.Bits()) + TypeBits(kind, eof) && |TypeBits(kind, eof)| == 3
  {
    PowSmall();
    hide LowBits, Pow2, w.Bits, w.Valid;
    w.SendBits(2 * kind + (if eof then 1 else 0), 3);
  }
}
