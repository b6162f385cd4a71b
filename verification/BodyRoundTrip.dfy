/**
 From compress_block to inflate_codes: the tables that huft_build makes from the lengths of the
 trees have the same code words as the trees, so the bits of a block's body are the script of
 its tokens.  This holds for trees made for the block and for the fixed ones.
 */
module BodyRoundTrip {
  import opened Options
  import opened Arith
  import opened Bits
  import opened BitOrder
  import opened Sums
  import opened Alphabet
  import opened Lz77Tokens
  import opened Blocks
  import opened BlockSizes
  import opened HuffmanTheory
  import opened LengthRepair
  import opened CanonicalCodes
  import opened DeflateState
  import opened TreeCodes
  import opened BlockTrees
  import opened BlockWriter
  import opened BlockFlush
  import opened StaticTrees
  import opened HuftTheory
  import opened HuftState
  import opened HuftPlacing
  import opened HuftTrees
  import opened HuftDecoding
  import opened InflateScript
  import Codebook
  import CodeLengths
  import TreeBuilder
  import TreeLengths

  // ----- the same lengths, the same words

  lemma {:induction false} SumOutside(a: set<nat>, g: seq<nat>, m: nat, n: nat)
    requires m <= n <= |g| && forall i :: i in a ==> i < m
    ensures SumOver(a, g, n) == SumOver(a, g, m)
  {
    if m < n {
      SumOutside(a, g, m, n - 1);
    }
  }

  lemma CountAgrees(a: set<nat>, l: seq<nat>, l': seq<nat>, b: nat)
    requires forall i :: i in a ==> i < |l| && i < |l'| && l[i] == l'[i]
    ensures CountAt(a, l, b) == CountAt(a, l', b)
  {
    var n := if |l| < |l'| then |l| else |l'|;
    SumOutside(a, IsLength(l, b), n, |l|);
    SumOutside(a, IsLength(l', b), n, |l'|);
    SumSame(a, IsLength(l, b), a, IsLength(l', b), n);
  }

  lemma {:induction false} NextCodeAgrees(c: seq<nat>, c': seq<nat>, b: nat)
    requires b <= |c| && b <= |c'| && forall k :: 0 <= k < b ==> c[k] == c'[k]
    ensures NextCode(c, b) == NextCode(c', b)
  {
    if b > 0 {
      NextCodeAgrees(c, c', b - 1);
    }
  }

  /** The code book says the same words as the table. */
  ghost predicate SameWords(k: Codebook.Code, t: Table) {
    && (forall n :: 0 <= n < |t.lens| ==> t.lens[n] <= |t.f.c|)
    && forall n :: t.Codes(n) ==> k.Word(n) == t.Book().Word(n)
  }

  /** A tree of deflate and the table for its lengths. */
  lemma ReadySameWords(a: set<nat>, n: nat, max: nat, fc: seq<nat>, dl: seq<nat>, c: seq<nat>, t: Table, s: nat, d: seq<nat>, e: seq<nat>)
    requires Ready(a, n, max, fc, dl, c) && max <= MAX_BITS && t.Valid(s, d, e) && CountedBelow(t.lens, t.f.c, t.f.g)
    requires Symbols(t.lens) == a && forall x :: x in a ==> t.lens[x] == dl[x]
    ensures SameWords(Codebook.Code(fc, dl), t)
  {
    hide NoSkip, Sound, AllSet, Plan.IsCode, Plan.Valid, KraftTo, Codebook.Code.Word, BookOf, CanonicalCodes.Code, ToBits;
    forall x | t.Codes(x)
      ensures Codebook.Code(fc, dl).Word(x) == t.Book().Word(x)
    {
      ReadyHas(a, n, max, fc, dl, c, x);
      BookWord(t.lens, t.f.c, x);
      SameCodeValue(a, n, max, fc, dl, c, t, x);
    }
  }

  lemma SameCodeValue(a: set<nat>, n: nat, max: nat, fc: seq<nat>, dl: seq<nat>, c: seq<nat>, t: Table, x: nat)
    requires Ready(a, n, max, fc, dl, c) && max <= MAX_BITS && CountedBelow(t.lens, t.f.c, t.f.g) && t.f.g <= MAX_BITS
    requires Symbols(t.lens) == a && (forall x :: x in a ==> t.lens[x] == dl[x] <= t.f.g) && x in a
    ensures x < |t.lens| && t.lens[x] <= |t.f.c| && dl[x] <= |c|
    ensures CanonicalCodes.Code(a, dl, c, x) == CanonicalCodes.Code(a, t.lens, t.f.c, x)
  {
    hide KraftTo, CountAt, Codebook.Code.Word;
    var b := dl[x];
    forall k | 0 <= k < b
      ensures c[k] == t.f.c[k]
    {
      CountAgrees(a, dl, t.lens, k);
    }
    NextCodeAgrees(c, t.f.c, b);
    CountAgrees(Below(a, x), dl, t.lens, b);
  }

  /** The fixed distances, each of five bits. */
  lemma FixedSameWords(dcode: seq<nat>, dlen: seq<nat>, t: Table, s: nat, d: seq<nat>, e: seq<nat>)
    requires |dcode| == |dlen| == D_CODES && forall n :: 0 <= n < D_CODES ==> dlen[n] == 5 && dcode[n] == Reversed(n, 5)
    requires t.Valid(s, d, e) && CountedBelow(t.lens, t.f.c, t.f.g) && t.lens == dlen
    ensures SameWords(Codebook.Code(dcode, dlen), t)
  {
    hide NoSkip, Sound, AllSet, Plan.IsCode, Plan.Valid, BookOf, CanonicalCodes.Code, ToBits, LowBits, Reversed, CountAt;
    forall x | t.Codes(x)
      ensures Codebook.Code(dcode, dlen).Word(x) == t.Book().Word(x)
    {
      BookWord(t.lens, t.f.c, x);
      FixedCode(t, x);
      ReversedBits(x, 5);
    }
  }

  lemma FixedCode(t: Table, x: nat)
    requires |t.lens| == D_CODES && (forall n :: 0 <= n < D_CODES ==> t.lens[n] == 5) && x < D_CODES
    requires CountedBelow(t.lens, t.f.c, t.f.g) && 5 <= t.f.g
    ensures CanonicalCodes.Code(Symbols(t.lens), t.lens, t.f.c, x) == x
  {
    hide CountAt;
    forall k | 0 <= k < 5
      ensures t.f.c[k] == 0
    {
      TreeLengths.NoneOfLength(Symbols(t.lens), t.lens, k);
    }
    NextCodeAgrees(t.f.c, [0, 0, 0, 0, 0], 5);
    NoCodes();
    RankAll(t.lens, x);
  }

  lemma NoCodes()
    ensures NextCode([0, 0, 0, 0, 0], 5) == 0
  {
    var c: seq<nat> := [0, 0, 0, 0, 0];
    assert NextCode(c, 1) == 0;
    assert NextCode(c, 2) == 0;
    assert NextCode(c, 3) == 0;
    assert NextCode(c, 4) == 0;
  }

  lemma {:induction false} RankAll(l: seq<nat>, x: nat)
    requires x <= |l| && forall n :: 0 <= n < |l| ==> l[n] == 5
    ensures Rank(Symbols(l), l, x, 5) == x
  {
    if x == 0 {
      RankStart(Symbols(l), l, 5);
    } else {
      RankAll(l, x - 1);
      RankNext(Symbols(l), l, x - 1, 5);
    }
  }

  // ----- the body is the script

  /** Base and extra bits make the length. */
  lemma LengthValue(lc: nat)
    requires lc <= 255
    ensures Cplens()[LengthCode(lc)] + LengthRest(lc) == lc + MIN_MATCH && LengthRest(lc) < Pow2(LengthExtra(lc))
  {
    hide Base, CodeOf, Cplens, ExtraLbits, Pow2;
    RestsFit(lc);
    if lc < 255 {
      LengthBases(LengthCode(lc));
    } else {
      CplensStep(27);
    }
  }

  /** Base and extra bits make the distance. */
  lemma DistValue(d: nat)
    requires d < 32768
    ensures Cpdist()[DistCode(d)] + DistRest(d) == d + 1 && DistRest(d) < Pow2(DistExtra(d))
  {
    hide Base, CodeOf, Cpdist, ExtraDbits, Pow2;
    DistRestsFit(d);
    DistBases(DistCode(d));
  }

  /** How deflate spells a token. */
  ghost function ItemOf(t: Token): Item
    requires InRange(t)
  {
    if t.dist == 0 then Lit(t.lc) else Match(LengthCode(t.lc), LengthRest(t.lc), DistCode(t.dist - 1), DistRest(t.dist - 1))
  }

  lemma ItemSpells(t: Token)
    requires InRange(t)
    ensures ItemOf(t).Valid() && ItemOf(t).Token() == t
  {
    hide LengthCode, LengthRest, DistCode, DistRest, Cplens, Cpdist, Pow2, ExtraLbits, ExtraDbits;
    if t.dist > 0 {
      SymbolsInRange(t);
      LengthValue(t.lc);
      DistValue(t.dist - 1);
    }
  }

  /** The script of a block with these tables and tokens, and the bits that come after it. */
  ghost function BlockScript(lt: Table, dt: Table, ts: seq<Token>, tail: seq<bool>): Script
    requires AllInRange(ts)
  {
    Script(lt, dt, seq(|ts|, i requires 0 <= i < |ts| => ItemOf(ts[i])), ts, EndOfBlock, tail)
  }

  /** All symbols of the tokens have codes. */
  ghost predicate Covers(lt: Table, dt: Table, ts: seq<Token>) {
    && lt.Valid(LITERALS + 1, Cplens(), Cplext()) && dt.Valid(0, Cpdist(), Cpdext()) && |lt.lens| <= N_MAX && |dt.lens| <= D_CODES
    && Uses(ts, Symbols(lt.lens), Symbols(dt.lens)) && END_BLOCK in Symbols(lt.lens)
  }

  lemma BlockScriptValid(lt: Table, dt: Table, ts: seq<Token>, tail: seq<bool>)
    requires Covers(lt, dt, ts) && AllInRange(ts)
    ensures BlockScript(lt, dt, ts, tail).Valid()
  {
    hide Table.Valid, Symbols, LitSymbol, DistCode, InRange, Item.Valid, Item.Token, ItemOf, Cplens, Cplext, Cpdist, Cpdext;
    var s := BlockScript(lt, dt, ts, tail);
    forall i | 0 <= i < |ts|
      ensures s.Sends(s.items[i]) && ts[i] == s.items[i].Token()
    {
      ItemSpells(ts[i]);
      SendsItem(s, ts[i]);
    }
  }

  lemma SendsItem(s: Script, t: Token)
    requires InRange(t) && ItemOf(t).Valid() && s.lt.Codes(LitSymbol(t)) && (t.dist > 0 ==> s.dt.Codes(DistCode(t.dist - 1)))
    ensures s.Sends(ItemOf(t))
  {
    hide Table.Codes, LengthCode, LengthRest, DistCode, DistRest, Item.Valid;
  }

  lemma SameToken(t: Token, l: Codebook.Code, d: Codebook.Code, s: Script)
    requires s.Valid() && SameWords(l, s.lt) && SameWords(d, s.dt) && InRange(t) && s.Sends(ItemOf(t))
    ensures TokenBits(t, l, d) == s.Piece(ItemOf(t))
  {
    hide Script.Tabled, BookOf, Codebook.Code.Word, LengthCode, DistCode, LengthRest, DistRest, LowBits, Item.Valid, Item.Token;
    if t.dist > 0 {
      SymbolsInRange(t);
    }
  }

  /** The items are spelled as deflate does. */
  ghost predicate Spelled(s: Script) {
    |s.items| == |s.ts| && AllInRange(s.ts) && forall i :: 0 <= i < |s.ts| ==> s.items[i] == ItemOf(s.ts[i])
  }

  lemma {:induction false} ScriptFrom(s: Script, l: Codebook.Code, d: Codebook.Code, i: nat)
    requires s.Valid() && SameWords(l, s.lt) && SameWords(d, s.dt) && i <= |s.items| == |s.ts| && Spelled(s)
    ensures s.From(0) == TokensBits(s.ts[..i], l, d) + s.From(i)
  {
    hide *;
    if i == 0 {
      NoBitsYet(s, l, d);
    } else {
      ScriptFrom(s, l, d, i - 1);
      ScriptStep(s, l, d, i - 1);
      var x, y, z := TokensBits(s.ts[..i - 1], l, d), TokenBits(s.ts[i - 1], l, d), s.From(i);
      assert x + (y + z) == (x + y) + z;
    }
  }

  lemma NoBitsYet(s: Script, l: Codebook.Code, d: Codebook.Code)
    requires s.Valid()
    ensures s.From(0) == TokensBits(s.ts[..0], l, d) + s.From(0)
  {
    hide Script.From, Script.Valid;
    assert [] + s.From(0) == s.From(0);
  }

  lemma ScriptStep(s: Script, l: Codebook.Code, d: Codebook.Code, i: nat)
    requires s.Valid() && SameWords(l, s.lt) && SameWords(d, s.dt) && i < |s.items| == |s.ts| && Spelled(s)
    ensures s.From(i) == TokenBits(s.ts[i], l, d) + s.From(i + 1)
    ensures TokensBits(s.ts[..i + 1], l, d) == TokensBits(s.ts[..i], l, d) + TokenBits(s.ts[i], l, d)
  {
    hide Script.Valid, SameWords, TokenBits, TokensBits, Script.From, InRange, ItemOf;
    FromStep(s, i);
    SameToken(s.ts[i], l, d, s);
    assert s.ts[..i + 1] == s.ts[..i] + [s.ts[i]];
    TokensBitsPut(s.ts[..i], s.ts[i], l, d);
  }

  lemma FromStep(s: Script, i: nat)
    requires s.Valid() && i < |s.items|
    ensures s.items[i].Valid() && s.Sends(s.items[i]) && s.From(i) == s.Piece(s.items[i]) + s.From(i + 1)
  {
    hide Script.Tabled, Script.Piece, Item.Valid, Item.Token;
    assert s.Sends(s.items[i]);
  }

  /** The bits of the body are those of the script, which is one that inflate_codes decodes. */
  lemma BodyIsScript(lt: Table, dt: Table, ts: seq<Token>, tail: seq<bool>, l: Codebook.Code, d: Codebook.Code)
    requires Covers(lt, dt, ts) && AllInRange(ts) && SameWords(l, lt) && SameWords(d, dt)
    ensures var s := BlockScript(lt, dt, ts, tail); s.Valid() && s.From(0) == BodyBits(ts, l, d) + tail
  {
    hide Script.Valid, Script.From, SameWords, TokensBits, AllInRange, Spelled, Covers, Codebook.Code.Word, ItemOf;
    BlockScriptValid(lt, dt, ts, tail);
    BlockSpelled(lt, dt, ts, tail);
    var s := BlockScript(lt, dt, ts, tail);
    ScriptFrom(s, l, d, |ts|);
    LastWord(s, l);
  }

  lemma BlockSpelled(lt: Table, dt: Table, ts: seq<Token>, tail: seq<bool>)
    requires AllInRange(ts)
    ensures Spelled(BlockScript(lt, dt, ts, tail)) && ts[..|ts|] == ts
  {
    hide ItemOf;
  }

  lemma LastWord(s: Script, l: Codebook.Code)
    requires s.Valid() && s.ending.EndOfBlock? && SameWords(l, s.lt)
    ensures s.From(|s.items|) == l.Word(END_BLOCK) + s.tail
  {
    hide Script.Tabled, Codebook.Code.Word, BookOf;
  }

  // ----- the blocks that _tr_flush_block sends

  lemma SymbolsExactly(dl: seq<nat>, m: int, a: set<nat>)
    requires Exactly(dl, m, a)
    ensures Symbols(dl[..m + 1]) == a
  {
  }

  /** A block with trees of its own: the tables for the lengths sent turn its body back into the tokens. */
  lemma DynamicBody(x: Trees, k: Codes, lt: Table, dt: Table, ts: seq<Token>, tail: seq<bool>)
    requires x.Sized() && DynamicOk(x, k, ts)
    requires lt.Valid(LITERALS + 1, Cplens(), Cplext()) && dt.Valid(0, Cpdist(), Cpdext())
    requires lt.lens == x.l.len[..x.lmax + 1] && dt.lens == x.d.len[..x.dmax + 1] && |lt.lens| <= N_MAX && |dt.lens| <= D_CODES
    requires CountedBelow(lt.lens, lt.f.c, lt.f.g) && CountedBelow(dt.lens, dt.f.c, dt.f.g)
    ensures AllInRange(ts) && var s := BlockScript(lt, dt, ts, tail); s.Valid() && s.From(0) == BodyBits(ts, x.l, x.d) + tail
  {
    hide Ready, Table.Valid, SameWords, CountedBelow, BodyBits, LitSymbol, DistCode, InRange, AllCoded, TreeBuilder.Coded,
      Script.From, Cplens, Cplext, Cpdist, Cpdext;
    SymbolsExactly(x.l.len, x.lmax, k.la);
    SymbolsExactly(x.d.len, x.dmax, k.da);
    ReadySameWords(k.la, L_CODES, MAX_BITS, x.l.code, x.l.len, k.lc, lt, LITERALS + 1, Cplens(), Cplext());
    ReadySameWords(k.da, D_CODES, MAX_BITS, x.d.code, x.d.len, k.dc, dt, 0, Cpdist(), Cpdext());
    BodyIsScript(lt, dt, ts, tail, x.l, x.d);
  }

  /** A block with the fixed trees. */
  lemma StaticBody(code: seq<nat>, len: seq<nat>, c: seq<nat>, dcode: seq<nat>, dlen: seq<nat>, lt: Table, dt: Table, ts: seq<Token>,
                   tail: seq<bool>)
    requires Ready(Upto(FIXED_CODES), FIXED_CODES, 9, code, len, c) && |len| == FIXED_CODES
    requires forall n :: 0 <= n < FIXED_CODES ==> len[n] == StaticLen(n)
    requires |dcode| == |dlen| == D_CODES && forall n :: 0 <= n < D_CODES ==> dlen[n] == 5 && dcode[n] == Reversed(n, 5)
    requires lt.Valid(LITERALS + 1, Cplens(), Cplext()) && dt.Valid(0, Cpdist(), Cpdext()) && lt.lens == len && dt.lens == dlen
    requires CountedBelow(lt.lens, lt.f.c, lt.f.g) && CountedBelow(dt.lens, dt.f.c, dt.f.g) && AllInRange(ts)
    ensures var s := BlockScript(lt, dt, ts, tail);
            s.Valid() && s.From(0) == BodyBits(ts, Codebook.Code(code, len), Codebook.Code(dcode, dlen)) + tail
  {
    hide Ready, Table.Valid, SameWords, CountedBelow, BodyBits, LitSymbol, DistCode, InRange, Script.From, Reversed,
      Cplens, Cplext, Cpdist, Cpdext;
    FixedSymbols(len, dlen, ts);
    ReadySameWords(Upto(FIXED_CODES), FIXED_CODES, 9, code, len, c, lt, LITERALS + 1, Cplens(), Cplext());
    FixedSameWords(dcode, dlen, dt, 0, Cpdist(), Cpdext());
    BodyIsScript(lt, dt, ts, tail, Codebook.Code(code, len), Codebook.Code(dcode, dlen));
  }

  lemma FixedSymbols(len: seq<nat>, dlen: seq<nat>, ts: seq<Token>)
    requires |len| == FIXED_CODES && (forall n :: 0 <= n < FIXED_CODES ==> len[n] == StaticLen(n))
    requires |dlen| == D_CODES && (forall n :: 0 <= n < D_CODES ==> dlen[n] == 5) && AllInRange(ts)
    ensures Symbols(len) == Upto(FIXED_CODES) && END_BLOCK in Symbols(len)
    ensures Uses(ts, Symbols(len), Symbols(dlen))
  {
    hide LitSymbol, DistCode, InRange;
    forall i | 0 <= i < |ts|
      ensures LitSymbol(ts[i]) < FIXED_CODES && (ts[i].dist > 0 ==> DistCode(ts[i].dist - 1) < D_CODES)
    {
      SymbolsInRange(ts[i]);
    }
  }
}
