/**
 The body of a compressed block: the symbols of each token, and compress_block, which sends
 their code words and extra bits, then the end-of-block word.
 */
module Blocks {
  import opened Bits
  import opened BitOrder
  import opened BitWriting
  import opened Codebook
  import opened Alphabet
  import opened Lz77Tokens

  /** The literal/length symbol of a token. */
  function LitSymbol(t: Token): nat {
    if t.dist == 0 then t.lc else LITERALS + 1 + LengthCode(t.lc)
  }

  /** What the extra bits of a length symbol hold. */
  function LengthRest(lc: nat): (r: nat) {
    if lc == 255 then 0 else lc - Base(ExtraLbits(), LengthCode(lc))
  }

  function DistRest(d: nat): (r: nat) {
    d - Base(ExtraDbits(), DistCode(d))
  }

  function LengthExtra(lc: nat): nat {
    ExtraLbits()[LengthCode(lc)]
  }

  function DistExtra(d: nat): nat {
    ExtraDbits()[DistCode(d)]
  }

  /** What a token is sent as. */
  function TokenBits(t: Token, l: Code, d: Code): seq<bool> {
    if t.dist == 0 then l.Word(t.lc)
    else
      (l.Word(LitSymbol(t)) + LowBits(LengthRest(t.lc), LengthExtra(t.lc)))
      + (d.Word(DistCode(t.dist - 1)) + LowBits(DistRest(t.dist - 1), DistExtra(t.dist - 1)))
  }

  function TokensBits(ts: seq<Token>, l: Code, d: Code): seq<bool> {
    if ts == [] then [] else TokensBits(ts[..|ts| - 1], l, d) + TokenBits(ts[|ts| - 1], l, d)
  }

  /** The whole body. */
  function BodyBits(ts: seq<Token>, l: Code, d: Code): seq<bool> {
    TokensBits(ts, l, d) + l.Word(END_BLOCK)
  }

  lemma TokensBitsPut(ts: seq<Token>, t: Token, l: Code, d: Code)
    ensures TokensBits(ts + [t], l, d) == TokensBits(ts, l, d) + TokenBits(t, l, d)
  {
    assert (ts + [t])[..|ts|] == ts;
  }

  /** A token whose length and distance are within the format's limits. */
  predicate InRange(t: Token) {
    t.dist <= 32768 && t.lc <= 255
  }

  ghost predicate AllInRange(ts: seq<Token>) {
    forall i :: 0 <= i < |ts| ==> InRange(ts[i])
  }

  /** The symbols of the token have code words. */
  predicate Coded(t: Token, l: Code, d: Code) {
    InRange(t) && l.Has(LitSymbol(t)) && (t.dist > 0 ==> d.Has(DistCode(t.dist - 1)))
  }

  ghost predicate AllCoded(ts: seq<Token>, l: Code, d: Code) {
    forall i :: 0 <= i < |ts| ==> Coded(ts[i], l, d)
  }

  /** The extra bits hold what they must. */
  lemma RestsFit(lc: nat)
    requires lc <= 255
    ensures LengthCode(lc) <= 28 && LengthExtra(lc) <= 5 && LengthRest(lc) < Pow2(LengthExtra(lc))
    ensures LengthCode(lc) < 28 ==> lc == Base(ExtraLbits(), LengthCode(lc)) + LengthRest(lc)
    ensures LengthCode(lc) == 28 <==> lc == 255
    ensures LengthExtra(lc) == ExtraLbits()[LengthCode(lc)] && (LengthCode(lc) == 28 ==> LengthExtra(lc) == 0)
  {
    hide CodeOf, ExtraLbits, Pow2, Base;
    LengthsCovered();
    LbitsAt(LengthCode(lc));
    if lc < 255 {
      BaseStep(ExtraLbits(), LengthCode(lc));
    }
  }

  lemma DistRestsFit(d: nat)
    requires d < 32768
    ensures DistCode(d) < D_CODES && DistExtra(d) <= 13 && DistRest(d) < Pow2(DistExtra(d))
    ensures d == Base(ExtraDbits(), DistCode(d)) + DistRest(d) && DistExtra(d) == ExtraDbits()[DistCode(d)]
  {
    hide CodeOf, ExtraDbits, Pow2, Base;
    DistancesCovered();
    DbitsAt(DistCode(d));
    BaseStep(ExtraDbits(), DistCode(d));
  }

  /** A word and its extra bits, if any. */
  method SendWithExtra(w: BitWriter, code: array<nat>, len: array<nat>, n: nat, rest: nat, extra: nat)
    requires w.Valid() && Code(code[..], len[..]).Has(n) && extra <= 13 && rest < Pow2(extra)
    modifies w
    ensures w.Valid()
    ensures w.Bits() == old(w.Bits()) + (Code(code[..], len[..]).Word(n) + LowBits(rest, extra))
  {
    hide *;
    ghost var before, word := w.Bits(), Code(code[..], len[..]).Word(n);
    SendCode(w, code, len, n);
    if extra != 0 {
      w.SendBits(rest, extra);
    } else {
      NoBits(rest);
    }
    assert (before + word) + LowBits(rest, extra) == before + (word + LowBits(rest, extra));
    assert extra == 0 ==> before + word == before + (word + LowBits(rest, extra));
  }

  lemma NoBits(v: nat)
    ensures LowBits(v, 0) == []
  {
  }

  /** One token. */
  method SendToken(w: BitWriter, tables: Tables, lcode: array<nat>, llen: array<nat>, dcode: array<nat>, dlen: array<nat>,
                   dist: nat, lc: nat)
    requires w.Valid() && tables.Valid() && Coded(Token(dist, lc), Code(lcode[..], llen[..]), Code(dcode[..], dlen[..]))
    modifies w
    ensures w.Valid()
    ensures w.Bits() == old(w.Bits()) + TokenBits(Token(dist, lc), Code(lcode[..], llen[..]), Code(dcode[..], dlen[..]))
  {
    hide LowBits, Base, CodeOf, LengthCode, DistCode, ExtraLbits, ExtraDbits, Pow2;
    ghost var l, d, t := Code(lcode[..], llen[..]), Code(dcode[..], dlen[..]), Token(dist, lc);
    hide Code.Has, Code.Word;
    if dist == 0 {
      SendCode(w, lcode, llen, lc);
    } else {
      RestsFit(lc);
      DistRestsFit(dist - 1);
      ghost var before := w.Bits();
      var code: nat := tables.lengthCode[lc];
      SendLength(w, tables, lcode, llen, lc, code);
      ghost var mid := w.Bits();
      ghost var lengthBits := l.Word(LitSymbol(t)) + LowBits(LengthRest(lc), LengthExtra(lc));
      assert mid == before + lengthBits;
      SendDist(w, tables, dcode, dlen, dist - 1);
      ghost var distBits := d.Word(DistCode(dist - 1)) + LowBits(DistRest(dist - 1), DistExtra(dist - 1));
      assert (before + lengthBits) + distBits == before + (lengthBits + distBits);
    }
  }

  lemma LengthAt(tables: Tables, lc: nat)
    requires tables.Valid() && lc <= 255
    ensures |tables.lengthCode| == 256 && tables.lengthCode[lc] == LengthCode(lc)
    ensures |tables.baseLength| == 29 && (lc < 255 ==> LengthRest(lc) == lc - tables.baseLength[LengthCode(lc)])
    ensures LITERALS + 1 + LengthCode(lc) == 257 + LengthCode(lc) && |ExtraLbits()| == 29
  {
    hide CodeOf, Base, ExtraLbits;
  }

  lemma DistAt(tables: Tables, dist: nat)
    requires tables.Valid() && dist < 32768
    ensures |tables.distCode| == 512 && |tables.baseDist| == 30 && |ExtraDbits()| == 30
    ensures DCode(tables.distCode, dist) == DistCode(dist) < 30
    ensures DistRest(dist) == dist - tables.baseDist[DistCode(dist)]
  {
    hide CodeOf, Base, ExtraDbits, DCode;
  }

  method SendLength(w: BitWriter, tables: Tables, lcode: array<nat>, llen: array<nat>, lc: nat, code: nat)
    requires w.Valid() && tables.Valid() && lc <= 255 && code == LengthCode(lc)
    requires Code(lcode[..], llen[..]).Has(LITERALS + 1 + LengthCode(lc))
    modifies w
    ensures w.Valid()
    ensures w.Bits() == old(w.Bits()) + (Code(lcode[..], llen[..]).Word(LITERALS + 1 + LengthCode(lc))
                                         + LowBits(LengthRest(lc), LengthExtra(lc)))
  {
    hide LengthCode, LengthRest, LowBits, Code.Word, w.Bits, w.Valid, Base, Pow2;
    RestsFit(lc);
    LengthAt(tables, lc);
    var extra := ExtraLbits()[code];
    var rest := 0;
    if extra != 0 {
      rest := lc - tables.baseLength[code];
    } else {
      OneValue(LengthRest(lc));
    }
    SendWithExtra(w, lcode, llen, code + LITERALS + 1, rest, extra);
  }

  lemma OneValue(v: nat)
    ensures v < Pow2(0) ==> v == 0
  {
  }

  method SendDist(w: BitWriter, tables: Tables, dcode: array<nat>, dlen: array<nat>, dist: nat)
    requires w.Valid() && tables.Valid() && dist < 32768
    requires Code(dcode[..], dlen[..]).Has(DistCode(dist))
    modifies w
    ensures w.Valid()
    ensures w.Bits() == old(w.Bits()) + (Code(dcode[..], dlen[..]).Word(DistCode(dist)) + LowBits(DistRest(dist), DistExtra(dist)))
  {
    DistRestsFit(dist);
    DistAt(tables, dist);
    hide *;
    var code: nat := DCode(tables.distCode, dist);
    var extra := ExtraDbits()[code];
    var rest := 0;
    if extra != 0 {
      rest := dist - tables.baseDist[code];
    } else {
      OneValue(DistRest(dist));
    }
    SendWithExtra(w, dcode, dlen, code, rest, extra);
  }

  /** The tokens in d_buf and l_buf. */
  function Tokens(dBuf: seq<nat>, lBuf: seq<nat>, n: nat): (ts: seq<Token>)
    requires n <= |dBuf| && n <= |lBuf|
    ensures |ts| == n && forall i :: 0 <= i < n ==> ts[i] == Token(dBuf[i], lBuf[i])
  {
    seq(n, i requires 0 <= i < n => Token(dBuf[i], lBuf[i]))
  }

  lemma TokensNext(dBuf: seq<nat>, lBuf: seq<nat>, n: nat)
    requires n < |dBuf| && n < |lBuf|
    ensures Tokens(dBuf, lBuf, n + 1) == Tokens(dBuf, lBuf, n) + [Token(dBuf[n], lBuf[n])]
  {
  }

  /** compress_block */
  method CompressBlock(w: BitWriter, tables: Tables, dBuf: array<nat>, lBuf: array<nat>, lastLit: nat,
                       lcode: array<nat>, llen: array<nat>, dcode: array<nat>, dlen: array<nat>) returns (lastEobLen: nat)
    requires w.Valid() && tables.Valid() && lastLit <= dBuf.Length && lastLit <= lBuf.Length
    requires AllCoded(Tokens(dBuf[..], lBuf[..], lastLit), Code(lcode[..], llen[..]), Code(dcode[..], dlen[..]))
    requires Code(lcode[..], llen[..]).Has(END_BLOCK)
    modifies w
    ensures w.Valid() && lastEobLen == llen[END_BLOCK]
    ensures w.Bits() == old(w.Bits())
              + BodyBits(Tokens(dBuf[..], lBuf[..], lastLit), Code(lcode[..], llen[..]), Code(dcode[..], dlen[..]))
  {
    hide Coded, TokensBits, TokenBits, Code.Word, LowBits;
    ghost var l, d, before := Code(lcode[..], llen[..]), Code(dcode[..], dlen[..]), w.Bits();
    ghost var ds, ls := dBuf[..], lBuf[..];
    NoTokens(l, d);
    assert before + [] == before;
    var lx: nat := 0;
    while lx < lastLit
      invariant lx <= lastLit && w.Valid()
      invariant ds == dBuf[..] && ls == lBuf[..] && l == Code(lcode[..], llen[..]) && d == Code(dcode[..], dlen[..])
      invariant w.Bits() == before + TokensBits(Tokens(ds, ls, lx), l, d)
    {
      assert Tokens(ds, ls, lastLit)[lx] == Token(dBuf[lx], lBuf[lx]);
      TokensNext(ds, ls, lx);
      TokensBitsPut(Tokens(ds, ls, lx), Token(ds[lx], ls[lx]), l, d);
      ghost var sent := TokensBits(Tokens(ds, ls, lx), l, d);
      SendToken(w, tables, lcode, llen, dcode, dlen, dBuf[lx], lBuf[lx]);
      assert (before + sent) + TokenBits(Token(ds[lx], ls[lx]), l, d) == before + (sent + TokenBits(Token(ds[lx], ls[lx]), l, d));
      lx := lx + 1;
    }
    ghost var sent := TokensBits(Tokens(ds, ls, lx), l, d);
    SendCode(w, lcode, llen, END_BLOCK);
    assert (before + sent) + l.Word(END_BLOCK) == before + (sent + l.Word(END_BLOCK));
    lastEobLen := llen[END_BLOCK];
  }

  lemma NoTokens(l: Code, d: Code)
    ensures forall ds, ls :: TokensBits(Tokens(ds, ls, 0), l, d) == []
  {
  }
}
