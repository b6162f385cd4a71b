/**
 How many bits a block takes: the frequencies that _tr_tally counts, weighted with the code
 lengths and extra bits, are exactly the bits that compress_block and send_tree send.
 */
module BlockSizes {
  import opened Arith
  import opened Bits
  import opened BitOrder
  import opened Sums
  import opened Codebook
  import opened Alphabet
  import opened Lz77Tokens
  import opened Blocks
  import CodeLengths

  /** The bits for the symbols below n: each occurrence takes its code and its extra bits. */
  function SizeTo(f: seq<nat>, l: seq<nat>, e: seq<nat>, n: nat): nat
    requires n <= |f| && n <= |l| && n <= |e|
  {
    if n == 0 then 0 else SizeTo(f, l, e, n - 1) + f[n - 1] * (l[n - 1] + e[n - 1])
  }

  lemma {:induction false} SizeToBump(f: seq<nat>, l: seq<nat>, e: seq<nat>, n: nat, x: nat)
    requires n <= |f| && n <= |l| && n <= |e| && x < |f| && x < |l| && x < |e|
    ensures SizeTo(f[x := f[x] + 1], l, e, n) == SizeTo(f, l, e, n) + (if x < n then l[x] + e[x] else 0)
  {
    if n > 0 {
      SizeToBump(f, l, e, n - 1, x);
      if x == n - 1 {
        MulAdd(l[x] + e[x], f[x], 1);
      }
    }
  }

  lemma {:induction false} SizeToSame(f: seq<nat>, l: seq<nat>, e: seq<nat>, f': seq<nat>, l': seq<nat>, e': seq<nat>, n: nat)
    requires n <= |f| && n <= |l| && n <= |e| && n <= |f'| && n <= |l'| && n <= |e'|
    requires forall i :: 0 <= i < n ==> f[i] == f'[i] && e[i] == e'[i] && (f[i] != 0 ==> l[i] == l'[i])
    ensures SizeTo(f, l, e, n) == SizeTo(f', l', e', n)
  {
    if n > 0 {
      SizeToSame(f, l, e, f', l', e', n - 1);
    }
  }

  lemma {:induction false} SizeToZero(f: seq<nat>, l: seq<nat>, e: seq<nat>, n: nat)
    requires n <= |f| && n <= |l| && n <= |e| && forall i :: 0 <= i < n ==> f[i] == 0
    ensures SizeTo(f, l, e, n) == 0
  {
    if n > 0 {
      SizeToZero(f, l, e, n - 1);
    }
  }

  // ----- tokens

  function LitCount(ts: seq<Token>, n: nat): nat {
    if ts == [] then 0 else LitCount(ts[..|ts| - 1], n) + (if LitSymbol(ts[|ts| - 1]) == n then 1 else 0)
  }

  function DistCount(ts: seq<Token>, n: nat): nat {
    if ts == [] then 0
    else
      var t := ts[|ts| - 1];
      DistCount(ts[..|ts| - 1], n) + (if t.dist > 0 && DistCode(t.dist - 1) == n then 1 else 0)
  }

  lemma CountsPut(ts: seq<Token>, t: Token, n: nat)
    ensures LitCount(ts + [t], n) == LitCount(ts, n) + (if LitSymbol(t) == n then 1 else 0)
    ensures DistCount(ts + [t], n) == DistCount(ts, n) + (if t.dist > 0 && DistCode(t.dist - 1) == n then 1 else 0)
  {
    hide LitSymbol, DistCode;
    assert (ts + [t])[..|ts|] == ts;
  }

  /** The frequencies of the literal/length symbols of a block; the end of block comes once. */
  function LitFreqs(ts: seq<Token>): (f: seq<nat>)
    ensures |f| == L_CODES
  {
    seq(L_CODES, n requires 0 <= n < L_CODES => LitCount(ts, n) + (if n == END_BLOCK then 1 else 0))
  }

  function DistFreqs(ts: seq<Token>): (f: seq<nat>)
    ensures |f| == D_CODES
  {
    seq(D_CODES, n requires 0 <= n < D_CODES => DistCount(ts, n))
  }

  lemma SymbolsInRange(t: Token)
    requires InRange(t)
    ensures LitSymbol(t) < L_CODES && LitSymbol(t) != END_BLOCK && (t.dist > 0 ==> DistCode(t.dist - 1) < D_CODES)
  {
    hide CodeOf;
  }

  lemma FreqsPut(ts: seq<Token>, t: Token)
    requires InRange(t)
    ensures LitSymbol(t) < L_CODES && LitFreqs(ts + [t]) == LitFreqs(ts)[LitSymbol(t) := LitFreqs(ts)[LitSymbol(t)] + 1]
    ensures t.dist == 0 ==> DistFreqs(ts + [t]) == DistFreqs(ts)
    ensures t.dist > 0 ==> var c := DistCode(t.dist - 1);
              c < D_CODES && DistFreqs(ts + [t]) == DistFreqs(ts)[c := DistFreqs(ts)[c] + 1]
  {
    hide CodeOf, LitCount, DistCount, DistCode;
    SymbolsInRange(t);
    forall n | 0 <= n < L_CODES
      ensures LitCount(ts + [t], n) == LitCount(ts, n) + (if LitSymbol(t) == n then 1 else 0)
      ensures DistCount(ts + [t], n) == DistCount(ts, n) + (if t.dist > 0 && DistCode(t.dist - 1) == n then 1 else 0)
    {
      CountsPut(ts, t, n);
    }
  }

  /** The extra bits of each literal/length symbol. */
  function LitExtras(): (e: seq<nat>)
    ensures |e| == L_CODES
  {
    seq(L_CODES, n requires 0 <= n < L_CODES => if n <= LITERALS then 0 else ExtraLbits()[n - LITERALS - 1])
  }

  lemma TokenSize(t: Token, l: Code, d: Code)
    requires Coded(t, l, d) && |l.len| >= L_CODES && |d.len| >= D_CODES
    ensures LitSymbol(t) < L_CODES && (t.dist > 0 ==> DistCode(t.dist - 1) < D_CODES)
    ensures |TokenBits(t, l, d)| == l.len[LitSymbol(t)] + LitExtras()[LitSymbol(t)]
              + (if t.dist > 0 then d.len[DistCode(t.dist - 1)] + DistExtra(t.dist - 1) else 0)
  {
    hide CodeOf, ExtraLbits, ExtraDbits, LowBits, DistCode, LengthCode, Base;
    SymbolsInRange(t);
  }

  /** The bits of a body, counted by symbol. */
  lemma {:induction false} BodySize(ts: seq<Token>, l: Code, d: Code)
    requires AllCoded(ts, l, d) && l.Has(END_BLOCK) && |l.len| >= L_CODES && |d.len| >= D_CODES
    ensures |BodyBits(ts, l, d)|
         == SizeTo(LitFreqs(ts), l.len, LitExtras(), L_CODES) + SizeTo(DistFreqs(ts), d.len, ExtraDbits(), D_CODES)
    decreases |ts|
  {
    hide TokenBits, SizeTo, Coded, ExtraLbits, ExtraDbits, DistCode;
    if ts == [] {
      EmptySize(l.len, d.len);
      EndSize(l);
    } else {
      var front, t := ts[..|ts| - 1], ts[|ts| - 1];
      assert ts == front + [t];
      assert Coded(ts[|ts| - 1], l, d);
      forall i | 0 <= i < |front| ensures Coded(front[i], l, d) { assert front[i] == ts[i]; }
      BodySize(front, l, d);
      TokenSize(t, l, d);
      TokensBitsPut(front, t, l, d);
      CodedInRange(t, l, d);
      FreqsPut(front, t);
      SizeToBump(LitFreqs(front), l.len, LitExtras(), L_CODES, LitSymbol(t));
      if t.dist > 0 {
        SizeToBump(DistFreqs(front), d.len, ExtraDbits(), D_CODES, DistCode(t.dist - 1));
      }
    }
  }

  lemma CodedInRange(t: Token, l: Code, d: Code)
    requires Coded(t, l, d)
    ensures InRange(t)
  {
  }

  lemma EndSize(l: Code)
    requires l.Has(END_BLOCK) && |l.len| > END_BLOCK
    ensures |l.Word(END_BLOCK)| == l.len[END_BLOCK] && LitExtras()[END_BLOCK] == 0
  {
  }

  /** A block with no tokens is just its end. */
  lemma EmptySize(l: seq<nat>, d: seq<nat>)
    requires |l| >= L_CODES && |d| >= D_CODES
    ensures SizeTo(LitFreqs([]), l, LitExtras(), L_CODES) == l[END_BLOCK] + LitExtras()[END_BLOCK]
    ensures SizeTo(DistFreqs([]), d, ExtraDbits(), D_CODES) == 0
  {
    var none := seq(L_CODES, n => 0);
    hide SizeTo, ExtraLbits, ExtraDbits;
    SizeToZero(none, l, LitExtras(), L_CODES);
    SizeToBump(none, l, LitExtras(), L_CODES, END_BLOCK);
    assert LitFreqs([]) == none[END_BLOCK := 1];
    SizeToZero(DistFreqs([]), d, ExtraDbits(), D_CODES);
  }

  // ----- the symbols of the bit length tree

  function BlExtras(): (e: seq<nat>)
    ensures |e| == CodeLengths.BL_CODES
  {
    seq(CodeLengths.BL_CODES, c requires 0 <= c < CodeLengths.BL_CODES => CodeLengths.ExtraBits(c))
  }

  function SymFreqs(syms: seq<CodeLengths.Sym>): (f: seq<nat>)
    ensures |f| == CodeLengths.BL_CODES
  {
    seq(CodeLengths.BL_CODES, c requires 0 <= c < CodeLengths.BL_CODES => CodeLengths.Count(syms, c))
  }

  lemma SymFreqsPut(syms: seq<CodeLengths.Sym>, s: CodeLengths.Sym)
    requires s.code < CodeLengths.BL_CODES
    ensures SymFreqs(syms + [s]) == SymFreqs(syms)[s.code := SymFreqs(syms)[s.code] + 1]
  {
    forall c | 0 <= c < CodeLengths.BL_CODES
      ensures CodeLengths.Count(syms + [s], c) == CodeLengths.Count(syms, c) + (if s.code == c then 1 else 0)
    {
      CodeLengths.CountConcat(syms, [s], c);
      assert [s][1..] == [];
    }
  }

  /** The bits of the trees, counted by symbol. */
  lemma {:induction false} SymsSize(syms: seq<CodeLengths.Sym>, book: Code)
    requires CodeLengths.Sendable(syms, book) && |book.len| >= CodeLengths.BL_CODES
    ensures |CodeLengths.SymsBits(syms, book)| == SizeTo(SymFreqs(syms), book.len, BlExtras(), CodeLengths.BL_CODES)
    decreases |syms|
  {
    hide SizeTo;
    if syms == [] {
      hide CodeLengths.Sendable;
      SizeToZero(SymFreqs(syms), book.len, BlExtras(), CodeLengths.BL_CODES);
    } else {
      var front, s := syms[..|syms| - 1], syms[|syms| - 1];
      assert syms == front + [s];
      assert s in syms;
      SymsSize(front, book);
      CodeLengths.SymsBitsPut(front, s, book);
      SymFreqsPut(front, s);
      SizeToBump(SymFreqs(front), book.len, BlExtras(), CodeLengths.BL_CODES, s.code);
      SymSize(s, book);
    }
  }

  lemma SymSize(s: CodeLengths.Sym, book: Code)
    requires CodeLengths.Fits(s) && book.Has(s.code)
    ensures |CodeLengths.SymBits(s, book)| == book.len[s.code] + BlExtras()[s.code]
  {
    hide LowBits;
  }
}
