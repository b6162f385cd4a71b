/**
 The header of a dynamic block read back: what send_all_trees sends, TreeReader takes for just
 the lengths that were sent, however the input is cut, and it leaves the bits behind it.
 */
module HeaderRoundTrip {
  import opened Options
  import opened Bits
  import opened BitOrder
  import opened Sums
  import opened Alphabet
  import opened HuffmanTheory
  import opened LengthRepair
  import opened CanonicalCodes
  import opened DeflateState
  import opened BlockTrees
  import opened BlockWriter
  import opened BlockFlush
  import opened HuftBuilding
  import opened HuftTrees
  import opened InflateScript
  import opened BitReading
  import opened BodyRoundTrip
  import opened TreeReading

  // ----- one way to read

  /** No code word of a symbol of a begins with another's. */
  ghost predicate PrefixFree(book: Codebook.Code, a: set<nat>) {
    forall m, n :: m in a && n in a && m != n ==> !(book.Word(m) <= book.Word(n))
  }

  /** Symbols that can be spelled. */
  ghost predicate Spellable(syms: seq<CL.Sym>, a: set<nat>) {
    forall s :: s in syms ==> CL.Fits(s) && s.code in a
  }

  lemma FrontBits(syms: seq<CL.Sym>, book: Codebook.Code)
    requires syms != []
    ensures CL.SymsBits(syms, book) == CL.SymBits(syms[0], book) + CL.SymsBits(syms[1..], book)
  {
    hide CL.SymsBits, CL.SymBits;
    assert syms == [syms[0]] + syms[1..];
    CL.SymsBitsConcat([syms[0]], syms[1..], book);
    assert [] + [syms[0]] == [syms[0]];
    CL.SymsBitsPut([], syms[0], book);
    CL.NoSyms(book);
    assert [] + CL.SymBits(syms[0], book) == CL.SymBits(syms[0], book);
  }

  /** Two prefixes of the same bits. */
  lemma Prefixes(a: seq<bool>, u: seq<bool>, b: seq<bool>, v: seq<bool>)
    requires a + u == b + v
    ensures |a| <= |b| ==> a <= b
    ensures |a| == |b| ==> a == b && u == v
  {
    if |a| <= |b| {
      assert a == (a + u)[..|a|] == (b + v)[..|a|] == b[..|a|];
    }
    if |a| == |b| {
      assert u == (a + u)[|a|..] == (b + v)[|b|..] == v;
    }
  }

  /** The same bits begin with the same symbol. */
  lemma SameFirst(book: Codebook.Code, a: set<nat>, s: CL.Sym, u: seq<bool>, r: CL.Sym, v: seq<bool>)
    requires PrefixFree(book, a) && s.code in a && r.code in a && CL.Fits(s) && CL.Fits(r)
    requires CL.SymBits(s, book) + u == CL.SymBits(r, book) + v
    ensures s == r && u == v
  {
    hide LowBits;
    var x, y := book.Word(s.code), book.Word(r.code);
    var e, f := LowBits(s.extra, CL.ExtraBits(s.code)), LowBits(r.extra, CL.ExtraBits(r.code));
    assert (x + e) + u == x + (e + u) && (y + f) + v == y + (f + v);
    Prefixes(x, e + u, y, f + v);
    Prefixes(y, f + v, x, e + u);
    assert s.code == r.code;
    Prefixes(e, u, f, v);
    ExtraFits(s);
    ExtraFits(r);
    FromLowBits(s.extra, CL.ExtraBits(s.code));
    FromLowBits(r.extra, CL.ExtraBits(r.code));
  }

  lemma ExtraFits(s: CL.Sym)
    requires CL.Fits(s)
    ensures s.extra < Pow2(CL.ExtraBits(s.code))
  {
    PowSmall();
  }

  /** Symbols read from the bits of others are the first of them, and the others go on from there. */
  lemma {:induction false} Follow(book: Codebook.Code, a: set<nat>, pre: seq<nat>, syms: seq<CL.Sym>, sent: seq<CL.Sym>, p: seq<nat>,
                                  q: seq<nat>, total: nat, left: seq<bool>, rest: seq<bool>)
    requires PrefixFree(book, a) && Spellable(syms, a) && Spellable(sent, a)
    requires CL.LengthsFrom(pre, syms, total) == Some(p) && CL.Decode(pre, sent, total) == Some((q, []))
    requires CL.SymsBits(syms, book) + left == CL.SymsBits(sent, book) + rest
    ensures syms <= sent && left == CL.SymsBits(sent[|syms|..], book) + rest
    ensures CL.Decode(p, sent[|syms|..], total) == Some((q, []))
    decreases |syms|
  {
    hide PrefixFree, CL.SymsBits, CL.SymBits, CL.Apply;
    if syms == [] {
      CL.NoSyms(book);
      assert [] + left == left && sent[0..] == sent;
    } else {
      FrontBits(syms, book);
      FrontBits(sent, book);
      var s, r := syms[0], sent[0];
      assert s in syms && r in sent;
      var x, y := CL.SymsBits(syms[1..], book), CL.SymsBits(sent[1..], book);
      assert (CL.SymBits(s, book) + x) + left == CL.SymBits(s, book) + (x + left);
      assert (CL.SymBits(r, book) + y) + rest == CL.SymBits(r, book) + (y + rest);
      SameFirst(book, a, s, x + left, r, y + rest);
      Follow(book, a, CL.Apply(pre, s, total).value, syms[1..], sent[1..], p, q, total, left, rest);
      assert sent[1..][|syms| - 1..] == sent[|syms|..];
      assert syms == [s] + syms[1..] && sent == [r] + sent[1..];
    }
  }

  // ----- what deflate made

  lemma KraftAgrees(a: set<nat>, l: seq<nat>, l': seq<nat>, top: nat)
    requires forall i :: i in a ==> i < |l| && i < |l'| && l[i] == l'[i]
    ensures Kraft(a, l, top) == Kraft(a, l', top)
  {
    var n := if |l| < |l'| then |l| else |l'|;
    SumOutside(a, Shares(l, top), n, |l|);
    SumOutside(a, Shares(l', top), n, |l'|);
    SumSame(a, Shares(l, top), a, Shares(l', top), n);
  }

  /** Lengths of a finished tree are complete, so huft_build takes them. */
  lemma ReadyTreeOk(a: set<nat>, n: nat, max: nat, fc: seq<nat>, dl: seq<nat>, c: seq<nat>, lens: seq<nat>)
    requires Ready(a, n, max, fc, dl, c) && max <= 15 && Symbols(lens) == a && forall x :: x in a ==> x < |lens| && lens[x] == dl[x]
    ensures TreeOk(lens) && Kraft(Symbols(lens), lens, BMAX) == Pow2(BMAX)
  {
    KraftByCounts(a, dl, c, 15);
    KraftAgrees(a, dl, lens, 15);
    if a == {} {
      EmptySum(Shares(lens, 15), |lens|);
    }
  }

  /** A single code of one bit is not complete. */
  lemma LoneIncomplete(t: Table, n: nat)
    requires Lone(t, n)
    ensures Kraft(Symbols(t.lens), t.lens, BMAX) < Pow2(BMAX)
  {
    Singleton(Shares(t.lens, BMAX), n);
    assert Pow2(15) == 2 * Pow2(14);
  }

  lemma ReadyPrefixFree(a: set<nat>, n: nat, max: nat, fc: seq<nat>, dl: seq<nat>, c: seq<nat>)
    requires Ready(a, n, max, fc, dl, c) && max <= 15
    ensures PrefixFree(Codebook.Code(fc, dl), a)
  {
    hide Codebook.Code.Word, CanonicalCodes.Word;
    forall x, y | x in a && y in a && x != y
      ensures !(Codebook.Code(fc, dl).Word(x) <= Codebook.Code(fc, dl).Word(y))
    {
      ReadyHas(a, n, max, fc, dl, c, x);
      ReadyHas(a, n, max, fc, dl, c, y);
      WordsPrefixFree(a, dl, c, 15, x, y);
    }
  }

  /** Symbols of the header have codes, so they belong to the set. */
  lemma SentSpellable(syms: seq<CL.Sym>, book: Codebook.Code, a: set<nat>, c: seq<nat>)
    requires CL.Sendable(syms, book) && BlReady(book.code, book.len, a, c)
    ensures Spellable(syms, a)
  {
    hide Ready;
  }

  // ----- the parts of the header

  lemma {:induction false} SpeltSpellable(t: Table, syms: seq<CL.Sym>, bits: seq<bool>)
    requires Spelt(t, syms, bits)
    ensures Spellable(syms, Symbols(t.lens))
    decreases |syms|
  {
    if syms != [] {
      hide CL.Fits, Symbols, TreeReading.Complete, LowBits, BookOf, Spelt;
      var front, s := syms[..|syms| - 1], syms[|syms| - 1];
      var m := SpeltSplit(t, syms, bits);
      SpeltSpellable(t, front, bits[..m]);
      assert syms == front + [s];
    }
  }

  lemma {:induction false} SymsBitsAgree(syms: seq<CL.Sym>, b: Codebook.Code, b': Codebook.Code)
    requires forall s :: s in syms ==> b.Word(s.code) == b'.Word(s.code)
    ensures CL.SymsBits(syms, b) == CL.SymsBits(syms, b')
    decreases |syms|
  {
    if syms != [] {
      SymsBitsAgree(syms[..|syms| - 1], b, b');
    }
  }

  /** The counts, read from 14 bits. */
  lemma CountsBack(table: nat, x: Trees, left: seq<bool>, rest: seq<bool>)
    requires table < 0x4000 && x.Sized() && x.lmax < L_CODES && x.dmax < D_CODES
    requires LowBits(table, 14) + left == Counts3(x.lmax + 1, x.dmax + 1, x.blcodes) + rest
    ensures Nl(table) == x.lmax + 1 && Nd(table) == x.dmax + 1 && Nb(table) == x.blcodes && left == rest && !TooMany(table)
  {
    CountBits(table);
    PowSmall();
    var a, b, c := LowBits(table % 32, 5), LowBits(table / 32 % 32, 5), LowBits(table / 1024, 4);
    var a', b', c' := LowBits(x.lmax + 1 - 257, 5), LowBits(x.dmax, 5), LowBits(x.blcodes - 4, 4);
    FromLowBits(table % 32, 5);
    FromLowBits(table / 32 % 32, 5);
    FromLowBits(table / 1024, 4);
    FromLowBits(x.lmax + 1 - 257, 5);
    FromLowBits(x.dmax, 5);
    FromLowBits(x.blcodes - 4, 4);
    hide LowBits, FromLow;
    Prefixes((a + b) + c, left, (a' + b') + c', rest);
    Prefixes(a + b, c, a' + b', c');
    Prefixes(a, b, a', b');
  }

  /** The lengths of the bit length codes. */
  lemma {:induction false} BlLensBack(x: seq<nat>, y: seq<nat>, n: nat, i: nat)
    requires i < n <= CL.BL_CODES <= |x| && CL.BL_CODES <= |y| && BlLens(x, n) == BlLens(y, n)
    requires forall c :: 0 <= c < CL.BL_CODES ==> x[c] <= 7 && y[c] <= 7
    ensures BlSymbol(i) < CL.BL_CODES && x[BlSymbol(i)] == y[BlSymbol(i)]
    decreases n
  {
    hide BlSymbol, LowBits;
    BlLensSize(x, n - 1);
    BlLensSize(y, n - 1);
    var u, v := x[BlSymbol(n - 1)], y[BlSymbol(n - 1)];
    Prefixes(BlLens(x, n - 1), LowBits(u, 3), BlLens(y, n - 1), LowBits(v, 3));
    if i < n - 1 {
      BlLensBack(x, y, n - 1, i);
    } else {
      assert Pow2(3) == 8;
      FromLowBits(u, 3);
      FromLowBits(v, 3);
    }
  }

  /** All of them, those that are not sent included. */
  lemma BitLensBack(table: nat, bl: seq<nat>, x: Trees, k: Codes)
    requires HeaderOk(x, k) && BitLens(table, bl) && Nb(table) == x.blcodes && BlLens(bl, x.blcodes) == BlLens(x.bl.len, x.blcodes)
    ensures bl == x.bl.len[..CL.BL_CODES]
  {
    hide BlSymbol, BlLens, BlReady, CL.Sendable, TreeSyms;
    forall c | 0 <= c < CL.BL_CODES
      ensures bl[c] == x.bl.len[c]
    {
      RankInverse(c);
      if RankIn(c) < x.blcodes {
        BlLensBack(bl, x.bl.len, x.blcodes, RankIn(c));
      }
    }
  }

  // ----- where the reader stands in the header

  /** Both trees' symbols, and the lengths that they stand for. */
  ghost function SentSyms(x: Trees): seq<CL.Sym>
    requires x.Sized()
  {
    TreeSyms(x.l.len, x.lmax) + TreeSyms(x.d.len, x.dmax)
  }

  ghost function SentLens(x: Trees): seq<nat>
    requires x.Sized()
  {
    x.l.len[..x.lmax + 1] + x.d.len[..x.dmax + 1]
  }

  lemma SentDecodes(x: Trees)
    requires x.Sized() && CL.Guarded(x.l.len[..x.lmax + 2]) && CL.Guarded(x.d.len[..x.dmax + 2])
    ensures CL.Decode([], SentSyms(x), x.lmax + x.dmax + 2) == Some((SentLens(x), []))
  {
    hide CL.Guarded, CL.Decode, CL.Send;
    var l, d := x.l.len[..x.lmax + 2], x.d.len[..x.dmax + 2];
    CL.TreesRoundTrip(l, d, []);
    assert SentSyms(x) + [] == SentSyms(x);
    assert l[..|l| - 1] == x.l.len[..x.lmax + 1] && d[..|d| - 1] == x.d.len[..x.dmax + 1];
  }

  /** The counts and the lengths read are those sent. */
  lemma HeadAgrees(table: nat, bl: seq<nat>, more: seq<bool>, x: Trees, k: Codes, rest: seq<bool>)
    requires HeaderOk(x, k) && Counted14(table) && Nb(table) <= CL.BL_CODES && BitLens(table, bl)
    requires (Counts3(Nl(table), Nd(table), Nb(table)) + BlLens(bl, Nb(table))) + more == x.Header() + rest
    ensures Nl(table) == x.lmax + 1 && Nd(table) == x.dmax + 1 && Nb(table) == x.blcodes && bl == x.bl.len[..CL.BL_CODES]
    ensures more == CL.SymsBits(SentSyms(x), x.bl) + rest
  {
    hide HeaderOk, CL.SymsBits, TreeSyms, BlLens, LowBits, BitLens, Counts3;
    HeaderSized(x, k);
    CountBits(table);
    BitLensBounds(table, bl);
    var c, c' := Counts3(Nl(table), Nd(table), Nb(table)), Counts3(x.lmax + 1, x.dmax + 1, x.blcodes);
    var b, b', y := BlLens(bl, Nb(table)), BlLens(x.bl.len, x.blcodes), CL.SymsBits(SentSyms(x), x.bl);
    assert (c + b) + more == c + (b + more) && ((c' + b') + y) + rest == c' + (b' + (y + rest));
    CountsBack(table, x, b + more, b' + (y + rest));
    BlLensSize(bl, Nb(table));
    BlLensSize(x.bl.len, x.blcodes);
    Prefixes(b, more, b', y + rest);
    BitLensBack(table, bl, x, k);
  }

  lemma HeaderSized(x: Trees, k: Codes)
    requires HeaderOk(x, k)
    ensures x.Sized() && x.lmax < L_CODES && x.dmax < D_CODES
  {
    hide BlReady, CL.Sendable, TreeSyms, BlSymbol;
  }

  lemma BitLensBounds(table: nat, bl: seq<nat>)
    requires BitLens(table, bl)
    ensures |bl| == CL.BL_CODES
  {
  }

  /** The table for the bit length codes has deflate's words, and they are complete. */
  lemma TableAgrees(t: Table, x: Trees, k: Codes)
    requires HeaderOk(x, k) && OneLook(t) && t.lens == x.bl.len[..CL.BL_CODES]
    ensures TreeReading.Complete(t) && SameWords(x.bl, t) && Symbols(t.lens) == k.ba && PrefixFree(x.bl, k.ba)
    ensures Spellable(SentSyms(x), k.ba) && TreeOk(t.lens)
  {
    BlParts(x, k, t.lens);
    hide HeaderOk, Ready, TreeSyms, CL.Sendable, BlReady, Kraft, Pow2, SameWords, Lone, CountedBelow, PrefixFree, Table.Valid, TreeOk, Symbols,
      TreeReading.Complete;
    SentSpellable(SentSyms(x), x.bl, k.ba, k.bc);
    assert Codebook.Code(x.bl.code, x.bl.len) == x.bl;
    ReadyTreeOk(k.ba, CL.BL_CODES, 7, x.bl.code, x.bl.len, k.bc, t.lens);
    ReadyPrefixFree(k.ba, CL.BL_CODES, 7, x.bl.code, x.bl.len, k.bc);
    ReadySameWords(k.ba, CL.BL_CODES, 7, x.bl.code, x.bl.len, k.bc, t, CL.BL_CODES, [], []);
    if !TreeReading.Complete(t) {
      var n :| Lone(t, n);
      LoneIncomplete(t, n);
    }
  }

  lemma BlParts(x: Trees, k: Codes, lens: seq<nat>)
    requires HeaderOk(x, k) && lens == x.bl.len[..CL.BL_CODES]
    ensures Ready(k.ba, CL.BL_CODES, 7, x.bl.code, x.bl.len, k.bc) && Symbols(lens) == k.ba
    ensures BlReady(x.bl.code, x.bl.len, k.ba, k.bc) && x.Sized() && CL.Sendable(SentSyms(x), x.bl)
    ensures forall c :: c in k.ba ==> c < |lens| && lens[c] == x.bl.len[c]
  {
    hide Codable, KraftTo, TreeSyms, CL.Sendable, BlSymbol;
  }

  /** Everywhere in the lengths the reader has the first of the symbols sent, and the others are still to come. */
  lemma LengthsStand(table: nat, t: Table, syms: seq<CL.Sym>, bits: seq<bool>, pre: seq<nat>, done: seq<bool>, left: seq<bool>,
                     x: Trees, k: Codes, rest: seq<bool>)
    requires HeaderOk(x, k) && CL.Guarded(x.l.len[..x.lmax + 2]) && CL.Guarded(x.d.len[..x.dmax + 2])
    requires InLengths(table, t, syms, bits, pre, done) && done + left == x.Header() + rest
    ensures Expected(table) == |SentLens(x)| && Nl(table) == x.lmax + 1 && OneLook(t)
    ensures TreeReading.Complete(t) && SameWords(x.bl, t) && Symbols(t.lens) == k.ba && PrefixFree(x.bl, k.ba)
    ensures Spellable(SentSyms(x), k.ba) && syms <= SentSyms(x) && left == CL.SymsBits(SentSyms(x)[|syms|..], x.bl) + rest
    ensures CL.Decode(pre, SentSyms(x)[|syms|..], |SentLens(x)|) == Some((SentLens(x), []))
  {
    hide HeaderOk, CL.Guarded, BlLens, Counts3, OneLook, BitLens, Spelt, SameWords, PrefixFree, TreeReading.Complete, Symbols, Spellable, TreeSyms,
      CL.SymsBits, CL.Decode, CL.LengthsFrom, BookOf, Codebook.Code.Word;
    HeaderSized(x, k);
    BitLensBounds(table, t.lens);
    var head := Counts3(Nl(table), Nd(table), Nb(table)) + BlLens(t.lens, Nb(table));
    assert (head + bits) + left == head + (bits + left);
    HeadAgrees(table, t.lens, bits + left, x, k, rest);
    TableAgrees(t, x, k);
    SpeltSpellable(t, syms, bits);
    SpeltAsSent(t, syms, bits);
    AgreeOn(t, syms, x.bl);
    SentDecodes(x);
    Follow(x.bl, k.ba, [], syms, SentSyms(x), pre, SentLens(x), Expected(table), left, rest);
  }

  lemma AgreeOn(t: Table, syms: seq<CL.Sym>, book: Codebook.Code)
    requires OneLook(t) && SameWords(book, t) && Spellable(syms, Symbols(t.lens))
    ensures CL.SymsBits(syms, t.Book()) == CL.SymsBits(syms, book)
  {
    hide OneLook, BookOf, Codebook.Code.Word, Symbols, CL.Fits, CL.SymsBits;
    LookSizes(t);
    SymsBitsAgree(syms, t.Book(), book);
  }

  /** With seven more bits behind the header, the reader never waits in it. */
  lemma EnoughBits(table: nat, t: Table, syms: seq<CL.Sym>, bits: seq<bool>, pre: seq<nat>, done: seq<bool>, left: seq<bool>,
                   x: Trees, k: Codes, rest: seq<bool>)
    requires HeaderOk(x, k) && CL.Guarded(x.l.len[..x.lmax + 2]) && CL.Guarded(x.d.len[..x.dmax + 2])
    requires InLengths(table, t, syms, bits, pre, done) && done + left == x.Header() + rest
    requires |pre| < Expected(table) && Wanting(t, left)
    ensures |rest| < 7
  {
    hide *;
    HeaderSized(x, k);
    LengthsStand(table, t, syms, bits, pre, done, left, x, k, rest);
    DecodeNeeds(pre, SentSyms(x)[|syms|..], |SentLens(x)|);
    NextIsThere(t, SentSyms(x), |syms|, left, x.bl, k.ba, rest);
  }

  /** The bits of the next symbol, and those behind the header, are more than the reader looks for. */
  lemma NextIsThere(t: Table, sent: seq<CL.Sym>, n: nat, left: seq<bool>, book: Codebook.Code, a: set<nat>, rest: seq<bool>)
    requires OneLook(t) && TreeReading.Complete(t) && SameWords(book, t) && Symbols(t.lens) == a && PrefixFree(book, a)
    requires Spellable(sent, a) && n < |sent| && left == CL.SymsBits(sent[n..], book) + rest && Wanting(t, left)
    ensures |rest| < 7
  {
    hide OneLook, SameWords, PrefixFree, TreeReading.Complete, Symbols, CL.SymsBits, CL.SymBits, BookOf, WantsExtra;
    var more := sent[n..];
    FrontBits(more, book);
    var s, tail := more[0], CL.SymsBits(more[1..], book) + rest;
    assert s == sent[n] && s in sent;
    assert (CL.SymBits(s, book) + CL.SymsBits(more[1..], book)) + rest == CL.SymBits(s, book) + tail;
    WordLength(t, s.code, book);
    SymBitsLength(s, book);
    forall c: nat
      ensures !WantsExtra(t, c, left)
    {
      NotWanting(t, c, s, left, tail, book, a);
    }
  }

  lemma SymBitsLength(s: CL.Sym, book: Codebook.Code)
    ensures |CL.SymBits(s, book)| >= |book.Word(s.code)|
  {
    hide LowBits, Codebook.Code.Word;
  }

  lemma NotWanting(t: Table, c: nat, s: CL.Sym, left: seq<bool>, tail: seq<bool>, book: Codebook.Code, a: set<nat>)
    requires OneLook(t) && TreeReading.Complete(t) && SameWords(book, t) && Symbols(t.lens) == a && PrefixFree(book, a)
    requires s.code in a && left == CL.SymBits(s, book) + tail
    ensures !WantsExtra(t, c, left)
  {
    hide OneLook, TreeReading.Complete, SameWords, PrefixFree, Symbols, CL.SymBits, BookOf, Codebook.Code.Word;
    LookSizes(t);
    if c < |t.lens| && t.Codes(c) && t.lens[c] <= |left| && left[..t.lens[c]] == t.Book().Word(c) {
      SameWord(t, c, s, left, tail, book, a);
    }
  }

  lemma DecodeNeeds(pre: seq<nat>, syms: seq<CL.Sym>, total: nat)
    requires |pre| < total && CL.Decode(pre, syms, total).Some?
    ensures syms != [] && CL.Apply(pre, syms[0], total).Some?
  {
  }

  lemma WordLength(t: Table, c: nat, book: Codebook.Code)
    requires OneLook(t) && SameWords(book, t) && t.Codes(c)
    ensures c < |t.lens| && 1 <= t.lens[c] == |book.Word(c)| && t.bits <= 7
  {
    LookSizes(t);
    hide OneLook, Codebook.Code.Word;
    BookWord(t.lens, t.f.c, c);
  }

  /** The next symbol's extra bits are there. */
  lemma SameWord(t: Table, c: nat, s: CL.Sym, left: seq<bool>, tail: seq<bool>, book: Codebook.Code, a: set<nat>)
    requires OneLook(t) && TreeReading.Complete(t) && SameWords(book, t) && Symbols(t.lens) == a && PrefixFree(book, a)
    requires forall n :: 0 <= n < |t.lens| ==> t.lens[n] <= |t.f.c|
    requires c < |t.lens| && t.Codes(c) && t.lens[c] <= |left| && left[..t.lens[c]] == t.Book().Word(c)
    requires s.code in a && left == CL.SymBits(s, book) + tail
    ensures |left| >= t.lens[c] + CL.ExtraBits(c)
  {
    hide OneLook, TreeReading.Complete, Symbols, BookOf, Codebook.Code.Word, LowBits;
    WordLength(t, s.code, book);
    WordLength(t, c, book);
    var e := LowBits(s.extra, CL.ExtraBits(s.code));
    assert (book.Word(s.code) + e) + tail == book.Word(s.code) + (e + tail);
    assert left == left[..t.lens[c]] + left[t.lens[c]..];
    Prefixes(book.Word(c), left[t.lens[c]..], book.Word(s.code), e + tail);
    Prefixes(book.Word(s.code), e + tail, book.Word(c), left[t.lens[c]..]);
    assert c == s.code;
  }

  // ----- what the reader makes of the header

  /** The trees of a block that deflate sends, and lengths in their guarded form. */
  ghost predicate Sends(x: Trees, k: Codes) {
    HeaderOk(x, k) && CL.Guarded(x.l.len[..x.lmax + 2]) && CL.Guarded(x.d.len[..x.dmax + 2])
  }

  lemma SendsSized(x: Trees, k: Codes)
    requires Sends(x, k)
    ensures HeaderOk(x, k) && x.Sized() && x.lmax < L_CODES && x.dmax < D_CODES
    ensures CL.Guarded(x.l.len[..x.lmax + 2]) && CL.Guarded(x.d.len[..x.dmax + 2])
  {
    hide HeaderOk, CL.Guarded;
    HeaderSized(x, k);
  }

  lemma HeaderIs(x: Trees)
    requires x.Sized()
    ensures x.Header() == (Counts3(x.lmax + 1, x.dmax + 1, x.blcodes) + BlLens(x.bl.len, x.blcodes)) + CL.SymsBits(SentSyms(x), x.bl)
    ensures 257 <= x.lmax + 1 && 1 <= x.dmax + 1 && 4 <= x.blcodes <= CL.BL_CODES <= |x.bl.len|
  {
    hide Counts3, BlLens, CL.SymsBits, TreeSyms;
  }

  /** How long the header is. */
  lemma HeaderLength(x: Trees)
    requires x.Sized()
    ensures |x.Header()| >= 14 + 3 * x.blcodes
  {
    hide CL.SymsBits, TreeSyms;
    BlLensSize(x.bl.len, x.blcodes);
  }

  /** The counts, wherever the reader is in the lengths of the bit length codes. */
  lemma CountsStand(table: nat, more: seq<bool>, x: Trees, k: Codes, rest: seq<bool>)
    requires Sends(x, k) && table < 0x4000 && LowBits(table, 14) + more == x.Header() + rest
    ensures Nb(table) == x.blcodes && !TooMany(table)
  {
    hide *;
    SendsSized(x, k);
    HeaderIs(x);
    var c, b, y := Counts3(x.lmax + 1, x.dmax + 1, x.blcodes), BlLens(x.bl.len, x.blcodes), CL.SymsBits(SentSyms(x), x.bl);
    assert ((c + b) + y) + rest == c + ((b + y) + rest);
    CountsBack(table, x, more, (b + y) + rest);
  }

  /** The reader waits only for bits behind the header, for less than seven of them. */
  lemma NeverWaits(rd: TreeReader, x: Trees, k: Codes, rest: seq<bool>)
    requires Sends(x, k) && rd.Valid() && rd.r.p <= |rd.r.input| && rd.Short() && rd.done + rd.r.Ahead() == x.Header() + rest
    ensures |rest| < 7
  {
    SendsSized(x, k);
    HeaderLength(x);
    hide Sends, HeaderOk, BitReader.Valid, BitReader.Ahead, InLengths, BlLens, Wanting, Counts3, LowBits, BlSymbol, Trees.Header;
    match rd.stage
    case TABLE =>
    case BTREE =>
      BitsStand(rd.table, rd.index, rd.blens[..], rd.done, rd.r.Ahead(), x, k, rest);
    case DTREE =>
      EnoughBits(rd.table, rd.t, rd.syms, rd.bits, rd.blens[..rd.index], rd.done, rd.r.Ahead(), x, k, rest);
    case _ =>
  }

  lemma BitsStand(table: nat, index: nat, bl: seq<nat>, done: seq<bool>, left: seq<bool>, x: Trees, k: Codes, rest: seq<bool>)
    requires Sends(x, k) && InBitLengths(table, index, bl, done) && done + left == x.Header() + rest && index < Nb(table)
    ensures |left| >= 3
  {
    hide *;
    SendsSized(x, k);
    HeaderLength(x);
    BitLengthsParts(table, index, bl, done);
    assert done + left == LowBits(table, 14) + (BlLens(bl, index) + left);
    CountsStand(table, BlLens(bl, index) + left, x, k, rest);
  }

  lemma BitLengthsParts(table: nat, index: nat, bl: seq<nat>, done: seq<bool>)
    requires InBitLengths(table, index, bl, done)
    ensures table < 0x4000 && index <= Nb(table) <= CL.BL_CODES <= |bl|
    ensures done == LowBits(table, 14) + BlLens(bl, index) && |BlLens(bl, index)| == 3 * index
  {
    CountBits(table);
    BlLensSize(bl, index);
    hide LowBits, BlLens, BlSymbol;
  }

  /** The five ways that reading ends: four of them are not those of a header that deflate sent. */
  lemma NeverRefused(h: Heading, table: nat, t: Table, syms: seq<CL.Sym>, bits: seq<bool>, done: seq<bool>, w: Why, ahead: seq<bool>,
                     more: seq<bool>, x: Trees, k: Codes, rest: seq<bool>)
    requires Sends(x, k) && x.Sized() && EndsAt(h, table, t, syms, bits, done, w, ahead) && done + (ahead + more) == x.Header() + rest
    ensures h.BadTrees? || h.TreesRead?
  {
    hide Sends, InLengths, Trees.Header, Trees.Sized, FromLow, TooMany, TreeOk, BitLens, Counts3, BlLens, Accepted, Expected, SpeltOne, CL.Apply;
    var left := ahead + more;
    if done == [] && |ahead| >= 14 {
      assert [] + (ahead + more) == ahead + more;
      CountsFine(ahead, more, x, k, rest);
      CountsRefused(ahead);
    }
    if Counted14(table) && BitLens(table, w.lens) && Nb(table) <= CL.BL_CODES {
      BitLensBounds(table, w.lens);
      if done == Counts3(Nl(table), Nd(table), Nb(table)) + BlLens(w.lens, Nb(table)) {
        BitLengthsFine(table, w.lens, left, x, k, rest);
      }
    }
    if |w.more| <= |done| && InLengths(table, t, syms, bits, w.lens, done[..|done| - |w.more|]) && |w.lens| < Expected(table)
       && done[|done| - |w.more|..] == w.more && SpeltOne(t, w.s, w.more) {
      RepeatFine(table, t, syms, bits, w, done, left, x, k, rest);
    }
  }

  lemma BitLengthsFine(table: nat, lens: seq<nat>, left: seq<bool>, x: Trees, k: Codes, rest: seq<bool>)
    requires Sends(x, k) && x.Sized() && Counted14(table) && Nb(table) <= CL.BL_CODES && BitLens(table, lens) && |lens| == CL.BL_CODES
    requires (Counts3(Nl(table), Nd(table), Nb(table)) + BlLens(lens, Nb(table))) + left == x.Header() + rest
    ensures TreeOk(lens)
  {
    hide *;
    SendsSized(x, k);
    HeadAgrees(table, lens, left, x, k, rest);
    BlParts(x, k, lens);
    ReadyTreeOk(k.ba, CL.BL_CODES, 7, x.bl.code, x.bl.len, k.bc, lens);
  }

  lemma CountsFine(ahead: seq<bool>, more: seq<bool>, x: Trees, k: Codes, rest: seq<bool>)
    requires Sends(x, k) && |ahead| >= 14 && x.Sized() && ahead + more == x.Header() + rest
    ensures !TooMany(FromLow(ahead[..14]))
  {
    hide *;
    var table := FromLow(ahead[..14]);
    TreeReader.CountsRead(table, ahead);
    assert ahead + more == ahead[..14] + (ahead[14..] + more);
    CountsStand(table, ahead[14..] + more, x, k, rest);
  }

  lemma RepeatFine(table: nat, t: Table, syms: seq<CL.Sym>, bits: seq<bool>, w: Why, done: seq<bool>, left: seq<bool>,
                   x: Trees, k: Codes, rest: seq<bool>)
    requires Sends(x, k) && x.Sized() && |w.more| <= |done| && done[|done| - |w.more|..] == w.more && |w.lens| < Expected(table)
    requires InLengths(table, t, syms, bits, w.lens, done[..|done| - |w.more|])
    requires SpeltOne(t, w.s, w.more) && done + left == x.Header() + rest
    ensures CL.Apply(w.lens, w.s, Expected(table)).Some?
  {
    hide *;
    SendsSized(x, k);
    var before := done[..|done| - |w.more|];
    assert done == before + w.more;
    assert (before + w.more) + left == before + (w.more + left);
    LengthsStand(table, t, syms, bits, w.lens, before, w.more + left, x, k, rest);
    var sent := SentSyms(x)[|syms|..];
    DecodeNeeds(w.lens, sent, |SentLens(x)|);
    InSpellable(SentSyms(x), |syms|, k.ba);
    NextSymbol(t, w.s, w.more, left, sent, x.bl, k.ba, rest);
  }

  lemma InSpellable(sent: seq<CL.Sym>, n: nat, a: set<nat>)
    requires Spellable(sent, a) && n < |sent|
    ensures sent[n..][0].code in a && CL.Fits(sent[n..][0])
  {
    hide CL.Fits;
    assert sent[n] in sent;
  }

  /** The symbol read is the next one sent. */
  lemma NextSymbol(t: Table, s: CL.Sym, more: seq<bool>, left: seq<bool>, sent: seq<CL.Sym>, book: Codebook.Code, a: set<nat>, rest: seq<bool>)
    requires OneLook(t) && TreeReading.Complete(t) && SameWords(book, t) && Symbols(t.lens) == a && PrefixFree(book, a)
    requires SpeltOne(t, s, more) && sent != [] && sent[0].code in a && CL.Fits(sent[0])
    requires more + left == CL.SymsBits(sent, book) + rest
    ensures s == sent[0]
  {
    hide *;
    OneAsSent(t, s, more);
    OneAgrees(t, s, more, book);
    FrontBits(sent, book);
    var tail := CL.SymsBits(sent[1..], book);
    assert (CL.SymBits(sent[0], book) + tail) + rest == CL.SymBits(sent[0], book) + (tail + rest);
    SameFirst(book, a, s, left, sent[0], tail + rest);
  }

  lemma OneAgrees(t: Table, s: CL.Sym, more: seq<bool>, book: Codebook.Code)
    requires OneLook(t) && SameWords(book, t) && SpeltOne(t, s, more)
    ensures CL.Fits(s) && s.code in Symbols(t.lens) && CL.SymBits(s, t.Book()) == CL.SymBits(s, book)
  {
    hide OneLook, TreeReading.Complete, Symbols, BookOf, Codebook.Code.Word, LowBits, CL.Fits;
  }

  /** At the end of the lengths, they are those sent, and the header is used up. */
  lemma AllLengths(table: nat, t: Table, syms: seq<CL.Sym>, bits: seq<bool>, lens: seq<nat>, done: seq<bool>, left: seq<bool>,
                   x: Trees, k: Codes, rest: seq<bool>)
    requires Sends(x, k) && InLengths(table, t, syms, bits, lens, done) && |lens| == Expected(table) && done + left == x.Header() + rest
    ensures x.Sized() && lens == SentLens(x) && left == rest && Nl(table) == x.lmax + 1
  {
    SendsSized(x, k);
    hide *;
    LengthsStand(table, t, syms, bits, lens, done, left, x, k, rest);
    var more := SentSyms(x)[|syms|..];
    CL.DecodeDone(lens, more, |SentLens(x)|);
    CL.NoSyms(x.bl);
    assert [] + rest == rest;
  }

  /** The trees that deflate made are trees that inflate accepts. */
  lemma SentAccepted(x: Trees, k: Codes, ts: seq<Lz77Tokens.Token>)
    requires DynamicOk(x, k, ts) && x.Sized()
    ensures x.lmax + 1 <= |SentLens(x)| && Accepted(SentLens(x), x.lmax + 1) && Symbols(SentLens(x)[x.lmax + 1..]) != {}
  {
    hide *;
    DynamicParts(x, k, ts);
    SentParts(x);
    var l, d := x.l.len[..x.lmax + 1], x.d.len[..x.dmax + 1];
    SymbolsExactly(x.l.len, x.lmax, k.la);
    SymbolsExactly(x.d.len, x.dmax, k.da);
    ReadyTreeOk(k.la, L_CODES, MAX_BITS, x.l.code, x.l.len, k.lc, l);
    ReadyTreeOk(k.da, D_CODES, MAX_BITS, x.d.code, x.d.len, k.dc, d);
    TreeReader.AcceptedIf(SentLens(x), x.lmax + 1);
  }

  lemma SentParts(x: Trees)
    requires x.Sized()
    ensures 0 <= x.lmax && x.lmax + 1 <= |x.l.len| && 0 <= x.dmax && x.dmax + 1 <= |x.d.len| && x.lmax + 1 <= |SentLens(x)|
    ensures SentLens(x)[..x.lmax + 1] == x.l.len[..x.lmax + 1] && SentLens(x)[x.lmax + 1..] == x.d.len[..x.dmax + 1]
  {
  }

  lemma DynamicParts(x: Trees, k: Codes, ts: seq<Lz77Tokens.Token>)
    requires DynamicOk(x, k, ts)
    ensures Sends(x, k) && Exactly(x.l.len, x.lmax, k.la) && Exactly(x.d.len, x.dmax, k.da)
    ensures Ready(k.la, L_CODES, MAX_BITS, x.l.code, x.l.len, k.lc) && Ready(k.da, D_CODES, MAX_BITS, x.d.code, x.d.len, k.dc)
    ensures (forall i :: i in k.la ==> i <= x.lmax) && forall i :: i in k.da ==> i <= x.dmax
    ensures MAX_BITS == 15
  {
    hide Ready, HeaderOk, Blocks.AllCoded, Uses, CL.Guarded, TreeBuilder.Coded;
  }

  /** Whatever the reader stops with in a header that deflate sent, it is the trees that were sent, and the bits behind the
      header are left. */
  lemma HeaderRead(rd: TreeReader, h: Heading, w: Why, more: seq<bool>, x: Trees, k: Codes, ts: seq<Lz77Tokens.Token>, rest: seq<bool>)
    requires DynamicOk(x, k, ts) && rd.r.p <= |rd.r.input| && rd.Ends(h, w)
    requires x.Sized() && rd.done + (rd.r.Ahead() + more) == x.Header() + rest
    ensures h.TreesRead? && w.lens == SentLens(x) && Nl(rd.table) == x.lmax + 1 && rd.r.Ahead() + more == rest && rd.Built(w.lens)
  {
    hide DynamicOk, EndsAt, Trees.Header, BitReader.Ahead, Trees.Sized, TreeReader.Built, SentLens;
    HeaderReadAt(h, rd.table, rd.t, rd.syms, rd.bits, rd.done, w, rd.r.Ahead(), more, x, k, ts, rest);
  }

  lemma HeaderReadAt(h: Heading, table: nat, t: Table, syms: seq<CL.Sym>, bits: seq<bool>, done: seq<bool>, w: Why, ahead: seq<bool>,
                     more: seq<bool>, x: Trees, k: Codes, ts: seq<Lz77Tokens.Token>, rest: seq<bool>)
    requires DynamicOk(x, k, ts) && x.Sized() && EndsAt(h, table, t, syms, bits, done, w, ahead)
    requires done + (ahead + more) == x.Header() + rest
    ensures h.TreesRead? && w.lens == SentLens(x) && Nl(table) == x.lmax + 1 && ahead + more == rest
  {
    hide *;
    DynamicParts(x, k, ts);
    NeverRefused(h, table, t, syms, bits, done, w, ahead, more, x, k, rest);
    SentAccepted(x, k, ts);
    EndParts(h, table, t, syms, bits, done, w, ahead);
    AllLengths(table, t, syms, bits, w.lens, done, ahead + more, x, k, rest);
  }

  lemma EndParts(h: Heading, table: nat, t: Table, syms: seq<CL.Sym>, bits: seq<bool>, done: seq<bool>, w: Why, ahead: seq<bool>)
    requires EndsAt(h, table, t, syms, bits, done, w, ahead) && (h.BadTrees? || h.TreesRead?)
    ensures InLengths(table, t, syms, bits, w.lens, done) && |w.lens| == Expected(table) && Nl(table) <= |w.lens|
    ensures h.TreesRead? <==> Accepted(w.lens, Nl(table))
  {
    hide InLengths, Accepted;
  }

  /** The tables that were made decode what deflate's trees encode. */
  lemma TablesServe(rd: TreeReader, lens: seq<nat>, x: Trees, k: Codes, ts: seq<Lz77Tokens.Token>)
    requires DynamicOk(x, k, ts) && x.Sized() && rd.Built(lens) && lens == SentLens(x) && Nl(rd.table) == x.lmax + 1
    ensures rd.lt.lens == x.l.len[..x.lmax + 1] && rd.dt.lens == x.d.len[..x.dmax + 1] && |rd.lt.lens| <= N_MAX && |rd.dt.lens| <= D_CODES
    ensures rd.lt.Valid(LITERALS + 1, Cplens(), Cplext()) && rd.dt.Valid(0, Cpdist(), Cpdext())
    ensures CountedBelow(rd.lt.lens, rd.lt.f.c, rd.lt.f.g) && CountedBelow(rd.dt.lens, rd.dt.f.c, rd.dt.f.g)
    ensures rd.tl == rd.lt.tables && rd.bl == rd.lt.bits <= 9 && rd.td == rd.dt.tables && rd.bd == rd.dt.bits <= 9
  {
    SentAccepted(x, k, ts);
    SentParts(x);
    DynamicParts(x, k, ts);
    SendsSized(x, k);
    hide DynamicOk, Sends, Tabled, Sized, Table.Valid, CountedBelow, Counts, Symbols, Kraft, Pow2, Ready, Exactly, TreeOk, Cplens, Cplext, Cpdist,
      Cpdext, HeaderOk, SentLens, Trees.Sized, CL.Guarded;
    DistComplete(x, k);
    CallersTablesWork(rd.lt, 9, LITERALS + 1, Cplens(), Cplext());
    CallersTablesWork(rd.dt, 6, 0, Cpdist(), Cpdext());
    LitComplete(x, k);
    NineBits(x.l.len[..x.lmax + 1], 9, rd.bl, rd.lt.f.g);
    NineBits(x.d.len[..x.dmax + 1], 6, rd.bd, rd.dt.f.g);
  }

  lemma {:induction false} FewShares(a: set<nat>, g: seq<nat>, n: nat, p: nat)
    requires n <= |g| && forall i :: i in a && i < n ==> g[i] <= p
    ensures SumOver(a, g, n) <= n * p
  {
    if n > 0 {
      FewShares(a, g, n - 1, p);
      assert n * p == (n - 1) * p + p;
    }
  }

  /** Too few symbols for all codes to be longer than nine bits: the first table has no more. */
  lemma NineBits(lens: seq<nat>, m: nat, bits: nat, g: nat)
    requires Sized(lens, m, bits, g) && m <= 9 && |lens| <= N_MAX && Kraft(Symbols(lens), lens, BMAX) == Pow2(BMAX)
    ensures bits <= 9
  {
    var low: nat :| Shortest(lens, low) && bits == if m < low then low else if m > g then g else m;
    if low > 9 {
      hide Kraft, Symbols;
      LongKraft(lens, low);
      Pow2Values();
    }
  }

  lemma LongKraft(lens: seq<nat>, low: nat)
    requires Shortest(lens, low) && low > 9
    ensures Kraft(Symbols(lens), lens, BMAX) <= |lens| * 32
  {
    var s := Shares(lens, BMAX);
    assert Pow2(5) == 32;
    forall i | i in Symbols(lens) && i < |lens|
      ensures s[i] <= 32
    {
      if lens[i] <= BMAX {
        Pow2Monotone(BMAX - lens[i], 5);
      }
    }
    hide Symbols, Pow2, Shares;
    FewShares(Symbols(lens), s, |lens|, 32);
  }

  lemma LitComplete(x: Trees, k: Codes)
    requires x.Sized() && Exactly(x.l.len, x.lmax, k.la) && Ready(k.la, L_CODES, MAX_BITS, x.l.code, x.l.len, k.lc)
    ensures var l := x.l.len[..x.lmax + 1]; Kraft(Symbols(l), l, BMAX) == Pow2(BMAX)
  {
    SymbolsExactly(x.l.len, x.lmax, k.la);
    hide Ready, Kraft, Pow2, TreeOk;
    ReadyTreeOk(k.la, L_CODES, MAX_BITS, x.l.code, x.l.len, k.lc, x.l.len[..x.lmax + 1]);
  }

  lemma DistComplete(x: Trees, k: Codes)
    requires x.Sized() && Exactly(x.d.len, x.dmax, k.da) && Ready(k.da, D_CODES, MAX_BITS, x.d.code, x.d.len, k.dc)
    ensures var d := x.d.len[..x.dmax + 1]; Kraft(Symbols(d), d, BMAX) == Pow2(BMAX)
  {
    SymbolsExactly(x.d.len, x.dmax, k.da);
    hide Ready, Kraft, Pow2, TreeOk;
    ReadyTreeOk(k.da, D_CODES, MAX_BITS, x.d.code, x.d.len, k.dc, x.d.len[..x.dmax + 1]);
  }
}
