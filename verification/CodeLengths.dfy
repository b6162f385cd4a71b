/**
 The run-length code for code lengths (section 3.2.7 of RFC 1951): scan_tree counts the
 symbols that send_tree sends, and the decoder of the DTREE state restores the lengths of
 the literal tree and of the distance tree as one stream.
 */
module CodeLengths {
  import opened Options
  import opened Bits
  import opened BitOrder
  import opened BitWriting
  import opened Codebook

  const REP_3_6: nat := 16
  const REPZ_3_10: nat := 17
  const REPZ_11_138: nat := 18
  const BL_CODES: nat := 19
  const GUARD: nat := 0xffff

  /** A symbol of the bit length tree, with the value of its extra bits. */
  datatype Sym = Sym(code: nat, extra: nat)

  function Repeat(v: nat, n: nat): (s: seq<nat>)
    ensures |s| == n && forall i :: 0 <= i < n ==> s[i] == v
  {
    seq(n, i => v)
  }

  // ----- decoding

  /** One symbol of the DTREE loop; None is "invalid bit length repeat". */
  function Apply(pre: seq<nat>, s: Sym, total: nat): Option<seq<nat>> {
    if s.code < 16 then Some(pre + [s.code])
    else
      var j := (if s.code == REPZ_11_138 then 11 else 3) + s.extra;
      if |pre| + j > total || (s.code == REP_3_6 && |pre| < 1) then None
      else Some(pre + Repeat(if s.code == REP_3_6 then pre[|pre| - 1] else 0, j))
  }

  /** Decoding stops with an error, or when there are `total` lengths, leaving the other symbols. */
  function Decode(pre: seq<nat>, syms: seq<Sym>, total: nat): Option<(seq<nat>, seq<Sym>)>
    decreases |syms|
  {
    if |pre| >= total then Some((pre, syms))
    else if syms == [] then None
    else
      var next := Apply(pre, syms[0], total);
      if next.None? then None else Decode(next.value, syms[1..], total)
  }

  /** The lengths after those in pre and those that the symbols stand for; None where decoding stops with an error, or needs
      no more symbols. */
  function LengthsFrom(pre: seq<nat>, syms: seq<Sym>, total: nat): Option<seq<nat>>
    decreases |syms|
  {
    if syms == [] then Some(pre)
    else if |pre| >= total then None
    else
      var next := Apply(pre, syms[0], total);
      if next.None? then None else LengthsFrom(next.value, syms[1..], total)
  }

  /** One more symbol. */
  lemma {:induction false} LengthsPut(pre: seq<nat>, syms: seq<Sym>, s: Sym, total: nat)
    ensures LengthsFrom(pre, syms + [s], total)
         == match LengthsFrom(pre, syms, total)
            case None => None
            case Some(p) => if |p| >= total then None else Apply(p, s, total)
    decreases |syms|
  {
    hide Apply;
    if syms == [] {
      assert syms + [s] == [s] && [s][1..] == [];
    } else {
      assert (syms + [s])[1..] == syms[1..] + [s];
      if |pre| < total && Apply(pre, syms[0], total).Some? {
        LengthsPut(Apply(pre, syms[0], total).value, syms[1..], s, total);
      }
    }
  }

  // ----- encoding

  datatype Limits = Limits(max: nat, min: nat)

  /** How long a run of `cur` after `prevlen` may and must be to be coded as a repeat. */
  function LimitsFor(prevlen: int, cur: nat): Limits {
    if cur == 0 then Limits(138, 3) else if cur == prevlen then Limits(6, 3) else Limits(7, 4)
  }

  /** The symbols for a run of count lengths. */
  function Emit(cur: nat, prevlen: int, count: nat, min: nat): seq<Sym>
    requires 1 <= count && 3 <= min
  {
    if count < min then seq(count, i => Sym(cur, 0))
    else if cur != 0 then
      if cur != prevlen then [Sym(cur, 0), Sym(REP_3_6, if count >= 4 then count - 4 else 0)] else [Sym(REP_3_6, count - 3)]
    else if count <= 10 then [Sym(REPZ_3_10, count - 3)]
    else [Sym(REPZ_11_138, count - 11)]
  }

  /** The symbols for lens[n..] when `count` lengths before n are still unsent; the last element is the guard. */
  function Send(lens: seq<nat>, n: nat, prevlen: int, count: nat): seq<Sym>
    requires n < |lens|
    decreases |lens| - n
  {
    if n + 1 == |lens| then []
    else
      var cur, next, c := lens[n], lens[n + 1], count + 1;
      var l := LimitsFor(prevlen, cur);
      if c < l.max && cur == next then Send(lens, n + 1, prevlen, c)
      else Emit(cur, prevlen, c, l.min) + Send(lens, n + 1, cur, 0)
  }

  /** A tree's lengths, none above 15, followed by the guard. */
  ghost predicate Guarded(lens: seq<nat>) {
    && |lens| >= 2 && lens[|lens| - 1] == GUARD
    && forall i :: 0 <= i < |lens| - 1 ==> lens[i] <= 15
  }

  /** The lengths n - count .. n - 1 wait to be sent, and what came before them is known. */
  ghost predicate InRun(lens: seq<nat>, n: nat, prevlen: int, count: nat) {
    && count <= n < |lens|
    && (forall i :: n - count <= i < n ==> lens[i] == lens[n])
    && (prevlen == -1 ==> n == count)
    && (prevlen != -1 ==> n - count > 0 && prevlen == lens[n - count - 1])
    && (count > 0 ==> count < LimitsFor(prevlen, lens[n]).max)
  }

  lemma DecodeStep(pre: seq<nat>, s: Sym, rest: seq<Sym>, total: nat)
    requires |pre| < total && Apply(pre, s, total).Some?
    ensures Decode(pre, [s] + rest, total) == Decode(Apply(pre, s, total).value, rest, total)
  {
    assert ([s] + rest)[1..] == rest;
  }

  /** Literal symbols decode to themselves. */
  lemma {:induction false} DecodeLiterals(pre: seq<nat>, v: nat, n: nat, rest: seq<Sym>, total: nat)
    requires v <= 15 && |pre| + n <= total
    ensures Decode(pre, seq(n, i => Sym(v, 0)) + rest, total) == Decode(pre + Repeat(v, n), rest, total)
    decreases n
  {
    if n == 0 {
      assert seq(n, i => Sym(v, 0)) + rest == rest;
      assert pre + Repeat(v, n) == pre;
    } else {
      assert seq(n, i => Sym(v, 0)) + rest == [Sym(v, 0)] + (seq(n - 1, i => Sym(v, 0)) + rest);
      DecodeStep(pre, Sym(v, 0), seq(n - 1, i => Sym(v, 0)) + rest, total);
      DecodeLiterals(pre + [v], v, n - 1, rest, total);
      assert pre + [v] + Repeat(v, n - 1) == pre + Repeat(v, n);
    }
  }

  /** The symbols of a run decode to the run. */
  lemma EmitDecodes(pre: seq<nat>, cur: nat, prevlen: int, count: nat, rest: seq<Sym>, total: nat)
    requires cur <= 15 && 1 <= count <= LimitsFor(prevlen, cur).max && |pre| + count <= total
    requires prevlen == cur ==> |pre| > 0 && pre[|pre| - 1] == cur
    ensures Decode(pre, Emit(cur, prevlen, count, LimitsFor(prevlen, cur).min) + rest, total)
         == Decode(pre + Repeat(cur, count), rest, total)
  {
    hide Decode;
    var min := LimitsFor(prevlen, cur).min;
    if count < min {
      DecodeLiterals(pre, cur, count, rest, total);
    } else if cur != 0 && cur != prevlen {
      var tail := [Sym(REP_3_6, count - 4)] + rest;
      assert Emit(cur, prevlen, count, min) + rest == [Sym(cur, 0)] + tail;
      DecodeStep(pre, Sym(cur, 0), tail, total);
      DecodeStep(pre + [cur], Sym(REP_3_6, count - 4), rest, total);
      assert pre + [cur] + Repeat(cur, count - 1) == pre + Repeat(cur, count);
    } else {
      DecodeStep(pre, Emit(cur, prevlen, count, min)[0], rest, total);
    }
  }

  /** Decoding what is sent from position n on appends the unsent lengths and the rest of the tree. */
  lemma {:induction false} SendDecodes(pre: seq<nat>, lens: seq<nat>, n: nat, prevlen: int, count: nat,
                                       rest: seq<Sym>, total: nat)
    requires Guarded(lens) && InRun(lens, n, prevlen, count) && (n + 1 == |lens| ==> count == 0)
    requires |pre| + (|lens| - 1 - (n - count)) <= total
    requires n - count > 0 ==> |pre| > 0 && pre[|pre| - 1] == lens[n - count - 1]
    ensures Decode(pre, Send(lens, n, prevlen, count) + rest, total)
         == Decode(pre + lens[n - count..|lens| - 1], rest, total)
    decreases |lens| - n
  {
    hide Decode, Emit;
    if n + 1 == |lens| {
      assert Send(lens, n, prevlen, count) + rest == rest;
      assert pre + lens[n..|lens| - 1] == pre;
    } else if count + 1 < LimitsFor(prevlen, lens[n]).max && lens[n] == lens[n + 1] {
      SendDecodes(pre, lens, n + 1, prevlen, count + 1, rest, total);
    } else {
      var cur, c := lens[n], count + 1;
      var tail := Send(lens, n + 1, cur, 0);
      var pre' := pre + Repeat(cur, c);
      RunEnds(lens, n, prevlen, count);
      SendDecodes(pre', lens, n + 1, cur, 0, rest, total);
      hide Send, Guarded, InRun;
      var emitted := Emit(cur, prevlen, c, LimitsFor(prevlen, cur).min);
      assert (emitted + tail) + rest == emitted + (tail + rest);
      EmitDecodes(pre, cur, prevlen, c, tail + rest, total);
      assert pre' + lens[n + 1..|lens| - 1] == pre + lens[n - count..|lens| - 1] by {
        assert lens[n - count..|lens| - 1] == lens[n - count..n + 1] + lens[n + 1..|lens| - 1];
      }
    }
  }

  /** Where a run ends, it is a repetition, and the next run starts afresh. */
  lemma RunEnds(lens: seq<nat>, n: nat, prevlen: int, count: nat)
    requires Guarded(lens) && InRun(lens, n, prevlen, count) && n + 1 < |lens|
    ensures lens[n] <= 15 && Repeat(lens[n], count + 1) == lens[n - count..n + 1]
    ensures InRun(lens, n + 1, lens[n], 0)
    ensures count + 1 <= LimitsFor(prevlen, lens[n]).max
    ensures prevlen == lens[n] ==> n - count > 0 && lens[n - count - 1] == lens[n]
  {
  }

  /** Both trees, sent one after the other, come back as one stream of lengths. */
  lemma TreesRoundTrip(ltree: seq<nat>, dtree: seq<nat>, rest: seq<Sym>)
    requires Guarded(ltree) && Guarded(dtree)
    ensures var l, d := ltree[..|ltree| - 1], dtree[..|dtree| - 1];
            Decode([], Send(ltree, 0, -1, 0) + Send(dtree, 0, -1, 0) + rest, |l + d|) == Some((l + d, rest))
  {
    hide Decode, Send;
    var l, d := ltree[..|ltree| - 1], dtree[..|dtree| - 1];
    var s, t := Send(ltree, 0, -1, 0), Send(dtree, 0, -1, 0);
    assert s + t + rest == s + (t + rest);
    SendDecodes([], ltree, 0, -1, 0, t + rest, |l + d|);
    assert [] + ltree[0..|ltree| - 1] == l;
    SendDecodes(l, dtree, 0, -1, 0, rest, |l + d|);
    assert l + dtree[0..|dtree| - 1] == l + d;
    DecodeDone(l + d, rest, |l + d|);
  }

  lemma DecodeDone(pre: seq<nat>, syms: seq<Sym>, total: nat)
    requires |pre| >= total
    ensures Decode(pre, syms, total) == Some((pre, syms))
  {
  }

  /** Every symbol sent is a code of the bit length tree and its extra value fits its extra bits. */
  lemma {:induction false} SentSymbolsFit(lens: seq<nat>, n: nat, prevlen: int, count: nat)
    requires Guarded(lens) && InRun(lens, n, prevlen, count)
    ensures forall s :: s in Send(lens, n, prevlen, count) ==> Fits(s)
    decreases |lens| - n
  {
    if n + 1 < |lens| {
      var cur, c := lens[n], count + 1;
      var l := LimitsFor(prevlen, cur);
      if c < l.max && cur == lens[n + 1] {
        SentSymbolsFit(lens, n + 1, prevlen, c);
      } else {
        SentSymbolsFit(lens, n + 1, cur, 0);
      }
    }
  }

  /** Lengths that are not all zero are not sent by repeat symbols alone. */
  lemma {:induction false} LiteralSent(lens: seq<nat>, n: nat, prevlen: int, count: nat, k: nat) returns (s: Sym)
    requires Guarded(lens) && n <= k < |lens| - 1 && lens[k] != 0 && prevlen <= 0
    ensures s in Send(lens, n, prevlen, count) && 1 <= s.code <= 15
    decreases |lens| - n
  {
    SendUnfold(lens, n, prevlen, count);
    hide Send, Emit;
    if count + 1 < LimitsFor(prevlen, lens[n]).max && lens[n] == lens[n + 1] {
      GuardLast(lens, n);
      s := LiteralSent(lens, n + 1, prevlen, count + 1, if k == n then n + 1 else k);
    } else if lens[n] == 0 {
      s := LiteralSent(lens, n + 1, 0, 0, k);
    } else {
      s := Sym(lens[n], 0);
      EmitStarts(lens[n], prevlen, count + 1, LimitsFor(prevlen, lens[n]).min);
    }
  }

  lemma GuardLast(lens: seq<nat>, n: nat)
    requires Guarded(lens) && n + 1 < |lens| && lens[n] == lens[n + 1]
    ensures n + 1 < |lens| - 1
  {
  }

  lemma EmitStarts(cur: nat, prevlen: int, count: nat, min: nat)
    requires cur != 0 && cur != prevlen && 1 <= count && 3 <= min
    ensures Sym(cur, 0) in Emit(cur, prevlen, count, min)
  {
    assert Emit(cur, prevlen, count, min)[0] == Sym(cur, 0);
  }

  /** extra_blbits */
  function ExtraBits(code: nat): nat {
    if code == REP_3_6 then 2 else if code == REPZ_3_10 then 3 else if code == REPZ_11_138 then 7 else 0
  }

  predicate Fits(s: Sym) {
    && s.code < BL_CODES
    && s.extra < if s.code < 16 then 1 else if s.code == REP_3_6 then 4 else if s.code == REPZ_3_10 then 8 else 128
  }

  // ----- the loops of the source

  /** The bits that one symbol is sent as: its code word and its extra bits. */
  function SymBits(s: Sym, book: Code): seq<bool> {
    book.Word(s.code) + LowBits(s.extra, ExtraBits(s.code))
  }

  function SymsBits(syms: seq<Sym>, book: Code): seq<bool> {
    if syms == [] then [] else SymsBits(syms[..|syms| - 1], book) + SymBits(syms[|syms| - 1], book)
  }

  lemma {:induction false} SymsBitsConcat(a: seq<Sym>, b: seq<Sym>, book: Code)
    ensures SymsBits(a + b, book) == SymsBits(a, book) + SymsBits(b, book)
    decreases |b|
  {
    hide SymsBits, SymBits;
    if b == [] {
      NoSyms(book);
      assert a + b == a && SymsBits(a, book) + [] == SymsBits(a, book);
    } else {
      var front, x := b[..|b| - 1], b[|b| - 1];
      SymsBitsConcat(a, front, book);
      SymsBitsPut(front, x, book);
      SymsBitsPut(a + front, x, book);
      assert a + b == (a + front) + [x] && b == front + [x];
      assert (SymsBits(a, book) + SymsBits(front, book)) + SymBits(x, book) == SymsBits(a, book) + (SymsBits(front, book) + SymBits(x, book));
    }
  }

  lemma NoSyms(book: Code)
    ensures SymsBits([], book) == []
  {
  }

  lemma SymsBitsPut(syms: seq<Sym>, s: Sym, book: Code)
    ensures SymsBits(syms + [s], book) == SymsBits(syms, book) + SymBits(s, book)
  {
    assert (syms + [s])[..|syms|] == syms;
  }

  /** Every symbol has a code word. */
  ghost predicate Sendable(syms: seq<Sym>, book: Code) {
    forall s :: s in syms ==> Fits(s) && book.Has(s.code)
  }

  /** send_code, and send_bits if the symbol has extra bits. */
  method SendSym(w: BitWriter, code: array<nat>, len: array<nat>, s: Sym, ghost done: seq<Sym>, ghost before: seq<bool>)
    requires w.Valid() && Fits(s) && Code(code[..], len[..]).Has(s.code)
    requires w.Bits() == before + SymsBits(done, Code(code[..], len[..]))
    modifies w
    ensures w.Valid() && w.Bits() == before + SymsBits(done + [s], Code(code[..], len[..]))
  {
    hide *;
    ghost var book := Code(code[..], len[..]);
    ghost var sent, word := SymsBits(done, book), book.Word(s.code);
    SymParts(s, book);
    SymsBitsPut(done, s, book);
    SendCode(w, code, len, s.code);
    if ExtraBits(s.code) > 0 {
      w.SendBits(s.extra, ExtraBits(s.code));
    }
    Joined(before, sent, word, LowBits(s.extra, ExtraBits(s.code)));
  }

  lemma Joined(a: seq<bool>, b: seq<bool>, c: seq<bool>, d: seq<bool>)
    ensures ((a + b) + c) + d == a + (b + (c + d))
    ensures d == [] ==> (a + b) + c == a + (b + (c + d))
  {
  }

  lemma SymParts(s: Sym, book: Code)
    requires Fits(s)
    ensures ExtraBits(s.code) <= 7 && s.extra < Pow2(ExtraBits(s.code))
    ensures ExtraBits(s.code) == 0 ==> LowBits(s.extra, ExtraBits(s.code)) == []
    ensures SymBits(s, book) == book.Word(s.code) + LowBits(s.extra, ExtraBits(s.code))
  {
    Pow2Values();
    assert Pow2(0) == 1 && Pow2(2) == 4 && Pow2(3) == 8;
  }

  /** The send_code and send_bits calls for one run. */
  method SendRun(w: BitWriter, code: array<nat>, len: array<nat>, curlen: nat, prevlen: int, count0: nat, minCount: nat)
    requires 1 <= count0 && 3 <= minCount && (curlen != 0 && curlen != prevlen ==> minCount == 4)
    requires w.Valid() && Sendable(Emit(curlen, prevlen, count0, minCount), Code(code[..], len[..]))
    modifies w
    ensures w.Valid()
    ensures w.Bits() == old(w.Bits()) + SymsBits(Emit(curlen, prevlen, count0, minCount), Code(code[..], len[..]))
  {
    hide Emit, Sendable, SymsBits, w.Valid, w.Bits;
    ghost var book, before, all := Code(code[..], len[..]), w.Bits(), Emit(curlen, prevlen, count0, minCount);
    ghost var out: seq<Sym> := [];
    NothingSent(before, book);
    EmitSends(curlen, prevlen, count0, minCount, book);
    hide *;
    var count := count0;
    if count < minCount {
      while count != 0
        invariant 0 <= count <= count0 && out == seq(count0 - count, i => Sym(curlen, 0))
        invariant book == Code(code[..], len[..]) && w.Valid() && w.Bits() == before + SymsBits(out, book)
      {
        SendSym(w, code, len, Sym(curlen, 0), out, before);
        out := out + [Sym(curlen, 0)];
        count := count - 1;
      }
    } else if curlen != 0 {
      if curlen != prevlen {
        SendSym(w, code, len, Sym(curlen, 0), out, before);
        out := out + [Sym(curlen, 0)];
        count := count - 1;
      }
      SendSym(w, code, len, Sym(REP_3_6, count - 3), out, before);
      out := out + [Sym(REP_3_6, count - 3)];
    } else if count <= 10 {
      SendSym(w, code, len, Sym(REPZ_3_10, count - 3), out, before);
      out := out + [Sym(REPZ_3_10, count - 3)];
    } else {
      SendSym(w, code, len, Sym(REPZ_11_138, count - 11), out, before);
      out := out + [Sym(REPZ_11_138, count - 11)];
    }
    assert out == all;
  }

  lemma NothingSent(before: seq<bool>, book: Code)
    ensures before == before + SymsBits([], book)
  {
  }

  /** The symbols of a run, and that each can be sent. */
  lemma EmitSends(cur: nat, prevlen: int, count: nat, min: nat, book: Code)
    requires 1 <= count && 3 <= min && (cur != 0 && cur != prevlen ==> min == 4)
    requires Sendable(Emit(cur, prevlen, count, min), book)
    ensures var e := Emit(cur, prevlen, count, min);
            if count < min then e == seq(count, i => Sym(cur, 0)) && Fits(Sym(cur, 0)) && book.Has(cur)
            else if cur != 0 && cur != prevlen then
              && count >= 4 && e == [Sym(cur, 0), Sym(REP_3_6, count - 4)] && Fits(Sym(cur, 0)) && book.Has(cur)
              && Fits(Sym(REP_3_6, count - 4)) && book.Has(REP_3_6)
            else if cur != 0 then e == [Sym(REP_3_6, count - 3)] && Fits(Sym(REP_3_6, count - 3)) && book.Has(REP_3_6)
            else if count <= 10 then
              e == [Sym(REPZ_3_10, count - 3)] && Fits(Sym(REPZ_3_10, count - 3)) && book.Has(REPZ_3_10)
            else count >= 11 && e == [Sym(REPZ_11_138, count - 11)] && Fits(Sym(REPZ_11_138, count - 11)) && book.Has(REPZ_11_138)
  {
    var e := Emit(cur, prevlen, count, min);
    assert e[0] in e && e[|e| - 1] in e;
  }

  /** One run of the loop of send_tree: `out` has been sent, `rest` is still to come. */
  method SendNext(w: BitWriter, code: array<nat>, len: array<nat>, curlen: nat, prevlen: int, count: nat, minCount: nat,
                  ghost out: seq<Sym>, ghost rest: seq<Sym>, ghost before: seq<bool>) returns (ghost out': seq<Sym>)
    requires 1 <= count && 3 <= minCount && (curlen != 0 && curlen != prevlen ==> minCount == 4)
    requires Sendable(out + (Emit(curlen, prevlen, count, minCount) + rest), Code(code[..], len[..]))
    requires w.Valid() && w.Bits() == before + SymsBits(out, Code(code[..], len[..]))
    modifies w
    ensures out' == out + Emit(curlen, prevlen, count, minCount)
    ensures out' + rest == out + (Emit(curlen, prevlen, count, minCount) + rest)
    ensures w.Valid() && w.Bits() == before + SymsBits(out', Code(code[..], len[..]))
  {
    hide *;
    ghost var book, run := Code(code[..], len[..]), Emit(curlen, prevlen, count, minCount);
    SendableRun(out, run, rest, book);
    SymsBitsConcat(out, run, book);
    SendRun(w, code, len, curlen, prevlen, count, minCount);
    Joined(before, SymsBits(out, book), SymsBits(run, book), []);
    out' := out + run;
    assert SymsBits(run, book) + [] == SymsBits(run, book);
  }

  /** send_tree */
  method SendTree(w: BitWriter, code: array<nat>, len: array<nat>, tree: array<nat>, maxCode: nat)
    requires maxCode + 1 < tree.Length && Guarded(tree[..maxCode + 2])
    requires w.Valid() && Sendable(Send(tree[..maxCode + 2], 0, -1, 0), Code(code[..], len[..]))
    modifies w
    ensures w.Valid() && w.Bits() == old(w.Bits()) + SymsBits(Send(tree[..maxCode + 2], 0, -1, 0), Code(code[..], len[..]))
  {
    hide Send, Sendable, SymsBits, w.Valid, w.Bits;
    ghost var lens := tree[..maxCode + 2];
    ghost var book, before := Code(code[..], len[..]), w.Bits();
    ghost var out: seq<Sym> := [];
    NothingSent(before, book);
    hide *;
    var prevlen: int := -1;
    var nextlen := tree[0];
    var count: nat, maxCount: nat, minCount: nat := 0, 7, 4;
    if nextlen == 0 {
      maxCount, minCount := 138, 3;
    }
    FirstLimits(nextlen);
    assert out + Send(lens, 0, -1, 0) == Send(lens, 0, -1, 0);
    var n: nat := 0;
    while n <= maxCode
      invariant 0 <= n <= maxCode + 1 && nextlen == lens[n]
      invariant n <= maxCode ==> Limits(maxCount, minCount) == LimitsFor(prevlen, nextlen)
      invariant Send(lens, 0, -1, 0) == out + Send(lens, n, prevlen, count)
      invariant book == Code(code[..], len[..]) && lens == tree[..maxCode + 2]
      invariant w.Valid() && w.Bits() == before + SymsBits(out, book)
    {
      SendUnfold(lens, n, prevlen, count);
      var curlen := nextlen;
      nextlen := tree[n + 1];
      count := count + 1;
      if count < maxCount && curlen == nextlen {
        n := n + 1;
        continue;
      }
      ghost var rest := Send(lens, n + 1, curlen, 0);
      out := SendNext(w, code, len, curlen, prevlen, count, minCount, out, rest, before);
      count := 0;
      prevlen := curlen;
      maxCount, minCount := NewLimits(curlen, nextlen);
      n := n + 1;
    }
    SendUnfold(lens, n, prevlen, count);
    assert out + [] == out;
  }

  lemma FirstLimits(cur: nat)
    ensures LimitsFor(-1, cur) == if cur == 0 then Limits(138, 3) else Limits(7, 4)
  {
  }

  /** One step of the loops of scan_tree and send_tree. */
  lemma SendUnfold(lens: seq<nat>, n: nat, prevlen: int, count: nat)
    requires n < |lens|
    ensures n + 1 == |lens| ==> Send(lens, n, prevlen, count) == []
    ensures n + 1 < |lens| ==>
              var l := LimitsFor(prevlen, lens[n]);
              && l.min >= 3 && (lens[n] != 0 && lens[n] != prevlen ==> l.min == 4)
              && Send(lens, n, prevlen, count) ==
                   if count + 1 < l.max && lens[n] == lens[n + 1] then Send(lens, n + 1, prevlen, count + 1)
                   else Emit(lens[n], prevlen, count + 1, l.min) + Send(lens, n + 1, lens[n], 0)
  {
  }

  lemma SendableRun(out: seq<Sym>, run: seq<Sym>, rest: seq<Sym>, book: Code)
    requires Sendable(out + (run + rest), book)
    ensures Sendable(run, book)
  {
    forall s | s in run
      ensures Fits(s) && book.Has(s.code)
    {
      assert s in run + rest;
      assert s in out + (run + rest);
    }
  }

  method NewLimits(curlen: nat, nextlen: nat) returns (maxCount: nat, minCount: nat)
    ensures Limits(maxCount, minCount) == LimitsFor(curlen, nextlen)
  {
    if nextlen == 0 {
      maxCount, minCount := 138, 3;
    } else if curlen == nextlen {
      maxCount, minCount := 6, 3;
    } else {
      maxCount, minCount := 7, 4;
    }
  }

  /** How often a code occurs among the symbols. */
  function Count(syms: seq<Sym>, code: nat): nat {
    if syms == [] then 0 else (if syms[0].code == code then 1 else 0) + Count(syms[1..], code)
  }

  lemma {:induction false} CountConcat(a: seq<Sym>, b: seq<Sym>, code: nat)
    ensures Count(a + b, code) == Count(a, code) + Count(b, code)
    decreases |a|
  {
    if a == [] {
      assert a + b == b;
    } else {
      assert (a + b)[1..] == a[1..] + b;
      CountConcat(a[1..], b, code);
    }
  }

  /** What one run adds to the frequency of each code. */
  lemma CountEmit(cur: nat, prevlen: int, count: nat, min: nat, code: nat)
    requires 1 <= count && 3 <= min
    ensures Count(Emit(cur, prevlen, count, min), code) ==
            if count < min then (if code == cur then count else 0)
            else if cur != 0 then
              (if cur != prevlen && code == cur then 1 else 0) + (if code == REP_3_6 then 1 else 0)
            else if count <= 10 then (if code == REPZ_3_10 then 1 else 0)
            else (if code == REPZ_11_138 then 1 else 0)
  {
    if count < min {
      CountSame(cur, count, code);
    } else {
      var e := Emit(cur, prevlen, count, min);
      assert Count([], code) == 0;
      assert |e| == 2 ==> e[1..] == [e[1]];
      assert e[|e| - 1..] == [e[|e| - 1]] && [e[|e| - 1]][1..] == [];
    }
  }

  lemma {:induction false} CountSame(cur: nat, count: nat, code: nat)
    ensures Count(seq(count, i => Sym(cur, 0)), code) == if code == cur then count else 0
    decreases count
  {
    if count > 0 {
      assert seq(count, i => Sym(cur, 0))[1..] == seq(count - 1, i => Sym(cur, 0));
      CountSame(cur, count - 1, code);
    }
  }

  /** The tally of one run. */
  method TallyRun(freq: array<nat>, curlen: nat, prevlen: int, count: nat, minCount: nat)
    requires freq.Length >= BL_CODES && curlen <= 15 && 1 <= count && 3 <= minCount
    modifies freq
    ensures forall c :: 0 <= c < BL_CODES ==>
              freq[c] == old(freq[c]) + Count(Emit(curlen, prevlen, count, minCount), c)
  {
    forall c | 0 <= c < BL_CODES
      ensures Count(Emit(curlen, prevlen, count, minCount), c) ==
              if count < minCount then (if c == curlen then count else 0)
              else if curlen != 0 then
                (if curlen != prevlen && c == curlen then 1 else 0) + (if c == REP_3_6 then 1 else 0)
              else if count <= 10 then (if c == REPZ_3_10 then 1 else 0)
              else (if c == REPZ_11_138 then 1 else 0)
    {
      CountEmit(curlen, prevlen, count, minCount, c);
    }
    hide Count, Emit;
    if count < minCount {
      freq[curlen] := freq[curlen] + count;
    } else if curlen != 0 {
      if curlen != prevlen {
        freq[curlen] := freq[curlen] + 1;
      }
      freq[REP_3_6] := freq[REP_3_6] + 1;
    } else if count <= 10 {
      freq[REPZ_3_10] := freq[REPZ_3_10] + 1;
    } else {
      freq[REPZ_11_138] := freq[REPZ_11_138] + 1;
    }
  }

  /** scan_tree: set the guard and count exactly the symbols that send_tree will send. */
  method ScanTree(tree: array<nat>, maxCode: nat, freq: array<nat>)
    requires maxCode + 1 < tree.Length && freq.Length >= BL_CODES && freq != tree
    requires forall i :: 0 <= i <= maxCode ==> tree[i] <= 15
    modifies tree, freq
    ensures tree[..] == old(tree[..])[maxCode + 1 := GUARD] && Guarded(tree[..maxCode + 2])
    ensures forall c :: 0 <= c < BL_CODES ==> freq[c] == old(freq[c]) + Count(Send(tree[..maxCode + 2], 0, -1, 0), c)
  {
    var prevlen: int := -1;
    var nextlen := tree[0];
    var count: nat, maxCount: nat, minCount: nat := 0, 7, 4;
    if nextlen == 0 {
      maxCount, minCount := 138, 3;
    }
    ghost var before := tree[..];
    tree[maxCode + 1] := GUARD;
    assert tree[..] == before[maxCode + 1 := GUARD];
    ghost var lens := tree[..maxCode + 2];
    hide Emit, Count;
    var n := 0;
    ghost var done: seq<Sym> := [];
    CountNone();
    while n <= maxCode
      invariant 0 <= n <= maxCode + 1 && nextlen == lens[n]
      invariant n <= maxCode ==> Limits(maxCount, minCount) == LimitsFor(prevlen, nextlen)
      invariant Send(lens, 0, -1, 0) == done + Send(lens, n, prevlen, count)
      invariant forall c :: 0 <= c < BL_CODES ==> freq[c] == old(freq[c]) + Count(done, c)
      modifies freq
    {
      var curlen := nextlen;
      nextlen := tree[n + 1];
      count := count + 1;
      if count < maxCount && curlen == nextlen {
        n := n + 1;
        continue;
      }
      TallyRun(freq, curlen, prevlen, count, minCount);
      ghost var run := Emit(curlen, prevlen, count, minCount);
      forall c | 0 <= c < BL_CODES
        ensures Count(done + run, c) == Count(done, c) + Count(run, c)
      {
        CountConcat(done, run, c);
      }
      assert done + (run + Send(lens, n + 1, curlen, 0)) == (done + run) + Send(lens, n + 1, curlen, 0);
      done := done + run;
      count := 0;
      prevlen := curlen;
      maxCount, minCount := NewLimits(curlen, nextlen);
      n := n + 1;
    }
    assert done + [] == done && Send(lens, n, prevlen, count) == [];
    assert tree[..maxCode + 2] == lens;
  }

  lemma CountNone()
    ensures forall c :: Count([], c) == 0
  {
  }
}
