/**
 The 32-bit accumulator through which BSD Compress moves codes in and out of bytes:
 `accm` holds the pending bits at its top, and `bitno` is the number of the lowest of them.
 Where the source ors shifted values together the operands have no bit in common, so the
 model adds them.
 */
module Accumulator {
  import opened Arith
  import opened Bits
  import opened BsdCoder

  /** accm holds exactly the bits b, in its positions 31 down to bitno. */
  ghost predicate Holds(accm: nat, bitno: nat, b: seq<bool>) {
    && bitno <= 32 && |b| == 32 - bitno
    && accm == FromBits(b) * Pow2(bitno)
  }

  lemma {:induction false} FromBitsConcat(a: seq<bool>, b: seq<bool>)
    ensures FromBits(a + b) == FromBits(a) * Pow2(|b|) + FromBits(b)
    decreases |b|
  {
    if b == [] {
      assert a + b == a;
    } else {
      var front, last := b[..|b| - 1], if b[|b| - 1] then 1 else 0;
      FromBitsConcat(a, front);
      assert (a + b)[..|a + b| - 1] == a + front;
      MulAssoc(2, FromBits(a), Pow2(|front|));
    }
  }

  /** Or-ing x, shifted just below the pending bits, appends its w bits. */
  lemma PutBottom(accm: nat, bitno: nat, b: seq<bool>, x: nat, w: nat)
    requires Holds(accm, bitno, b) && w <= bitno && x < Pow2(w)
    ensures Holds(accm + x * Pow2(bitno - w), bitno - w, b + ToBits(x, w))
  {
    FromToBits(x, w);
    FromBitsConcat(b, ToBits(x, w));
    Pow2Add(w, bitno - w);
    hide Pow2, FromBits, ToBits;
    var v, a, p := FromBits(b), Pow2(w), Pow2(bitno - w);
    var accm' := accm + x * p;
    assert accm == v * (a * p) && FromBits(b + ToBits(x, w)) == v * a + x;
    assert accm' == (v * a + x) * p by { Spread(v, a, x, p); }
  }

  lemma Spread(v: nat, a: nat, x: nat, p: nat)
    ensures (v * a + x) * p == v * (a * p) + x * p
  {
    MulAdd(p, v * a, x);
    MulAssoc(v, a, p);
  }

  /** The top n bits of accm are the first n pending bits; shifting left drops them. */
  lemma TakeTop(accm: nat, bitno: nat, b: seq<bool>, n: nat)
    requires Holds(accm, bitno, b) && n <= |b|
    ensures accm / Pow2(32 - n) == FromBits(b[..n]) < Pow2(n)
    ensures Holds(accm * Pow2(n) % WORD, bitno + n, b[n..])
  {
    hide Pow2, FromBits, ToBits;
    var hi, lo := b[..n], b[n..];
    assert b == hi + lo;
    ToFromBits(hi);
    ToFromBits(lo);
    FromBitsConcat(hi, lo);
    var h, l, p := FromBits(hi), FromBits(lo), Pow2(bitno);
    Split(h, l, n, |lo|, bitno);
    assert accm == (h * Pow2(|lo|) + l) * p;
  }

  /** An n-bit h above an m-bit l above k zero bits fills a word. */
  lemma Split(h: nat, l: nat, n: nat, m: nat, k: nat)
    requires l < Pow2(m) && n + m + k == 32
    ensures var x := (h * Pow2(m) + l) * Pow2(k);
            x / Pow2(32 - n) == h && x * Pow2(n) % WORD == l * Pow2(k + n)
  {
    Pow2Values();
    Pow2Add(m, k);
    Pow2Add(n, m + k);
    Pow2Add(k, n);
    assert m + k == 32 - n && n + (m + k) == 32;
    hide Pow2;
    SplitProduct(h, l, Pow2(m), Pow2(k), Pow2(n));
  }

  lemma SplitProduct(h: nat, l: nat, a: nat, b: nat, c: nat)
    requires l < a && b > 0 && c > 0
    ensures var x, q := (h * a + l) * b, a * b;
            q > 0 && c * q > 0 && x / q == h && (x * c) % (c * q) == l * (b * c)
  {
    var x, q := (h * a + l) * b, a * b;
    MulLess(l, a, b);
    assert x == h * q + l * b by {
      MulAdd(b, h * a, l);
      MulAssoc(h, a, b);
    }
    DivModUnique(x, q, h, l * b);
    MulLess(l * b, q, c);
    assert l * b * c == l * (b * c) by { MulAssoc(l, b, c); }
    assert x * c == h * (c * q) + l * b * c by {
      MulAdd(c, h * q, l * b);
      MulAssoc(h, q, c);
      assert q * c == c * q;
    }
    DivModUnique(x * c, c * q, h, l * b * c);
  }

  lemma {:induction false} BytesToBitsInjective(s: seq<byte>, t: seq<byte>)
    requires BytesToBits(s) == BytesToBits(t)
    ensures s == t
  {
    assert |s| == |t|;
    if s != [] {
      var s', t' := s[..|s| - 1], t[..|t| - 1];
      var x, y := s[|s| - 1], t[|t| - 1];
      assert BytesToBits(s') == BytesToBits(s)[..8 * |s'|] == BytesToBits(t') by {
        assert BytesToBits(t)[..8 * |t'|] == BytesToBits(t');
      }
      assert ToBits(x, 8) == BytesToBits(s)[8 * |s'|..] == ToBits(y, 8) by {
        assert BytesToBits(t)[8 * |t'|..] == ToBits(y, 8);
      }
      assert Pow2(8) == 256;
      FromToBits(x, 8);
      FromToBits(y, 8);
      BytesToBitsInjective(s', t');
      assert s == s' + [x] && t == t' + [y];
    }
  }

  lemma BytesSnoc(bytes: seq<byte>, v: byte)
    ensures BytesToBits([]) == []
    ensures BytesToBits(bytes + [v]) == BytesToBits(bytes) + ToBits(v, 8)
  {
    assert (bytes + [v])[..|bytes|] == bytes;
  }

  /** What is written once the packet ends: whole bytes, the last one filled with ones. */
  lemma PackUnique(sent: seq<byte>, last: seq<byte>, pending: seq<bool>, bits: seq<bool>)
    requires BytesToBits(sent) + pending == bits && |pending| < 8
    requires |last| == (if pending == [] then 0 else 1) && BytesToBits(last) == pending + Ones(8 * |last| - |pending|)
    ensures Pack(bits) == sent + last
  {
    hide BytesToBits, Pack;
    PackBits(bits);
    BytesToBitsConcat(sent, last);
    var pad := 8 * |last| - |pending|;
    assert BytesToBits(sent + last) == BytesToBits(sent) + (pending + Ones(pad)) == bits + Ones(pad);
    assert |bits| == 8 * |sent| + |pending|;
    BytesToBitsInjective(sent + last, Pack(bits));
  }

  /** Or-ing ones below the pending bits and taking the top byte fills that byte. */
  lemma FilledByte(accm: nat, bitno: nat, pending: seq<bool>)
    requires Holds(accm, bitno, pending) && 24 < bitno < 32
    ensures var v := (accm + 255 * Pow2(bitno - 8)) / 0x100_0000;
            v < 256 && BytesToBits([v]) == pending + Ones(8 - |pending|)
  {
    var n := bitno - 24;
    OnesBits(n);
    Pow2Values();
    hide *;
    HoldsSize(accm, bitno, pending);
    PutBottom(accm, bitno, pending, Pow2(n) - 1, n);
    TakeTop(accm + (Pow2(n) - 1) * Pow2(24), 24, pending + Ones(n), 8);
    var full := pending + Ones(n);
    assert full[..8] == full;
    ToFromBits(full);
    FillArithmetic(FromBits(pending), n);
    assert [FromBits(full)] == [] + [FromBits(full)];
    BytesSnoc([], FromBits(full));
  }

  lemma {:induction false} OnesBits(n: nat)
    ensures ToBits(Pow2(n) - 1, n) == Ones(n)
  {
    if n > 0 {
      OnesBits(n - 1);
      var p: nat := Pow2(n - 1);
      Odd(p);
      assert ToBits(2 * p - 1, n) == ToBits(p - 1, n - 1) + [true];
    }
  }

  lemma Odd(p: nat)
    requires p > 0
    ensures (2 * p - 1) / 2 == p - 1 && (2 * p - 1) % 2 == 1
  {
  }

  lemma HoldsSize(accm: nat, bitno: nat, b: seq<bool>)
    requires Holds(accm, bitno, b)
    ensures |b| == 32 - bitno && accm == FromBits(b) * Pow2(bitno)
  {
  }

  /** The shifted-in ones reach down to bitno - 8, but only those above bit 24 matter. */
  lemma FillArithmetic(v: nat, n: nat)
    requires 0 < n < 8
    ensures var accm := v * Pow2(n + 24);
            (accm + 255 * Pow2(n + 16)) / 0x100_0000 == (accm + (Pow2(n) - 1) * 0x100_0000) / 0x100_0000
  {
    Pow2Values();
    Pow2Add(n, 24);
    Pow2Add(n, 16);
    var p := Pow2(n);
    assert 1 <= p <= 128 by { Pow2Monotone(n, 7); }
    hide Pow2;
    MulAssoc(v, p, 0x100_0000);
    DivModUnique(v * p * 0x100_0000 + 255 * p * 65536, 0x100_0000, v * p + p - 1, 0x100_0000 - p * 65536);
    DivModUnique(v * p * 0x100_0000 + (p - 1) * 0x100_0000, 0x100_0000, v * p + p - 1, 0);
  }

  /** The local variables of bsd_compress that the OUTPUT and PUTBYTE macros update. */
  class Writer {
    const header: seq<byte>
    const room: int  // space in the message, header included
    var accm: nat
    var bitno: nat
    var wptr: seq<byte>  // the message so far
    var olen: nat  // bytes written or dropped for lack of room, header excluded

    ghost var sent: seq<byte>
    ghost var pending: seq<bool>
    ghost var bits: seq<bool>  // everything output so far

    ghost predicate Valid()
      reads this
    {
      && Holds(accm, bitno, pending) && 24 < bitno
      && Counted()
    }

    ghost predicate Counted()
      reads this
    {
      && olen == |sent| && BytesToBits(sent) + pending == bits
      && (|header| + |sent| <= room ==> wptr == header + sent)
    }

    constructor (header: seq<byte>, room: int)
      ensures Valid() && bits == [] && this.header == header && this.room == room
    {
      this.header, this.room := header, room;
      accm, bitno, wptr, olen := 0, 32, header, 0;
      sent, pending, bits := [], [], [];
      new;
      BytesSnoc([], 0);
    }

    /** PUTBYTE: store the byte if there is room, count it anyway. */
    method PutByte(v: byte)
      requires Counted() && 8 <= |pending| && ToBits(v, 8) == pending[..8]
      modifies this`wptr, this`olen, this`sent, this`pending
      ensures Counted() && sent == old(sent) + [v] && pending == old(pending)[8..]
    {
      hide BytesToBits, ToBits;
      if |wptr| < room {
        wptr := wptr + [v];
      }
      olen := olen + 1;
      BytesSnoc(sent, v);
      assert BytesToBits(sent) + pending == (BytesToBits(sent) + pending[..8]) + pending[8..];
      sent, pending := sent + [v], pending[8..];
    }

    /** OUTPUT: append the low n bits of ent, then give away whole bytes. */
    method Output(ent: nat, nBits: nat)
      requires Valid() && 9 <= nBits <= 15 && ent < Pow2(nBits)
      modifies this
      ensures Valid() && bits == old(bits) + ToBits(ent, nBits)
    {
      hide Pow2, FromBits, ToBits, BytesToBits;
      PutBottom(accm, bitno, pending, ent, nBits);
      bitno := bitno - nBits;
      accm := accm + ent * Pow2(bitno);
      assert BytesToBits(sent) + (pending + ToBits(ent, nBits)) == bits + ToBits(ent, nBits);
      bits, pending := bits + ToBits(ent, nBits), pending + ToBits(ent, nBits);
      while bitno <= 24
        invariant bitno <= 32 && Holds(accm, bitno, pending) && Counted()
        invariant bits == old(bits) + ToBits(ent, nBits)
        decreases 32 - bitno
      {
        TakeTop(accm, bitno, pending, 8);
        Pow2Values();
        ToFromBits(pending[..8]);
        PutByte(accm / 0x100_0000);
        accm := accm * 256 % WORD;
        bitno := bitno + 8;
      }
    }

    lemma PendingShort()
      requires Valid()
      ensures (|bits| + 7) / 8 == if bitno < 32 then olen + 1 else olen
    {
    }

    /** Pad the dribble bits of the last code with ones. */
    method Finish()
      requires Valid()
      modifies this
      ensures olen == |Pack(bits)| && bits == old(bits)
      ensures |header| + olen <= room ==> wptr == header + Pack(bits)
    {
      hide Pow2, FromBits, ToBits, BytesToBits, Pack;
      if bitno != 32 {
        FilledByte(accm, bitno, pending);
        var v: byte := (accm + 255 * Pow2(bitno - 8)) / 0x100_0000;
        PackUnique(sent, [v], pending, bits);
        if |wptr| < room {
          wptr := wptr + [v];
        }
        olen := olen + 1;
      } else {
        BytesSnoc([], 0);
        PackUnique(sent, [], pending, bits);
      }
    }
  }
}
