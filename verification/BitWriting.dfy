/** The bit buffer of deflate: send_bits, bi_flush and bi_windup over a 16-bit word. */
module BitWriting {
  import opened Arith
  import opened Bits
  import opened BitOrder

  /** Buf_size */
  const BUF_SIZE: nat := 16

  /** The bits of a byte string, each byte least significant bit first. */
  function ByteBits(s: seq<byte>): (b: seq<bool>)
    ensures |b| == 8 * |s|
  {
    if s == [] then [] else ByteBits(s[..|s| - 1]) + LowBits(s[|s| - 1], 8)
  }

  lemma {:induction false} ByteBitsConcat(s: seq<byte>, t: seq<byte>)
    ensures ByteBits(s + t) == ByteBits(s) + ByteBits(t)
    decreases |t|
  {
    if t == [] {
      assert s + t == s && ByteBits(s) + [] == ByteBits(s);
    } else {
      ByteBitsConcat(s, t[..|t| - 1]);
      assert (s + t)[..|s + t| - 1] == s + t[..|t| - 1];
      var last := LowBits(t[|t| - 1], 8);
      assert (ByteBits(s) + ByteBits(t[..|t| - 1])) + last == ByteBits(s) + (ByteBits(t[..|t| - 1]) + last);
    }
  }

  lemma ByteBitsPut(s: seq<byte>, x: byte)
    ensures ByteBits(s + [x]) == ByteBits(s) + LowBits(x, 8)
  {
    assert (s + [x])[..|s|] == s;
  }

  /** A 16-bit word splits into its low and its high byte. */
  lemma ShortBits(v: nat)
    requires v < 0x1_0000
    ensures LowBits(v, 16) == LowBits(v % 256, 8) + LowBits(v / 256, 8)
  {
    hide LowBits;
    Pow2Values();
    LowBitsConcat(v % 256, 8, v / 256, 8);
  }

  /** The word after or-ing in a value above the valid bits, which are disjoint, cut to 16 bits. */
  function Merged(buf: nat, valid: nat, value: nat): nat {
    (buf + value * Pow2(valid)) % 0x1_0000
  }

  lemma MergedLow(buf: nat, valid: nat, value: nat)
    ensures Merged(buf, valid, value) == Low(buf + value * Pow2(valid), 16) < 0x1_0000
  {
    Pow2Values();
  }

  /** When the value does not fit, 16 bits leave and the rest of the value stays. */
  lemma Overflowing(buf: nat, valid: nat, value: nat, length: nat)
    requires valid <= 16 && buf < Pow2(valid) && value < Pow2(length) && valid + length > 16
    ensures LowBits(buf, valid) + LowBits(value, length)
         == LowBits(Merged(buf, valid, value), 16) + LowBits(High(value, 16 - valid), valid + length - 16)
    ensures High(value, 16 - valid) < Pow2(valid + length - 16)
  {
    hide LowBits, Pow2, High, Low, Merged;
    var all := buf + value * Pow2(valid);
    LowBitsConcat(buf, valid, value, length);
    SplitBits(all, 16, valid + length - 16);
    MergedLow(buf, valid, value);
    DropLow(buf, valid, value, 16 - valid);
    HighBelow(value, 16 - valid, valid + length - 16);
  }

  lemma DropLow(buf: nat, n: nat, value: nat, m: nat)
    requires buf < Pow2(n)
    ensures High(buf + value * Pow2(n), n + m) == High(value, m)
  {
    hide High, Low, Pow2;
    HighLow(value, m);
    Pow2Add(n, m);
    var h, l := High(value, m), Low(value, m);
    Stacked(buf, l, h, Pow2(n), Pow2(m));
    HighLowUnique(buf + l * Pow2(n), h, n + m);
  }

  lemma Stacked(b: nat, l: nat, h: nat, p: nat, q: nat)
    requires b < p && l < q
    ensures b + l * p < p * q && b + (l + h * q) * p == (b + l * p) + h * (p * q)
  {
    MulAdd(p, l, h * q);
    MulAssoc(h, q, p);
    MulLe(l + 1, p, q, p);
    MulAdd(p, l, 1);
  }

  /** When it fits, it goes on top. */
  lemma Fitting(buf: nat, valid: nat, value: nat, length: nat)
    requires buf < Pow2(valid) && value < Pow2(length) && valid + length <= 16
    ensures Merged(buf, valid, value) < Pow2(valid + length)
    ensures LowBits(Merged(buf, valid, value), valid + length) == LowBits(buf, valid) + LowBits(value, length)
  {
    hide LowBits, Pow2;
    LowBitsConcat(buf, valid, value, length);
    Pow2Add(valid, length);
    Pow2Monotone(valid + length, 16);
    PowWord();
    Stacked(buf, value, 0, Pow2(valid), Pow2(length));
    Below(buf + value * Pow2(valid));
  }

  lemma PowWord()
    ensures Pow2(16) == 0x1_0000
  {
    Pow2Values();
  }

  lemma Below(v: nat)
    ensures v < 0x1_0000 ==> v % 0x1_0000 == v
  {
  }

  lemma LowByte(v: nat)
    ensures Low(v, 8) == v % 256 && High(v, 8) == v / 256
  {
    Pow2Values();
  }

  lemma Regroup(done: seq<bool>, a: seq<bool>, b: seq<bool>, c: seq<bool>, d: seq<bool>)
    requires a + b == c + d
    ensures (done + a) + b == (done + c) + d
  {
    assert (done + a) + b == done + (a + b);
    assert (done + c) + d == done + (c + d);
  }

  class BitWriter {
    var pending: seq<byte>
    var biBuf: nat
    var biValid: nat

    ghost predicate Valid()
      reads this
    {
      biValid <= 16 && biBuf < Pow2(biValid)
    }

    /** Everything sent so far. */
    ghost function Bits(): seq<bool>
      reads this
    {
      ByteBits(pending) + LowBits(biBuf, biValid)
    }

    constructor ()
      ensures Valid() && Bits() == []
    {
      pending, biBuf, biValid := [], 0, 0;
    }

    method PutShort(w: nat)
      requires w < 0x1_0000
      modifies this`pending
      ensures ByteBits(pending) == ByteBits(old(pending)) + LowBits(w, 16)
    {
      hide ByteBits, LowBits;
      ByteBitsPut(pending, w % 256);
      ByteBitsPut(pending + [w % 256], w / 256);
      ShortBits(w);
      pending := pending + [w % 256];
      pending := pending + [w / 256];
    }

    /** send_bits: `length` bits of value, least significant first. */
    method SendBits(value: nat, length: nat)
      requires Valid() && 1 <= length <= 16 && value < Pow2(length)
      modifies this
      ensures Valid() && Bits() == old(Bits()) + LowBits(value, length)
    {
      hide LowBits, ByteBits, Merged, Pow2, High;
      if biValid > BUF_SIZE - length {
        ghost var done, top := ByteBits(pending), LowBits(biBuf, biValid);
        Overflowing(biBuf, biValid, value, length);
        MergedLow(biBuf, biValid, value);
        biBuf := Merged(biBuf, biValid, value);
        ghost var word := LowBits(biBuf, 16);
        PutShort(biBuf);
        biBuf := High(value, BUF_SIZE - biValid);
        biValid := biValid + length - BUF_SIZE;
        Regroup(done, top, LowBits(value, length), word, LowBits(biBuf, biValid));
      } else {
        Fitting(biBuf, biValid, value, length);
        biBuf := Merged(biBuf, biValid, value);
        biValid := biValid + length;
      }
    }

    /** bi_flush: whole bytes leave, fewer than 9 bits stay. */
    method BiFlush()
      requires Valid()
      modifies this
      ensures Valid() && Bits() == old(Bits()) && biValid < 8
    {
      Pow2Values();
      if biValid == 16 {
        PutShort(biBuf);
        biBuf, biValid := 0, 0;
      } else if biValid >= 8 {
        PutLowByte();
      }
    }

    method PutLowByte()
      requires Valid() && 8 <= biValid < 16
      modifies this
      ensures Valid() && Bits() == old(Bits()) && biValid == old(biValid) - 8
    {
      hide LowBits, ByteBits, Pow2, High, Low;
      ghost var done, all := ByteBits(pending), LowBits(biBuf, biValid);
      SplitBits(biBuf, 8, biValid - 8);
      HighBelow(biBuf, 8, biValid - 8);
      LowByte(biBuf);
      ByteBitsPut(pending, biBuf % 256);
      pending := pending + [biBuf % 256];
      Regroup(done, all, [], LowBits(biBuf % 256, 8), LowBits(biBuf / 256, biValid - 8));
      assert (done + all) + [] == done + all;
      biBuf := biBuf / 256;
      biValid := biValid - 8;
    }

    /** bi_windup: the last byte is filled with zero bits. */
    method BiWindup()
      requires Valid()
      modifies this
      ensures Valid() && biValid == 0 && |Bits()| % 8 == 0 && |Bits()| < |old(Bits())| + 8
      ensures old(Bits()) <= Bits() && forall i :: |old(Bits())| <= i < |Bits()| ==> !Bits()[i]
    {
      hide LowBits, ByteBits, Pow2;
      ghost var done, top := ByteBits(pending), LowBits(biBuf, biValid);
      WholeBytes(pending);
      Nothing();
      if biValid > 8 {
        Padded(biBuf, biValid, 16);
        PutShort(biBuf);
        WindupEnds(done, top, LowBits(biBuf, 16));
      } else if biValid > 0 {
        Padded(biBuf, biValid, 8);
        ByteBitsPut(pending, biBuf);
        pending := pending + [biBuf];
        WindupEnds(done, top, LowBits(biBuf, 8));
      }
      biBuf, biValid := 0, 0;
      assert ByteBits(pending) + [] == ByteBits(pending);
    }

    lemma WholeBytes(s: seq<byte>)
      ensures |ByteBits(s)| % 8 == 0
    {
    }

    lemma Nothing()
      ensures LowBits(0, 0) == [] && forall v :: LowBits(v, 0) == []
      ensures 0 < Pow2(0)
    {
    }

    lemma WindupEnds(done: seq<bool>, top: seq<bool>, all: seq<bool>)
      requires top <= all && forall i :: |top| <= i < |all| ==> !all[i]
      ensures done + top <= done + all && forall i :: |done + top| <= i < |done + all| ==> !(done + all)[i]
    {
    }

    lemma Padded(v: nat, n: nat, m: nat)
      requires v < Pow2(n) && n <= m <= 16
      ensures LowBits(v, n) <= LowBits(v, m) && forall i :: n <= i < m ==> !LowBits(v, m)[i]
      ensures v < 0x1_0000 && (m == 8 ==> v < 256)
    {
      Pow2Monotone(n, m);
      Pow2Monotone(m, 16);
      Pow2Values();
      LowBitsConcat(v, n, 0, m - n);
      Zeros(m - n);
    }

    lemma {:induction false} Zeros(n: nat)
      ensures forall i :: 0 <= i < n ==> !LowBits(0, n)[i]
    {
      if n > 0 {
        Zeros(n - 1);
      }
    }
  }
}
