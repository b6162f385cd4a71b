/**
 Streaming MD5 (RFC 1321): however a message is cut into pieces, the digest is that of the
 whole message, padded as section 3 asks.  What one block does to the state is left open.
 */
module Md5 {
  import opened Arith
  import opened Bits

  const WORD: nat := 0x1_0000_0000

  /** The block function, what the state is before any block, and how the digest is read from it. */
  datatype Core<!T> = Core(start: T, transform: (T, seq<byte>) -> T, output: T -> seq<byte>)

  // ----- the digest of a message

  /** The state after all whole blocks of the message. */
  function Blocks<T>(h: Core<T>, m: seq<byte>): T {
    if |m| < 64 then h.start
    else
      var n := (|m| / 64 - 1) * 64;
      h.transform(Blocks(h, m[..n]), m[n..n + 64])
  }

  function Zeros(n: nat): (z: seq<byte>)
    ensures |z| == n
  {
    seq(n, i => 0)
  }

  /** The 32-bit word, low byte first. */
  function Bytes4(w: nat): (b: seq<byte>)
    ensures |b| == 4
  {
    [w % 256, (w / 256) % 256, (w / 0x1_0000) % 256, (w / 0x100_0000) % 256]
  }

  /** The number of bits in 64 bits, low word first (section 3.2). */
  function Length64(bits: nat): (b: seq<byte>)
    ensures |b| == 8
  {
    Bytes4(bits % WORD) + Bytes4((bits / WORD) % WORD)
  }

  /** How many zeros make the message, the byte 0x80 and the zeros 56 bytes modulo 64 (section 3.1). */
  function PadZeros(n: nat): (z: nat)
    ensures z < 64 && (n + 1 + z) % 64 == 56
  {
    (119 - n % 64) % 64
  }

  function Padded(m: seq<byte>): (p: seq<byte>)
    ensures |p| % 64 == 0
  {
    m + [0x80] + Zeros(PadZeros(|m|)) + Length64(8 * |m|)
  }

  /** Byte by byte: the message, 0x80, zeros, and in the last eight bytes the number of bits modulo 2^64, low byte first; the
      length is the least multiple of 64 that holds all that. */
  lemma PaddedBytes(m: seq<byte>)
    ensures var p, n := Padded(m), |Padded(m)|;
            && n % 64 == 0 && |m| + 9 <= n < |m| + 9 + 64
            && p[..|m|] == m && p[|m|] == 0x80 && (forall i :: |m| < i < n - 8 ==> p[i] == 0)
            && (8 * |m|) % 0x1_0000_0000_0000_0000
            == (p[n - 8] as int) + (p[n - 7] as int) * 0x100 + (p[n - 6] as int) * 0x1_0000 + (p[n - 5] as int) * 0x100_0000
               + (p[n - 4] as int) * 0x1_0000_0000 + (p[n - 3] as int) * 0x100_0000_0000 + (p[n - 2] as int) * 0x1_0000_0000_0000
               + (p[n - 1] as int) * 0x100_0000_0000_0000
  {
    hide Length64, PadZeros;
    var p, n := Padded(m), |Padded(m)|;
    var end := Length64(8 * |m|);
    assert p[n - 8..] == end;
    LengthBytes(8 * |m|);
    assert p[n - 8] == end[0] && p[n - 7] == end[1] && p[n - 6] == end[2] && p[n - 5] == end[3];
    assert p[n - 4] == end[4] && p[n - 3] == end[5] && p[n - 2] == end[6] && p[n - 1] == end[7];
    hide Padded;
  }

  lemma LengthBytes(bits: nat)
    ensures var b := Length64(bits);
            && bits % 0x1_0000_0000_0000_0000
            == (b[0] as int) + (b[1] as int) * 0x100 + (b[2] as int) * 0x1_0000 + (b[3] as int) * 0x100_0000
            + (b[4] as int) * 0x1_0000_0000 + (b[5] as int) * 0x100_0000_0000 + (b[6] as int) * 0x1_0000_0000_0000
            + (b[7] as int) * 0x100_0000_0000_0000
  {
    var low, high := bits % WORD, (bits / WORD) % WORD;
    TwoWords(bits);
    FourBytes(low);
    FourBytes(high);
    hide Bytes4;
  }

  lemma TwoWords(bits: nat)
    ensures bits % 0x1_0000_0000_0000_0000 == bits % WORD + WORD * ((bits / WORD) % WORD)
  {
    var q := bits / WORD;
    assert bits == bits % WORD + WORD * q && q == q % WORD + WORD * (q / WORD);
    DivModUnique(bits, 0x1_0000_0000_0000_0000, q / WORD, bits % WORD + WORD * (q % WORD));
  }

  lemma FourBytes(w: nat)
    requires w < WORD
    ensures var b := Bytes4(w);
            w == (b[0] as int) + (b[1] as int) * 0x100 + (b[2] as int) * 0x1_0000 + (b[3] as int) * 0x100_0000
  {
    var x, y := w / 0x100, w / 0x1_0000;
    assert w == w % 0x100 + 0x100 * x && x / 0x100 == y && x == x % 0x100 + 0x100 * y;
    assert y == y % 0x100 + 0x100 * (y / 0x100) && y / 0x100 == w / 0x100_0000;
  }

  function Digest<T>(h: Core<T>, m: seq<byte>): seq<byte> {
    h.output(Blocks(h, Padded(m)))
  }

  // ----- blocks one after the other

  /** The bytes of the last, incomplete block. */
  function Tail(m: seq<byte>): (t: seq<byte>)
    ensures |t| == |m| % 64
  {
    m[|m| - |m| % 64..]
  }

  lemma OneBlock<T>(h: Core<T>, m: seq<byte>, x: seq<byte>)
    requires |Tail(m)| + |x| == 64
    ensures Blocks(h, m + x) == h.transform(Blocks(h, m), Tail(m) + x) && Tail(m + x) == []
  {
    hide Blocks;
    Cut(m, x);
    WholeBlocks(h, m);
    LastBlock(h, m + x, |m + x|);
    var n := |m| - |m| % 64;
    assert (m + x)[n..n + 64] == (m + x)[n..];
  }

  /** The rest of m and x, where they fill a block. */
  lemma Cut(m: seq<byte>, x: seq<byte>)
    requires |Tail(m)| + |x| == 64
    ensures var n := |m| - |m| % 64;
            && |m + x| == n + 64 && (m + x)[n..] == Tail(m) + x && (m + x)[..n] == m[..n] && |m + x| % 64 == 0
            && Tail(m + x) == []
  {
    var n := |m| - |m| % 64;
    assert m == m[..n] + m[n..];
    assert m + x == m[..n] + (m[n..] + x);
  }

  lemma LastBlock<T>(h: Core<T>, m: seq<byte>, n: nat)
    requires 64 <= n <= |m| < n + 64 && n % 64 == 0
    ensures Blocks(h, m) == h.transform(Blocks(h, m[..n - 64]), m[n - 64..n])
  {
    assert (|m| / 64 - 1) * 64 == n - 64;
  }

  lemma WholeBlocks<T>(h: Core<T>, m: seq<byte>)
    ensures Blocks(h, m) == Blocks(h, m[..|m| - |m| % 64])
  {
    hide Blocks;
    var n := |m| - |m| % 64;
    if |m| >= 64 {
      Rounded(|m|);
      LastBlock(h, m, n);
      LastBlock(h, m[..n], n);
      Nested(m, n);
    } else {
      ShortMessage(h, m);
      ShortMessage(h, m[..n]);
    }
  }

  lemma Rounded(n: nat)
    requires n >= 64
    ensures n - n % 64 >= 64 && (n - n % 64) % 64 == 0
  {
  }

  lemma ShortMessage<T>(h: Core<T>, m: seq<byte>)
    requires |m| < 64
    ensures Blocks(h, m) == h.start
  {
  }

  lemma Nested(m: seq<byte>, n: nat)
    requires 64 <= n <= |m|
    ensures m[..n][..n - 64] == m[..n - 64] && m[..n][n - 64..n] == m[n - 64..n]
  {
  }

  lemma NoBlock<T>(h: Core<T>, m: seq<byte>, x: seq<byte>)
    requires |Tail(m)| + |x| < 64
    ensures Blocks(h, m + x) == Blocks(h, m) && Tail(m + x) == Tail(m) + x
  {
    hide Blocks;
    var n := |m| - |m| % 64;
    CutNone(m, x);
    WholeBlocks(h, m);
    WholeBlocks(h, m + x);
  }

  lemma CutNone(m: seq<byte>, x: seq<byte>)
    requires |Tail(m)| + |x| < 64
    ensures var n := |m| - |m| % 64;
            |m + x| - |m + x| % 64 == n && (m + x)[..n] == m[..n] && Tail(m + x) == Tail(m) + x
  {
    var n := |m| - |m| % 64;
    Remainder(n, |m| % 64 + |x|);
  }

  lemma Remainder(n: nat, r: nat)
    requires n % 64 == 0 && r < 64
    ensures (n + r) % 64 == r
  {
  }

  /** The bit count in two words after len more bytes. */
  function NextBits(low: nat, high: nat, len: nat): (nat, nat) {
    var sum := (low + (len * 8) % WORD) % WORD;
    (sum, ((high + (if sum < low then 1 else 0)) % WORD + len / 0x2000_0000) % WORD)
  }

  /** The two words count the bits of n bytes, modulo 2^64. */
  predicate BitsOf(n: nat, low: nat, high: nat) {
    low == (8 * n) % WORD && high == (8 * n / WORD) % WORD
  }

  class Context<!T> {
    var buf: T
    var bits0: nat
    var bits1: nat
    const inp: array<byte>
    const h: Core<T>
    ghost var message: seq<byte>

    /** The state is that after the whole blocks of the message, the buffer begins with the rest of it, and the two words
        count its bits. */
    ghost predicate Valid()
      reads this, inp
    {
      && inp.Length == 64 && buf == Blocks(h, message) && inp[..|message| % 64] == Tail(message)
      && BitsOf(|message|, bits0, bits1)
    }

    /** MD5Init */
    constructor (h: Core<T>)
      ensures Valid() && message == [] && this.h == h && fresh(inp)
    {
      this.h := h;
      inp := new byte[64](i => 0);
      buf, bits0, bits1 := h.start, 0, 0;
      message := [];
    }

    /** memcpy into the block buffer. */
    method Put(at: nat, data: seq<byte>)
      requires at + |data| <= inp.Length
      modifies inp
      ensures inp[..] == old(inp[..at]) + data + old(inp[at + |data|..])
    {
      ghost var was := inp[..];
      var i: nat := 0;
      while i < |data|
        invariant i <= |data|
        invariant forall k :: 0 <= k < inp.Length ==> inp[k] == if at <= k < at + i then data[k - at] else was[k]
      {
        inp[at + i] := data[i];
        i := i + 1;
      }
    }

    /** The addition to the bit count. */
    method AddBits(len: nat)
      requires bits0 < WORD && bits1 < WORD && len < WORD
      modifies this`bits0, this`bits1
      ensures (bits0, bits1) == NextBits(old(bits0), old(bits1), len)
    {
      var t := bits0;
      bits0 := (t + (len * 8) % WORD) % WORD;
      if bits0 < t {
        bits1 := (bits1 + 1) % WORD;
      }
      bits1 := (bits1 + len / 0x2000_0000) % WORD;
    }

    /** The bit count, with the carry from the low to the high word. */
    method Count(len: nat)
      requires BitsOf(|message|, bits0, bits1) && len < WORD
      modifies this`bits0, this`bits1
      ensures BitsOf(|message| + len, bits0, bits1)
    {
      hide NextBits;
      AddBits(len);
      CountExact(8 * |message|, len, 8 * (|message| + len));
    }

    /** The carry is just when the low word comes out smaller, and what is lost of the shifted length is added on top. */
    lemma CountExact(n: nat, len: nat, sum: nat)
      requires len < WORD && sum == n + 8 * len
      ensures NextBits(n % WORD, (n / WORD) % WORD, len) == (sum % WORD, (sum / WORD) % WORD)
    {
      var hi, lo, q, r := n / WORD, n % WORD, len / 0x2000_0000, (len * 8) % WORD;
      assert n == hi * WORD + lo && len * 8 == q * WORD + r;
      var low := (lo + r) % WORD;
      var carry := if low < lo then 1 else 0;
      Carried(lo, r);
      assert n + 8 * len == low + (hi + q + carry) * WORD;
      DivModUnique(n + 8 * len, WORD, hi + q + carry, low);
      WordSums(hi, carry, q);
    }

    /** Bytes already in the block buffer, from the bit count. */
    lemma Held()
      requires Valid()
      ensures (bits0 / 8) % 64 == |message| % 64
    {
      BytesFromBits(|message|);
    }

    /** The block buffer is full: it goes into the state. */
    method Block(ghost x: seq<byte>)
      requires inp.Length == 64 && buf == Blocks(h, message) && |Tail(message)| + |x| == 64 && inp[..] == Tail(message) + x
      modifies this`buf, this`message
      ensures message == old(message) + x && buf == Blocks(h, message) && |message| % 64 == 0
    {
      hide Blocks;
      OneBlock(h, message, x);
      buf := h.transform(buf, inp[..]);
      message := message + x;
    }

    /** MD5Update */
    method Update(data: seq<byte>)
      requires Valid() && |data| < WORD
      modifies this`buf, this`bits0, this`bits1, this`message, inp
      ensures Valid() && message == old(message) + data
    {
      hide Blocks, BitsOf;
      Held();
      var t := (bits0 / 8) % 64;
      Count(|data|);
      ghost var m := message;
      var p: nat := 0;
      if t != 0 {
        var room := 64 - t;
        if |data| < room {
          NoBlock(h, message, data);
          Put(t, data);
          message := message + data;
          assert inp[..t + |data|] == Tail(m) + data;
          return;
        }
        Put(t, data[..room]);
        assert inp[..] == Tail(message) + data[..room];
        Block(data[..room]);
        p := room;
      }
      p := WholeBlocks64(data, p, m);
      Rest(data, p, m);
    }

    method WholeBlock(x: seq<byte>)
      requires inp.Length == |x| == 64 && buf == Blocks(h, message) && |message| % 64 == 0
      modifies this`buf, this`message, inp
      ensures message == old(message) + x && buf == Blocks(h, message) && |message| % 64 == 0
    {
      hide Blocks, Tail;
      NoTail(message);
      Put(0, x);
      assert inp[..] == x && [] + x == x;
      Block(x);
    }

    lemma Longer(m: seq<byte>, data: seq<byte>, p: nat)
      requires p + 64 <= |data|
      ensures (m + data[..p]) + data[p..p + 64] == m + data[..p + 64]
    {
    }

    /** "Process data in 64-byte chunks" */
    method WholeBlocks64(data: seq<byte>, p0: nat, ghost m: seq<byte>) returns (p: nat)
      requires p0 <= |data| && inp.Length == 64 && buf == Blocks(h, message) && |message| % 64 == 0 && message == m + data[..p0]
      modifies this`buf, this`message, inp
      ensures p0 <= p <= |data| < p + 64 && buf == Blocks(h, message) && |message| % 64 == 0 && message == m + data[..p]
    {
      hide Blocks, Tail;
      p := p0;
      while |data| - p >= 64
        invariant p0 <= p <= |data| && buf == Blocks(h, message) && |message| % 64 == 0 && message == m + data[..p]
      {
        WholeBlock(data[p..p + 64]);
        Longer(m, data, p);
        p := p + 64;
      }
    }

    /** "Handle any remaining bytes of data." */
    method Rest(data: seq<byte>, p: nat, ghost m: seq<byte>)
      requires p <= |data| < p + 64 && inp.Length == 64 && buf == Blocks(h, message) && |message| % 64 == 0 && message == m + data[..p]
      requires BitsOf(|m| + |data|, bits0, bits1)
      modifies this`message, inp
      ensures Valid() && message == m + data
    {
      hide Blocks, Tail, BitsOf;
      var more := data[p..];
      NoTail(message);
      NoBlock(h, message, more);
      Put(0, more);
      assert inp[..|more|] == more;
      Whole(m, data, p);
      message := message + more;
    }

    lemma Whole(m: seq<byte>, data: seq<byte>, p: nat)
      requires p <= |data|
      ensures (m + data[..p]) + data[p..] == m + data
    {
      assert data[..p] + data[p..] == data;
    }

    lemma NoTail(m: seq<byte>)
      requires |m| % 64 == 0
      ensures Tail(m) == []
    {
    }

    /** memset to zero. */
    method Clear(at: nat, n: nat)
      requires at + n <= inp.Length
      modifies inp
      ensures inp[..] == old(inp[..at]) + Zeros(n) + old(inp[at + n..])
    {
      Put(at, Zeros(n));
    }

    /** The byte 0x80 and zeros up to the place for the length, which may be in the next block. */
    method PadTo56() returns (ghost x: seq<byte>)
      requires Valid()
      modifies this`buf, this`message, inp
      ensures buf == Blocks(h, message) && |Tail(message)| + |x| == 56 && inp[..56] == Tail(message) + x
      ensures var t := |old(message)| % 64;
              if t > 55 then message == old(message) + ([0x80] + Zeros(63 - t)) && x == Zeros(56)
              else message == old(message) && x == [0x80] + Zeros(55 - t)
    {
      hide Blocks, Zeros;
      Held();
      ghost var m := message;
      var t: nat := (bits0 / 8) % 64;
      inp[t] := 0x80;
      assert inp[..t + 1] == Tail(m) + [0x80];
      var count := 63 - t;
      if count < 8 {
        Clear(t + 1, count);
        x := [0x80] + Zeros(count);
        assert inp[..] == Tail(m) + x;
        Block(x);
        Clear(0, 56);
        x := Zeros(56);
      } else {
        Clear(t + 1, count - 8);
        x := [0x80] + Zeros(count - 8);
      }
    }

    /** MD5Final, but for clearing the context. */
    method Final() returns (digest: seq<byte>)
      requires Valid()
      modifies this`buf, this`message, inp
      ensures digest == Digest(h, old(message))
    {
      hide Blocks, Padded, Bytes4, Zeros, Tail;
      ghost var m := message;
      ghost var len := Length64(8 * |m|);
      ghost var x := PadTo56();
      Put(56, Bytes4(bits0) + Bytes4(bits1));
      assert inp[..] == Tail(message) + (x + len);
      Block(x + len);
      PaddedAs(m);
      assert message == Padded(m);
      digest := h.output(buf);
    }

    lemma PaddedAs(m: seq<byte>)
      ensures var t := |m| % 64;
              Padded(m) == if t > 55 then (m + ([0x80] + Zeros(63 - t))) + (Zeros(56) + Length64(8 * |m|))
                           else m + (([0x80] + Zeros(55 - t)) + Length64(8 * |m|))
    {
      hide PadZeros, Zeros, Length64;
      var t, len := |m| % 64, Length64(8 * |m|);
      Pads(|m|);
      if t > 55 {
        MoreZeros(63 - t, 56);
        assert Padded(m) == m + [0x80] + (Zeros(63 - t) + Zeros(56)) + len;
        Grouped(m, [0x80], Zeros(63 - t), Zeros(56), len);
      } else {
        Grouped(m, [0x80], Zeros(55 - t), [], len);
        assert Zeros(55 - t) + [] == Zeros(55 - t) && [] + len == len;
        assert m + ([0x80] + Zeros(55 - t)) + len == m + (([0x80] + Zeros(55 - t)) + len);
      }
    }

    static lemma Pads(n: nat)
      ensures PadZeros(n) == if n % 64 > 55 then 119 - n % 64 else 55 - n % 64
    {
    }

    static lemma MoreZeros(m: nat, n: nat)
      ensures Zeros(m + n) == Zeros(m) + Zeros(n)
    {
    }

    static lemma Grouped(a: seq<byte>, b: seq<byte>, c: seq<byte>, d: seq<byte>, e: seq<byte>)
      ensures a + b + (c + d) + e == (a + (b + c)) + (d + e)
    {
      assert a + b + (c + d) + e == a + b + c + d + e;
      assert (a + (b + c)) + (d + e) == a + b + c + d + e;
    }
  }

  lemma BytesFromBits(n: nat)
    ensures ((8 * n) % WORD / 8) % 64 == n % 64
  {
    var x, y := n / 0x2000_0000, n % 0x2000_0000;
    assert n == x * 0x2000_0000 + y;
    DivModUnique(8 * n, WORD, x, 8 * y);
    var u, v := y / 64, y % 64;
    assert y == u * 64 + v;
    DivModUnique(n, 64, x * 0x80_0000 + u, v);
  }

  lemma Carried(lo: nat, r: nat)
    requires lo < WORD && r < WORD
    ensures var low := (lo + r) % WORD; lo + r == low + (if low < lo then WORD else 0)
  {
  }

  lemma WordSums(hi: nat, c: nat, q: nat)
    ensures ((hi % WORD + c) % WORD + q) % WORD == (hi + q + c) % WORD
  {
    var x := hi / WORD;
    assert hi == hi % WORD + x * WORD;
    var y := (hi % WORD + c) / WORD;
    assert hi % WORD + c == (hi % WORD + c) % WORD + y * WORD;
    var z := (hi % WORD + c) % WORD + q;
    assert hi + q + c == z + (x + y) * WORD;
    assert (z + (x + y) * WORD) % WORD == z % WORD;
  }
}
