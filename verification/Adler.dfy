/**
 Adler-32 (section 8.2 of RFC 1950): two sums modulo 65521, reduced only once in 5552 bytes.
 The sums before reduction never outgrow 32 bits.
 */
module Adler {
  import opened Bits

  const BASE: nat := 65521
  const NMAX: nat := 5552
  const LIMIT: nat := 0x1_0000_0000

  /** Both sums. */
  datatype Sums = Sums(s1: nat, s2: nat) {
    predicate Reduced() {
      s1 < BASE && s2 < BASE
    }

    function Mod(): Sums {
      Sums(s1 % BASE, s2 % BASE)
    }

    function Packed(): nat {
      s2 * 0x10000 + s1
    }
  }

  function Unpacked(adler: nat): Sums {
    Sums(adler % 0x10000, (adler / 0x10000) % 0x10000)
  }

  /** The definition: both sums are reduced after each byte. */
  function Checksum(s: Sums, data: seq<byte>): Sums {
    if data == [] then s
    else
      var t := Checksum(s, data[..|data| - 1]);
      var a := (t.s1 + data[|data| - 1]) % BASE;
      Sums(a, (t.s2 + a) % BASE)
  }

  /** The same without reducing. */
  function Raw(s: Sums, data: seq<byte>): Sums {
    if data == [] then s
    else
      var t := Raw(s, data[..|data| - 1]);
      var a := t.s1 + data[|data| - 1];
      Sums(a, t.s2 + a)
  }

  lemma {:induction false} ReduceLater(s: Sums, data: seq<byte>)
    requires s.Reduced()
    ensures Raw(s, data).Mod() == Checksum(s, data)
  {
    if data != [] {
      ReduceLater(s, data[..|data| - 1]);
      var r, x := Raw(s, data[..|data| - 1]), data[|data| - 1];
      ModAdd(r.s1, x);
      ModSum(r.s2, r.s1 + x);
    }
  }

  lemma ModAdd(a: nat, b: nat)
    ensures (a % BASE + b) % BASE == (a + b) % BASE
  {
    assert a == BASE * (a / BASE) + a % BASE;
  }

  lemma ModSum(a: nat, b: nat)
    ensures (a % BASE + b % BASE) % BASE == (a + b) % BASE
  {
    ModAdd(a, b % BASE);
    ModAdd(b, a);
  }

  lemma {:induction false} ChecksumReduced(s: Sums, data: seq<byte>)
    requires s.Reduced()
    ensures Checksum(s, data).Reduced()
  {
  }

  /** Checksums continue: that of x + y is that of y from where x ended. */
  lemma {:induction false} ChecksumContinues(s: Sums, x: seq<byte>, y: seq<byte>)
    ensures Checksum(s, x + y) == Checksum(Checksum(s, x), y)
    decreases |y|
  {
    if y == [] {
      assert x + y == x;
    } else {
      assert (x + y)[..|x + y| - 1] == x + y[..|y| - 1];
      ChecksumContinues(s, x, y[..|y| - 1]);
    }
  }

  // ----- in closed form

  /** The sum of the bytes. */
  function Total(data: seq<byte>): nat {
    if data == [] then 0 else data[0] + Total(data[1..])
  }

  /** Their sum when the last counts once, the one before it twice, and so on. */
  function Weighted(data: seq<byte>): nat {
    if data == [] then 0 else |data| * data[0] + Weighted(data[1..])
  }

  lemma {:induction false} RawFront(s: Sums, data: seq<byte>)
    requires data != []
    ensures Raw(s, data) == Raw(Sums(s.s1 + data[0], s.s2 + (s.s1 + data[0])), data[1..])
    decreases |data|
  {
    if |data| > 1 {
      var front := data[..|data| - 1];
      RawFront(s, front);
      assert front[1..] == data[1..][..|data[1..]| - 1];
    } else {
      assert data[..0] == [] && data[1..] == [];
    }
  }

  lemma {:induction false} RawClosed(s: Sums, data: seq<byte>)
    ensures Raw(s, data) == Sums(s.s1 + Total(data), s.s2 + |data| * s.s1 + Weighted(data))
    decreases |data|
  {
    if data != [] {
      var n, x, rest := |data|, data[0], data[1..];
      RawFront(s, data);
      hide Raw;
      RawClosed(Sums(s.s1 + x, s.s2 + (s.s1 + x)), rest);
      OneMore(n - 1, s.s1, x);
    }
  }

  lemma OneMore(n: nat, a: nat, x: nat)
    ensures a + x + n * (a + x) == (n + 1) * a + (n + 1) * x
  {
  }

  /** The checksum from the beginning: both sums in closed form modulo 65521, the weighted one in the upper half. */
  lemma ByWeights(data: seq<byte>)
    ensures Unpacked(1).Reduced()
    ensures Checksum(Unpacked(1), data).Packed()
         == ((|data| + Weighted(data)) % 65521) * 0x1_0000 + (1 + Total(data)) % 65521
  {
    hide *;
    StartIs();
    ReduceLater(Unpacked(1), data);
    RawClosed(Unpacked(1), data);
    PackedIs(Raw(Unpacked(1), data));
  }

  lemma StartIs()
    ensures Unpacked(1) == Sums(1, 0) && Unpacked(1).Reduced()
  {
  }

  lemma PackedIs(s: Sums)
    ensures s.Mod().Packed() == (s.s2 % 65521) * 0x1_0000 + s.s1 % 65521
  {
  }

  // ----- the bound

  function Triangle(n: nat): nat {
    if n == 0 then 0 else Triangle(n - 1) + n
  }

  lemma {:induction false} TriangleValue(n: nat)
    ensures 2 * Triangle(n) == n * (n + 1)
  {
    if n > 0 {
      TriangleValue(n - 1);
    }
  }

  lemma {:induction false} TriangleGrows(m: nat, n: nat)
    requires m <= n
    ensures Triangle(m) <= Triangle(n)
  {
    if m < n {
      TriangleGrows(m, n - 1);
    }
  }

  lemma {:induction false} RawBound(s: Sums, data: seq<byte>)
    requires s.Reduced()
    ensures Raw(s, data).s1 <= BASE - 1 + 255 * |data|
    ensures Raw(s, data).s2 <= (|data| + 1) * (BASE - 1) + 255 * Triangle(|data|)
  {
    if data != [] {
      RawBound(s, data[..|data| - 1]);
    }
  }

  /** Up to NMAX bytes the sums fit 32 bits; one byte more and the second may not. */
  lemma RawFits(s: Sums, data: seq<byte>)
    requires s.Reduced() && |data| <= NMAX
    ensures Raw(s, data).s1 < LIMIT && Raw(s, data).s2 < LIMIT
  {
    RawBound(s, data);
    TriangleGrows(|data|, NMAX);
    TriangleValue(NMAX);
  }

  lemma {:induction false} FullBytes(n: nat)
    ensures Raw(Sums(BASE - 1, BASE - 1), seq(n, i => 255)).s1 == BASE - 1 + 255 * n
    ensures Raw(Sums(BASE - 1, BASE - 1), seq(n, i => 255)).s2 == (n + 1) * (BASE - 1) + 255 * Triangle(n)
  {
    if n > 0 {
      FullBytes(n - 1);
      assert seq(n, i => 255 as byte)[..n - 1] == seq(n - 1, i => 255 as byte);
    }
  }

  lemma NmaxIsGreatest()
    ensures Raw(Sums(BASE - 1, BASE - 1), seq(NMAX + 1, i => 255)).s2 >= LIMIT
  {
    FullBytes(NMAX + 1);
    TriangleValue(NMAX + 1);
  }

  // ----- the code

  /** DO1 to DO16: both sums over the next bytes. */
  method Do1(buf: seq<byte>, p: nat, s: Sums, ghost from: nat, ghost start: Sums) returns (t: Sums)
    requires from <= p < |buf| && p + 1 - from <= NMAX && start.Reduced() && s == Raw(start, buf[from..p])
    ensures t == Raw(start, buf[from..p + 1]) && t.s1 < LIMIT && t.s2 < LIMIT
  {
    assert buf[from..p + 1][..p - from] == buf[from..p];
    RawFits(start, buf[from..p + 1]);
    var s1 := s.s1 + buf[p];
    t := Sums(s1, s.s2 + s1);
  }

  method Do4(buf: seq<byte>, p: nat, s: Sums, ghost from: nat, ghost start: Sums) returns (t: Sums)
    requires from <= p && p + 4 <= |buf| && p + 4 - from <= NMAX && start.Reduced() && s == Raw(start, buf[from..p])
    ensures t == Raw(start, buf[from..p + 4])
  {
    hide Raw;
    t := Do1(buf, p, s, from, start);
    t := Do1(buf, p + 1, t, from, start);
    t := Do1(buf, p + 2, t, from, start);
    t := Do1(buf, p + 3, t, from, start);
  }

  method Do16(buf: seq<byte>, p: nat, s: Sums, ghost from: nat, ghost start: Sums) returns (t: Sums)
    requires from <= p && p + 16 <= |buf| && p + 16 - from <= NMAX && start.Reduced() && s == Raw(start, buf[from..p])
    ensures t == Raw(start, buf[from..p + 16])
  {
    hide Raw;
    t := Do4(buf, p, s, from, start);
    t := Do4(buf, p + 4, t, from, start);
    t := Do4(buf, p + 8, t, from, start);
    t := Do4(buf, p + 12, t, from, start);
  }

  /** One chunk of at most NMAX bytes. */
  method Chunk(buf: seq<byte>, p0: nat, k0: nat, s0: Sums) returns (s: Sums)
    requires p0 + k0 <= |buf| && k0 <= NMAX && s0.Reduced()
    ensures s == Checksum(s0, buf[p0..p0 + k0])
  {
    hide Raw, Checksum;
    var p, k: nat := p0, k0;
    s := s0;
    NoBytes(s0, buf[p0..p0]);
    while k >= 16
      invariant p + k == p0 + k0 && p0 <= p && s == Raw(s0, buf[p0..p])
    {
      s := Do16(buf, p, s, p0, s0);
      p := p + 16;
      k := k - 16;
    }
    while k != 0
      invariant p + k == p0 + k0 && p0 <= p && s == Raw(s0, buf[p0..p])
    {
      s := Do1(buf, p, s, p0, s0);
      p := p + 1;
      k := k - 1;
    }
    ReduceLater(s0, buf[p0..p0 + k0]);
    s := Sums(s.s1 % BASE, s.s2 % BASE);
  }

  lemma NoBytes(s: Sums, data: seq<byte>)
    requires data == []
    ensures Raw(s, data) == s && Checksum(s, data) == s
  {
  }

  /** adler32; None is the null buffer, for which the checksum of nothing is returned. */
  method Adler32(adler: nat, buf: seq<byte>, isNull: bool) returns (r: nat)
    requires Unpacked(adler).Reduced()
    ensures r == if isNull then 1 else Checksum(Unpacked(adler), buf).Packed()
    ensures !isNull ==> r < LIMIT && Unpacked(r) == Checksum(Unpacked(adler), buf)
  {
    var s := Unpacked(adler);
    if isNull {
      return 1;
    }
    hide Checksum, Raw, Unpacked;
    var p: nat := 0;
    NoBytes(s, buf[..0]);
    while p < |buf|
      invariant p <= |buf| && s == Checksum(Unpacked(adler), buf[..p]) && s.Reduced()
    {
      var left := |buf| - p;
      var k := if left < NMAX then left else NMAX;
      ChecksumContinues(Unpacked(adler), buf[..p], buf[p..p + k]);
      assert buf[..p] + buf[p..p + k] == buf[..p + k];
      ghost var before := s;
      s := Chunk(buf, p, k, s);
      ChecksumReduced(before, buf[p..p + k]);
      p := p + k;
    }
    assert buf[..p] == buf;
    PackedBack(s);
    r := s.s2 * 0x10000 + s.s1;
  }

  /** The checksum of two pieces, one after the other, is that of both together. */
  lemma InPieces(adler: nat, x: seq<byte>, y: seq<byte>)
    requires Unpacked(adler).Reduced()
    ensures Checksum(Unpacked(Checksum(Unpacked(adler), x).Packed()), y) == Checksum(Unpacked(adler), x + y)
  {
    hide Checksum, Unpacked;
    ChecksumReduced(Unpacked(adler), x);
    PackedBack(Checksum(Unpacked(adler), x));
    ChecksumContinues(Unpacked(adler), x, y);
  }

  lemma PackedBack(s: Sums)
    requires s.Reduced()
    ensures Unpacked(s.Packed()) == s && s.Packed() < LIMIT
  {
  }
}
