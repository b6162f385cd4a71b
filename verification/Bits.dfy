/**
 Words and bit strings shared by the coders: powers of two, exclusive or,
 and the two orders in which a number is written as bits.  BSD Compress sends
 the most significant bit first; Deflate sends the least significant bit first.
 */
module Bits {
  type byte = x: int | 0 <= x < 256

  function Pow2(n: nat): (p: nat)
    ensures p >= 1
  {
    if n == 0 then 1 else 2 * Pow2(n - 1)
  }

  lemma {:induction false} Pow2Add(a: nat, b: nat)
    ensures Pow2(a + b) == Pow2(a) * Pow2(b)
  {
    if a > 0 {
      Pow2Add(a - 1, b);
      assert a + b - 1 == (a - 1) + b;
      assert 2 * (Pow2(a - 1) * Pow2(b)) == (2 * Pow2(a - 1)) * Pow2(b);
    }
  }

  lemma {:induction false} Pow2Monotone(a: nat, b: nat)
    requires a <= b
    ensures Pow2(a) <= Pow2(b)
    ensures a < b ==> 2 * Pow2(a) <= Pow2(b)
    decreases b
  {
    if a < b {
      Pow2Monotone(a, b - 1);
    }
  }

  lemma Pow2Values()
    ensures Pow2(4) == 16 && Pow2(7) == 128 && Pow2(8) == 256 && Pow2(9) == 512
    ensures Pow2(10) == 1024 && Pow2(11) == 2048 && Pow2(12) == 4096 && Pow2(13) == 8192
    ensures Pow2(14) == 16384 && Pow2(15) == 32768 && Pow2(16) == 65536
    ensures Pow2(24) == 0x100_0000 && Pow2(32) == 0x1_0000_0000
  {
    assert Pow2(8) == 256;
    assert Pow2(16) == 65536 by { Pow2Add(8, 8); }
    assert Pow2(24) == 0x100_0000 by { Pow2Add(16, 8); }
    assert Pow2(32) == 0x1_0000_0000 by { Pow2Add(16, 16); }
  }

  /** Exclusive or of two non-negative numbers. */
  function Xor(a: nat, b: nat): nat
    decreases a + b
  {
    if a == 0 then b
    else if b == 0 then a
    else (a % 2 + b % 2) % 2 + 2 * Xor(a / 2, b / 2)
  }

  lemma {:induction false} XorBelow(a: nat, b: nat, n: nat)
    requires a < Pow2(n) && b < Pow2(n)
    ensures Xor(a, b) < Pow2(n)
    decreases n
  {
    if a != 0 && b != 0 {
      XorBelow(a / 2, b / 2, n - 1);
    }
  }

  lemma {:induction false} XorTwice(a: nat, b: nat)
    ensures Xor(Xor(a, b), b) == a
    decreases a + b
  {
    if a == 0 {
      XorSelf(b);
    } else if b != 0 {
      XorTwice(a / 2, b / 2);
      var x := XorStep(a, b);
      if x != 0 {
        var y := XorStep(x, b);
        assert y / 2 == a / 2;
        assert y % 2 == a % 2;
      }
    }
  }

  lemma XorStep(a: nat, b: nat) returns (x: nat)
    requires a != 0 && b != 0
    ensures x == Xor(a, b)
    ensures x % 2 == (a % 2 + b % 2) % 2 && x / 2 == Xor(a / 2, b / 2)
  {
    x := Xor(a, b);
  }

  lemma {:induction false} XorSelf(b: nat)
    ensures Xor(b, b) == 0
  {
    if b != 0 {
      XorSelf(b / 2);
    }
  }

  /** Bitwise or of two non-negative numbers. */
  function Or(a: nat, b: nat): nat
    decreases a + b
  {
    if a == 0 then b
    else if b == 0 then a
    else (if a % 2 == 1 || b % 2 == 1 then 1 else 0) + 2 * Or(a / 2, b / 2)
  }

  // ----- most significant bit first

  /** The n low bits of v, most significant first. */
  function ToBits(v: nat, n: nat): (b: seq<bool>)
    ensures |b| == n
  {
    if n == 0 then [] else ToBits(v / 2, n - 1) + [v % 2 == 1]
  }

  /** The number that the bits b spell, most significant first. */
  function FromBits(b: seq<bool>): nat {
    if b == [] then 0
    else 2 * FromBits(b[..|b| - 1]) + (if b[|b| - 1] then 1 else 0)
  }

  lemma {:induction false} FromToBits(v: nat, n: nat)
    requires v < Pow2(n)
    ensures FromBits(ToBits(v, n)) == v
  {
    if n > 0 {
      FromToBits(v / 2, n - 1);
      assert ToBits(v, n)[..n - 1] == ToBits(v / 2, n - 1);
    }
  }

  lemma {:induction false} ToFromBits(b: seq<bool>)
    ensures FromBits(b) < Pow2(|b|)
    ensures ToBits(FromBits(b), |b|) == b
  {
    if b != [] {
      ToFromBits(b[..|b| - 1]);
    }
  }

  /** Putting w bits of x below v and writing all of it is writing v, then x. */
  lemma {:induction false} ToBitsConcat(v: nat, n: nat, x: nat, w: nat)
    requires x < Pow2(w)
    ensures ToBits(v * Pow2(w) + x, n + w) == ToBits(v, n) + ToBits(x, w)
    decreases w
  {
    if w > 0 {
      var p := Pow2(w - 1);
      var y := v * Pow2(w) + x;
      assert v * Pow2(w) == 2 * (v * p);
      assert y / 2 == v * p + x / 2 && y % 2 == x % 2;
      ToBitsConcat(v, n, x / 2, w - 1);
      calc {
        ToBits(y, n + w);
        ToBits(y / 2, n + (w - 1)) + [x % 2 == 1];
        (ToBits(v, n) + ToBits(x / 2, w - 1)) + [x % 2 == 1];
        ToBits(v, n) + (ToBits(x / 2, w - 1) + [x % 2 == 1]);
        ToBits(v, n) + ToBits(x, w);
      }
    } else {
      assert ToBits(v, n) + [] == ToBits(v, n);
    }
  }

  /** The bits of a byte string, first byte first, most significant bit first. */
  function BytesToBits(s: seq<byte>): (b: seq<bool>)
    ensures |b| == 8 * |s|
  {
    if s == [] then [] else BytesToBits(s[..|s| - 1]) + ToBits(s[|s| - 1], 8)
  }

  lemma {:induction false} BytesToBitsConcat(s: seq<byte>, t: seq<byte>)
    ensures BytesToBits(s + t) == BytesToBits(s) + BytesToBits(t)
    decreases |t|
  {
    if t == [] {
      assert s + t == s;
      assert BytesToBits(s) + [] == BytesToBits(s);
    } else {
      BytesToBitsConcat(s, t[..|t| - 1]);
      assert (s + t)[..|s + t| - 1] == s + t[..|t| - 1];
      var last := ToBits(t[|t| - 1], 8);
      assert (BytesToBits(s) + BytesToBits(t[..|t| - 1])) + last == BytesToBits(s) + (BytesToBits(t[..|t| - 1]) + last);
    }
  }
}
