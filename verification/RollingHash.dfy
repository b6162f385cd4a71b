/**
 The rolling hash of the string matcher: it depends on exactly the last three bytes, and
 two strings that agree on the hash and on the first two bytes agree on the third.
 */
module RollingHash {
  import opened Arith
  import opened Bits

  lemma {:induction false} XorComm(a: nat, b: nat)
    ensures Xor(a, b) == Xor(b, a)
    decreases a + b
  {
    if a != 0 && b != 0 {
      XorComm(a / 2, b / 2);
    }
  }

  lemma XorHalves(a: nat, b: nat)
    ensures Xor(a, b) % 2 == (a % 2 + b % 2) % 2 && Xor(a, b) / 2 == Xor(a / 2, b / 2)
  {
    if a != 0 && b != 0 {
      var x := XorStep(a, b);
    } else {
      XorZero(a);
      XorZero(b);
      XorZero(a / 2);
      XorZero(b / 2);
      hide Xor;
    }
  }

  lemma {:induction false} XorAssoc(a: nat, b: nat, c: nat)
    ensures Xor(Xor(a, b), c) == Xor(a, Xor(b, c))
    decreases a + b + c
  {
    hide Xor;
    if a == 0 || c == 0 {
      XorZero(b);
      XorZero(c);
      XorZero(Xor(a, b));
      XorZero(Xor(b, c));
    } else {
      XorAssoc(a / 2, b / 2, c / 2);
      XorHalves(a, b);
      XorHalves(Xor(a, b), c);
      XorHalves(b, c);
      XorHalves(a, Xor(b, c));
      SumMod2(a % 2, b % 2, c % 2);
      SameHalves(Xor(Xor(a, b), c), Xor(a, Xor(b, c)));
    }
  }

  lemma SumMod2(a: nat, b: nat, c: nat)
    ensures ((a + b) % 2 + c) % 2 == (a + (b + c) % 2) % 2
  {
  }

  lemma SameHalves(x: nat, y: nat)
    requires x % 2 == y % 2 && x / 2 == y / 2
    ensures x == y
  {
  }

  /** Shifting left distributes over exclusive or. */
  lemma {:induction false} XorShift(a: nat, b: nat, n: nat)
    ensures Xor(a * Pow2(n), b * Pow2(n)) == Xor(a, b) * Pow2(n)
  {
    hide Xor;
    if n > 0 {
      XorShift(a, b, n - 1);
      DoubleShift(a, n);
      DoubleShift(b, n);
      DoubleShift(Xor(a, b), n);
      hide Pow2;
      XorHalves(a * Pow2(n), b * Pow2(n));
      SameHalves(Xor(a * Pow2(n), b * Pow2(n)), Xor(a, b) * Pow2(n));
    }
  }

  lemma DoubleShift(a: nat, n: nat)
    requires n > 0
    ensures a * Pow2(n) % 2 == 0 && a * Pow2(n) / 2 == a * Pow2(n - 1)
  {
    Pow2Double(n);
    hide Pow2;
    MulAssoc(2, a, Pow2(n - 1));
    DivModUnique(a * Pow2(n), 2, a * Pow2(n - 1), 0);
  }

  /** So does keeping the low n bits. */
  lemma {:induction false} XorMask(a: nat, b: nat, n: nat)
    ensures Xor(a, b) % Pow2(n) == Xor(a % Pow2(n), b % Pow2(n))
  {
    if n > 0 {
      XorMask(a / 2, b / 2, n - 1);
      MaskHalves(a, n);
      MaskHalves(b, n);
      MaskHalves(Xor(a, b), n);
      XorHalves(a, b);
      XorHalves(a % Pow2(n), b % Pow2(n));
      SameHalves(Xor(a, b) % Pow2(n), Xor(a % Pow2(n), b % Pow2(n)));
    }
  }

  lemma MaskHalves(a: nat, n: nat)
    requires n > 0
    ensures a % Pow2(n) / 2 == a / 2 % Pow2(n - 1) && a % Pow2(n) % 2 == a % 2
  {
    var p := Pow2(n - 1);
    hide Pow2;
    var q, r := a / 2 / p, a / 2 % p;
    assert a == (q * p + r) * 2 + a % 2;
    assert (q * p) * 2 == q * (2 * p) by { MulAssoc(q, p, 2); MulAssoc(2, q, p); }
    DivModUnique(a, 2 * p, q, r * 2 + a % 2);
    assert Pow2(n) == 2 * p by { Pow2Double(n); }
  }

  lemma Pow2Double(n: nat)
    requires n > 0
    ensures Pow2(n) == 2 * Pow2(n - 1)
  {
  }

  /** UPDATE_HASH */
  function Update(h: nat, c: byte, shift: nat, bits: nat): (h': nat)
    ensures h' < Pow2(bits)
  {
    Xor(h * Pow2(shift), c) % Pow2(bits)
  }

  /** The hash of three bytes, starting from any hash that the shifts push out. */
  function Hash3(b0: byte, b1: byte, b2: byte, shift: nat, bits: nat): nat {
    Xor(Xor(b0 * Pow2(2 * shift), b1 * Pow2(shift)), b2) % Pow2(bits)
  }

  lemma ModAbsorb(a: nat, k: nat, n: nat)
    ensures (a % Pow2(n)) * Pow2(k) % Pow2(n) == a * Pow2(k) % Pow2(n)
  {
    hide Pow2;
    ModOfProduct(a, Pow2(n), Pow2(k));
  }

  lemma ModOfProduct(a: nat, m: nat, p: nat)
    requires m > 0
    ensures (a % m) * p % m == a * p % m
  {
    var q, r := a / m, a % m;
    AbsorbMod(q, m, r, p);
    assert a == q * m + r;
  }

  lemma AbsorbMod(q: nat, m: nat, r: nat, p: nat)
    requires m > 0
    ensures (q * m + r) * p % m == r * p % m
  {
    var x := r * p;
    Absorb(q, m, r, p, x / m, x % m);
    DivModUnique((q * m + r) * p, m, q * p + x / m, x % m);
  }

  lemma Absorb(q: nat, m: nat, r: nat, p: nat, q': nat, r': nat)
    requires r * p == q' * m + r'
    ensures (q * m + r) * p == (q * p + q') * m + r'
  {
    MulAdd(p, q * m, r);
    MulAdd(m, q * p, q');
    MulAssoc(q, m, p);
  }

  /** Updating distributes: only the low bits of the old hash matter. */
  lemma UpdateMasked(h: nat, c: byte, shift: nat, bits: nat)
    ensures Update(h % Pow2(bits), c, shift, bits) == Update(h, c, shift, bits)
  {
    ModAbsorb(h, shift, bits);
    XorMask((h % Pow2(bits)) * Pow2(shift), c, bits);
    XorMask(h * Pow2(shift), c, bits);
  }

  /** The state of the rolling hash before byte c: the next update hashes b0, b1 and that byte. */
  ghost predicate Primed(h: nat, b0: byte, b1: byte, shift: nat, bits: nat) {
    forall c: byte :: Update(h, c, shift, bits) == Hash3(b0, b1, c, shift, bits)
  }

  /** fill_window primes the hash from two bytes. */
  lemma PrimedByTwo(b0: byte, b1: byte, shift: nat, bits: nat)
    ensures Primed(Update(b0, b1, shift, bits), b0, b1, shift, bits)
  {
    forall c: byte
      ensures Update(Update(b0, b1, shift, bits), c, shift, bits) == Hash3(b0, b1, c, shift, bits)
    {
      UpdateMasked(Xor(b0 * Pow2(shift), b1), c, shift, bits);
      XorShift(b0 * Pow2(shift), b1, shift);
      Pow2Add(shift, shift);
      MulAssoc(b0, Pow2(shift), Pow2(shift));
    }
  }

  /** Hashing a third byte primes the hash for the string one further on: the first byte is shifted out. */
  lemma PrimedByUpdate(h: nat, b0: byte, b1: byte, b2: byte, shift: nat, bits: nat)
    requires Primed(h, b0, b1, shift, bits) && bits <= 3 * shift
    ensures Primed(Update(h, b2, shift, bits), b1, b2, shift, bits)
  {
    var x := Xor(Xor(b0 * Pow2(2 * shift), b1 * Pow2(shift)), b2);
    assert Update(h, b2, shift, bits) == x % Pow2(bits);
    forall c: byte
      ensures Update(x % Pow2(bits), c, shift, bits) == Hash3(b1, b2, c, shift, bits)
    {
      hide Pow2, Xor;
      UpdateMasked(x, c, shift, bits);
      ShiftedOut(b0, b1, b2, c, shift, bits);
    }
  }

  lemma ShiftedOut(b0: byte, b1: byte, b2: byte, c: byte, shift: nat, bits: nat)
    requires bits <= 3 * shift
    ensures var x := Xor(Xor(b0 * Pow2(2 * shift), b1 * Pow2(shift)), b2);
            Update(x, c, shift, bits) == Hash3(b1, b2, c, shift, bits)
  {
    hide Pow2, Xor;
    var p, m := Pow2(shift), Pow2(bits);
    var a0, a1 := b0 * Pow2(2 * shift), b1 * p;
    XorShift(Xor(a0, a1), b2, shift);
    XorShift(a0, a1, shift);
    // x << shift is a0 << shift, a1 << shift and b2 << shift together
    var y := Xor(a1 * p, b2 * p);
    XorAssoc(a0 * p, a1 * p, b2 * p);
    XorAssoc(a0 * p, y, c);
    XorMask(a0 * p, Xor(y, c), bits);
    assert a0 * p == b0 * Pow2(3 * shift) by {
      Pow2Add(2 * shift, shift);
      MulAssoc(b0, Pow2(2 * shift), p);
      assert 2 * shift + shift == 3 * shift;
    }
    assert a0 * p % m == 0 by {
      Pow2Add(bits, 3 * shift - bits);
      MulAssoc(b0, m, Pow2(3 * shift - bits));
      ModOfMultiple(m, b0 * Pow2(3 * shift - bits));
    }
    XorZero(Xor(y, c) % m);
    assert a1 * p == b1 * Pow2(2 * shift) by {
      Pow2Add(shift, shift);
      MulAssoc(b1, p, p);
      assert shift + shift == 2 * shift;
    }
  }

  lemma XorZero(a: nat)
    ensures Xor(0, a) == a == Xor(a, 0)
  {
  }

  /** With at least eight hash bits, equal hashes and two equal bytes force the third. */
  lemma ThirdByteEqual(b0: byte, b1: byte, b2: byte, c2: byte, shift: nat, bits: nat)
    requires bits >= 8 && Hash3(b0, b1, b2, shift, bits) == Hash3(b0, b1, c2, shift, bits)
    ensures b2 == c2
  {
    Pow2Monotone(8, bits);
    assert Pow2(8) == 256;
    hide Pow2, Xor;
    var m := Pow2(bits);
    var x := Xor(b0 * Pow2(2 * shift), b1 * Pow2(shift));
    XorMask(x, b2, bits);
    XorMask(x, c2, bits);
    DivModUnique(b2, m, 0, b2);
    DivModUnique(c2, m, 0, c2);
    XorCancel(x % m, b2, c2);
  }

  lemma XorCancel(x: nat, a: nat, b: nat)
    requires Xor(x, a) == Xor(x, b)
    ensures a == b
  {
    hide Xor;
    XorComm(x, a);
    XorComm(x, b);
    XorTwice(a, x);
    XorTwice(b, x);
  }
}
