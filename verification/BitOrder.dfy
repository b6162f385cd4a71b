/** Bit strings sent least significant bit first, and bi_reverse, which turns a code around for that. */
module BitOrder {
  import opened Arith
  import opened Bits

  /** The n low bits of v, least significant first. */
  function LowBits(v: nat, n: nat): (b: seq<bool>)
    ensures |b| == n
  {
    if n == 0 then [] else [v % 2 == 1] + LowBits(v / 2, n - 1)
  }

  /** The number whose bits, least significant first, are b. */
  function FromLow(b: seq<bool>): nat {
    if b == [] then 0 else (if b[0] then 1 else 0) + 2 * FromLow(b[1..])
  }

  lemma {:induction false} FromLowBits(v: nat, n: nat)
    requires v < Pow2(n)
    ensures FromLow(LowBits(v, n)) == v
  {
    if n > 0 {
      FromLowBits(v / 2, n - 1);
      assert LowBits(v, n)[1..] == LowBits(v / 2, n - 1);
    }
  }

  lemma {:induction false} LowFromLow(b: seq<bool>)
    ensures FromLow(b) < Pow2(|b|) && LowBits(FromLow(b), |b|) == b
  {
    if b != [] {
      LowFromLow(b[1..]);
      assert b == [b[0]] + b[1..];
    }
  }

  /** Putting x below v. */
  lemma {:induction false} LowBitsConcat(x: nat, n: nat, v: nat, m: nat)
    requires x < Pow2(n)
    ensures LowBits(x + v * Pow2(n), n + m) == LowBits(x, n) + LowBits(v, m)
    decreases n
  {
    if n == 0 {
      assert LowBits(x, 0) + LowBits(v, m) == LowBits(v, m);
    } else {
      var p := Pow2(n - 1);
      var y := x + v * Pow2(n);
      MulAssoc(v, 2, p);
      assert y % 2 == x % 2 && y / 2 == x / 2 + v * p;
      LowBitsConcat(x / 2, n - 1, v, m);
      assert [x % 2 == 1] + (LowBits(x / 2, n - 1) + LowBits(v, m)) == LowBits(x, n) + LowBits(v, m);
    }
  }

  /** v without its n low bits. */
  function High(v: nat, n: nat): nat {
    Div(v, Pow2(n))
  }

  /** The n low bits of v as a number. */
  function Low(v: nat, n: nat): nat {
    Mod(v, Pow2(n))
  }

  lemma HighLow(v: nat, n: nat)
    ensures v == Low(v, n) + High(v, n) * Pow2(n) && Low(v, n) < Pow2(n)
  {
    Quotient(v, Pow2(n));
  }

  lemma Quotient(v: nat, p: nat)
    requires p > 0
    ensures v == v % p + (v / p) * p && v % p < p
  {
  }

  /** x and h are the only such parts. */
  lemma HighLowUnique(x: nat, h: nat, n: nat)
    requires x < Pow2(n)
    ensures Low(x + h * Pow2(n), n) == x && High(x + h * Pow2(n), n) == h
  {
    DivModUnique(x + h * Pow2(n), Pow2(n), h, x);
  }

  lemma SplitBits(v: nat, n: nat, m: nat)
    ensures LowBits(v, n + m) == LowBits(Low(v, n), n) + LowBits(High(v, n), m)
  {
    HighLow(v, n);
    LowBitsConcat(Low(v, n), n, High(v, n), m);
  }

  lemma HighBelow(v: nat, n: nat, m: nat)
    requires v < Pow2(n + m)
    ensures High(v, n) < Pow2(m)
  {
    HighLow(v, n);
    Pow2Add(n, m);
    hide Pow2, High, Low;
    BelowProduct(High(v, n), Pow2(n), Low(v, n), Pow2(m));
  }

  lemma BelowProduct(h: nat, p: nat, l: nat, q: nat)
    requires p > 0 && l + h * p < p * q
    ensures h < q
  {
    if h >= q {
      MulLe(q, p, h, p);
    }
  }

  /** The n low bits of v the other way round. */
  function Reversed(v: nat, n: nat): nat {
    if n == 0 then 0 else (v % 2) * Pow2(n - 1) + Reversed(v / 2, n - 1)
  }

  lemma {:induction false} ReversedBelow(v: nat, n: nat)
    ensures Reversed(v, n) < Pow2(n)
  {
    if n > 0 {
      ReversedBelow(v / 2, n - 1);
      BitAbove(v % 2, Pow2(n - 1), Reversed(v / 2, n - 1));
    }
  }

  lemma BitAbove(b: nat, p: nat, r: nat)
    requires b < 2 && r < p
    ensures b * p + r < 2 * p
  {
  }

  /** Sending the reversed code least significant bit first sends the code most significant bit first. */
  lemma {:induction false} ReversedBits(v: nat, n: nat)
    ensures LowBits(Reversed(v, n), n) == ToBits(v, n)
  {
    if n > 0 {
      ReversedBits(v / 2, n - 1);
      ReversedBelow(v / 2, n - 1);
      LowBitsConcat(Reversed(v / 2, n - 1), n - 1, v % 2, 1);
      assert LowBits(v % 2, 1) == [v % 2 == 1];
    }
  }

  /** Reversal swaps the two parts of a number. */
  lemma {:induction false} ReversedConcat(h: nat, n: nat, x: nat, m: nat)
    requires x < Pow2(m)
    ensures Reversed(h * Pow2(m) + x, n + m) == Reversed(h, n) + Reversed(x, m) * Pow2(n)
    decreases m
  {
    if m > 0 {
      var v, p := h * Pow2(m) + x, Pow2(m - 1);
      MulAssoc(h, 2, p);
      assert v % 2 == x % 2 && v / 2 == h * p + x / 2;
      ReversedConcat(h, n, x / 2, m - 1);
      Pow2Add(n, m - 1);
      ReversedStep(v, n + m);
      ReversedStep(x, m);
      assert Pow2(m) == 2 * p;
      hide *;
      PartMoved(x % 2, p, Pow2(n), Reversed(x / 2, m - 1));
    }
  }

  lemma PartMoved(b: nat, p: nat, q: nat, r: nat)
    ensures (b * p + r) * q == b * (q * p) + r * q
  {
    MulAdd(q, b * p, r);
    MulAssoc(b, p, q);
  }

  /** The low bits of a reversed number are its high bits reversed, and the other way round. */
  lemma ReversedParts(v: nat, k: nat, w: nat)
    requires w <= k
    ensures Low(Reversed(v, k), w) == Reversed(High(v, k - w), w)
    ensures High(Reversed(v, k), w) == Reversed(Low(v, k - w), k - w)
  {
    HighLow(v, k - w);
    ReversedConcat(High(v, k - w), w, Low(v, k - w), k - w);
    ReversedBelow(High(v, k - w), w);
    HighLowUnique(Reversed(High(v, k - w), w), Reversed(Low(v, k - w), k - w), w);
  }

  lemma {:induction false} ReversedTwice(v: nat, n: nat)
    requires v < Pow2(n)
    ensures Reversed(Reversed(v, n), n) == v
  {
    hide Reversed;
    ReversedStep(v, n);
    if n > 0 {
      var b, r := v % 2, Reversed(v / 2, n - 1);
      HalfBelow(v, n);
      ReversedTwice(v / 2, n - 1);
      ReversedBelow(v / 2, n - 1);
      ReversedConcat(b, 1, r, n - 1);
      ReversedBit(b);
    } else {
      ReversedStep(Reversed(v, 0), 0);
    }
  }

  lemma HalfBelow(v: nat, n: nat)
    requires n > 0 && v < Pow2(n)
    ensures v / 2 < Pow2(n - 1) && v == v % 2 + 2 * (v / 2) && Pow2(1) == 2
  {
    assert Pow2(0) == 1;
  }

  lemma ReversedStep(v: nat, n: nat)
    ensures n == 0 ==> Reversed(v, n) == 0
    ensures n > 0 ==> Reversed(v, n) == (v % 2) * Pow2(n - 1) + Reversed(v / 2, n - 1)
    ensures v < Pow2(n) && n == 0 ==> v == 0
  {
  }

  lemma ReversedBit(b: nat)
    requires b < 2
    ensures Reversed(b, 1) == b
  {
    assert Pow2(0) == 1 && Reversed(b / 2, 0) == 0;
  }

  /** bi_reverse. */
  method BiReverse(code0: nat, len0: nat) returns (res: nat)
    requires len0 >= 1
    ensures res == Reversed(code0, len0)
  {
    res := 0;
    var code: nat, len: nat := code0, len0;
    while true
      invariant 1 <= len <= len0 && res % 2 == 0
      invariant (res / 2) * Pow2(len) + Reversed(code, len) == Reversed(code0, len0)
      decreases len
    {
      ghost var r := res / 2;
      ShiftIn(r, code % 2, Pow2(len - 1));
      res := res + code % 2;
      code := code / 2;
      res := 2 * res;
      assert res / 2 == 2 * r + (if res == 4 * r then 0 else 1);
      len := len - 1;
      if len == 0 {
        break;
      }
    }
    return res / 2;
  }

  lemma ShiftIn(r: nat, b: nat, p: nat)
    ensures r * (2 * p) + b * p == (2 * r + b) * p
  {
    MulAdd(p, 2 * r, b);
    MulAssoc(r, 2, p);
  }

  lemma HighHigh(v: nat, n: nat, m: nat)
    ensures High(High(v, n), m) == High(v, n + m)
  {
    HighLow(v, n);
    HighLow(High(v, n), m);
    Pow2Add(n, m);
    hide High, Low, Pow2;
    var h, x, y := High(High(v, n), m), Low(High(v, n), m), Low(v, n);
    MulAdd(Pow2(n), x, h * Pow2(m));
    MulAssoc(h, Pow2(m), Pow2(n));
    MulLe(x, Pow2(n), Pow2(m) - 1, Pow2(n));
    MulSub(Pow2(n), Pow2(m), 1);
    HighLowUnique(y + x * Pow2(n), h, n + m);
  }
}
