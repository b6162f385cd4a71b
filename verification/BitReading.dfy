/**
 The bit buffer of inflate: bytes are or-ed in above the bits held (NEEDBITS, GRABBITS) and
 bits are shifted out below (DUMPBITS).  UNGRAB hands whole bytes back but leaves their bits
 in the buffer; or-ing the same bytes in again later changes nothing.
 */
module BitReading {
  import opened Arith
  import opened Bits
  import opened BitOrder
  import opened BitWriting

  lemma OrZero(a: nat)
    ensures Or(a, 0) == a && Or(0, a) == a
  {
  }

  /** Or-ing in low bits that are there already changes nothing. */
  lemma {:induction false} OrInside(x: nat, h: nat, n: nat)
    requires x < Pow2(n)
    ensures Or(x + h * Pow2(n), x) == x + h * Pow2(n)
    decreases n
  {
    if n == 0 {
      OrZero(h);
    } else {
      var p := Pow2(n - 1);
      MulAssoc(h, 2, p);
      var a := x + h * Pow2(n);
      assert a % 2 == x % 2 && a / 2 == x / 2 + h * p;
      OrInside(x / 2, h, n - 1);
      if x == 0 {
        OrZero(a);
      } else {
        OrStep(a, x);
      }
    }
  }

  lemma OrStep(a: nat, b: nat)
    ensures Or(a, b) == (if a % 2 == 1 || b % 2 == 1 then 1 else 0) + 2 * Or(a / 2, b / 2)
  {
    if a == 0 {
      OrZero(b);
      OrZero(b / 2);
    } else if b == 0 {
      OrZero(a);
      OrZero(a / 2);
    }
  }

  /** Or-ing in above the k low bits leaves those alone. */
  lemma {:induction false} OrShifted(b: nat, x: nat, k: nat)
    ensures Or(b, x * Pow2(k)) == Low(b, k) + Or(High(b, k), x) * Pow2(k)
    decreases k
  {
    if k == 0 {
      HighLow(b, 0);
    } else {
      var p := Pow2(k - 1);
      OrStep(b, x * Pow2(k));
      MulAssoc(x, 2, p);
      assert (x * Pow2(k)) % 2 == 0 && (x * Pow2(k)) / 2 == x * p;
      OrShifted(b / 2, x, k - 1);
      HalfParts(b, k);
      var o := Or(High(b, k), x);
      MulAssoc(o, 2, p);
    }
  }

  lemma HalfParts(b: nat, k: nat)
    requires k > 0
    ensures High(b / 2, k - 1) == High(b, k) && Low(b, k) == b % 2 + 2 * Low(b / 2, k - 1)
  {
    HighLow(b / 2, k - 1);
    var h, l, p := High(b / 2, k - 1), Low(b / 2, k - 1), Pow2(k - 1);
    assert Pow2(k) == 2 * p;
    MulAssoc(h, 2, p);
    hide High, Low, Pow2;
    HighLowUnique(b % 2 + 2 * l, h, k);
  }

  lemma ByteBitsSplit(s: seq<byte>, i: nat)
    requires i <= |s|
    ensures ByteBits(s) == ByteBits(s[..i]) + ByteBits(s[i..])
  {
    hide ByteBits;
    ByteBitsConcat(s[..i], s[i..]);
    assert s[..i] + s[i..] == s;
  }

  lemma OneByte(x: byte)
    ensures ByteBits([x]) == LowBits(x, 8)
  {
    assert [x][..0] == [];
    assert ByteBits([]) + LowBits(x, 8) == LowBits(x, 8);
  }

  lemma LowBitsLow(v: nat, n: nat)
    ensures LowBits(Low(v, n), n) == LowBits(v, n)
  {
    SplitBits(v, n, 0);
    assert LowBits(Low(v, n), n) + LowBits(High(v, n), 0) == LowBits(Low(v, n), n);
  }

  /** The whole bytes among the bits held, as far as they are from this input. */
  function Whole(k: nat, p: nat): (c: nat)
    ensures c <= p && 8 * c <= k
  {
    if k / 8 <= p then k / 8 else p
  }

  /** The last of the bits held are the last whole bytes read. */
  ghost predicate Recent(held: seq<bool>, done: seq<byte>) {
    var c := Whole(|held|, |done|); held[|held| - 8 * c..] == ByteBits(done[|done| - c..])
  }

  lemma RecentNone(held: seq<bool>, done: seq<byte>)
    requires held == [] || done == []
    ensures Recent(held, done)
  {
  }

  lemma RecentPut(held: seq<bool>, done: seq<byte>, x: byte)
    requires Recent(held, done)
    ensures Recent(held + LowBits(x, 8), done + [x])
  {
    hide ByteBits, LowBits;
    var c := Whole(|held|, |done|);
    var held', done' := held + LowBits(x, 8), done + [x];
    assert Whole(|held'|, |done'|) == c + 1;
    assert done'[|done'| - (c + 1)..] == done[|done| - c..] + [x];
    ByteBitsPut(done[|done| - c..], x);
    assert held'[|held'| - 8 * (c + 1)..] == held[|held| - 8 * c..] + LowBits(x, 8);
  }

  lemma RecentDrop(held: seq<bool>, done: seq<byte>, j: nat)
    requires Recent(held, done) && j <= |held|
    ensures Recent(held[j..], done)
  {
    hide ByteBits, Whole;
    var c, c' := Whole(|held|, |done|), Whole(|held| - j, |done|);
    WholeLess(|held|, j, |done|);
    var last := done[|done| - c..];
    ByteBitsSplit(last, c - c');
    assert last[c - c'..] == done[|done| - c'..];
    assert held[j..][|held| - j - 8 * c'..] == held[|held| - 8 * c..][8 * (c - c')..];
  }

  lemma WholeLess(k: nat, j: nat, p: nat)
    requires j <= k
    ensures Whole(k - j, p) <= Whole(k, p)
  {
  }

  class BitReader {
    var b: nat
    var k: nat
    var input: seq<byte>
    var p: nat
    ghost var extra: nat

    /** The bits above the k that count are those of the next `extra` bytes, all of it fits 32 bits, and below them are the last
        bytes read. */
    ghost predicate Valid()
      reads this
    {
      && p + extra <= |input| && High(b, k) == FromLow(ByteBits(input[p..p + extra])) && k + 8 * extra <= 32
      && Recent(LowBits(b, k), input[..p])
    }

    /** Ten bytes of input are 80 bits to come. */
    lemma TenBytes()
      requires Valid() && p + 10 <= |input|
      ensures |Ahead()| >= 80
    {
      assert |ByteBits(input[p..])| == 8 * (|input| - p);
    }

    lemma InInput()
      requires Valid()
      ensures p <= |input|
    {
    }

    /** So b never outgrows an unsigned 32-bit variable, and or-ing in never overflows. */
    lemma Fits32()
      requires Valid()
      ensures b < Pow2(32)
    {
      hide LowBits, High, Low, FromLow, ByteBits, Pow2;
      var bits := ByteBits(input[p..p + extra]);
      LowFromLow(bits);
      HighLow(b, k);
      Pow2Add(k, 8 * extra);
      Pow2Monotone(k + 8 * extra, 32);
      MulLe(High(b, k) + 1, Pow2(k), Pow2(8 * extra), Pow2(k));
      MulAdd(Pow2(k), High(b, k), 1);
    }

    /** The bits to come: those held, then those of the input left. */
    ghost function Ahead(): seq<bool>
      requires p <= |input|
      reads this
    {
      LowBits(b, k) + ByteBits(input[p..])
    }

    /** Fewer than eight of the bits held are from before this input. */
    predicate InHand()
      reads this`k, this`p
    {
      k < 8 * p + 8
    }

    constructor ()
      ensures Valid() && Ahead() == [] && k == 0 && p == |input|
    {
      b, k, input, p, extra := 0, 0, [], 0, 0;
      new;
      Empty();
    }

    lemma Empty()
      requires b == 0 && k == 0 && input == [] && p == 0 && extra == 0
      ensures Valid() && Ahead() == []
    {
      HighLowUnique(0, 0, 0);
    }

    /** New input, once the last is used up. */
    method Supply(chunk: seq<byte>)
      requires Valid() && p == |input|
      modifies this`input, this`p
      ensures Valid() && Ahead() == old(Ahead()) + ByteBits(chunk) && k == old(k) && input == chunk && p == 0
    {
      hide Recent;
      assert input[p..] == [] && chunk[0..] == chunk && input[p..p + extra] == [];
      input, p := chunk, 0;
      assert input[0..0] == [] && input[..0] == [];
      RecentNone(LowBits(b, k), []);
    }

    /** b |= NEXTBYTE << k; k += 8 */
    method NextByte()
      requires Valid() && p < |input| && k <= 24
      modifies this`b, this`k, this`p, this`extra
      ensures Valid() && Ahead() == old(Ahead()) && k == old(k) + 8 && p == old(p) + 1
      ensures old(InHand()) ==> InHand()
    {
      hide Or, LowBits, High, Low, FromLow, ByteBits, Pow2, Recent;
      ghost var x, h, rest := input[p], High(b, k), input[p..];
      ghost var bits0, done := LowBits(b, k), input[..p];
      NewByte(b, k, x, input[p..p + extra]);
      b := Or(b, input[p] * Pow2(k));
      k := k + 8;
      p := p + 1;
      if extra > 0 {
        assert input[p - 1..p - 1 + extra][1..] == input[p..p + (extra - 1)];
        extra := extra - 1;
      } else {
        assert input[p..p + 0] == [];
      }
      ByteBitsSplit(rest, 1);
      OneByte(x);
      assert rest[..1] == [x] && rest[1..] == input[p..];
      assert bits0 + (LowBits(x, 8) + ByteBits(input[p..])) == (bits0 + LowBits(x, 8)) + ByteBits(input[p..]);
      RecentPut(bits0, done, x);
      assert input[..p] == done + [x];
    }

    /** The buffer after the byte is or-ed in, whether its bits were there already or not. */
    lemma NewByte(b: nat, k: nat, x: byte, left: seq<byte>)
      requires High(b, k) == FromLow(ByteBits(left)) && (|left| > 0 ==> left[0] == x)
      ensures var b' := Or(b, x * Pow2(k));
              && LowBits(b', k + 8) == LowBits(b, k) + LowBits(x, 8)
              && High(b', k + 8) == FromLow(ByteBits(if |left| > 0 then left[1..] else []))
    {
      hide Or, LowBits, High, Low, FromLow, ByteBits, Pow2;
      OrShifted(b, x, k);
      var h := if |left| > 0 then FromLow(ByteBits(left[1..])) else 0;
      LeftHigh(left, x, h);
      EmptyLow();
      PowEight();
      HighLow(b, k);
      LowBitsLow(b, k);
      var l, b' := Low(b, k), Or(b, x * Pow2(k));
      assert b' == l + (x + h * Pow2(8)) * Pow2(k);
      HighLowUnique(l, x + h * Pow2(8), k);
      SplitBits(b', k, 8);
      HighLowUnique(x, h, 8);
      HighHigh(b', k, 8);
      LowBitsLow(x + h * Pow2(8), 8);
    }

    lemma EmptyLow()
      ensures FromLow(ByteBits([])) == 0
    {
    }

    lemma PowEight()
      ensures Pow2(8) == 256
    {
      Pow2Values();
    }

    lemma LeftHigh(left: seq<byte>, x: byte, h: nat)
      requires |left| > 0 ==> left[0] == x && h == FromLow(ByteBits(left[1..]))
      requires |left| == 0 ==> h == 0
      ensures Or(FromLow(ByteBits(left)), x) == x + h * Pow2(8)
    {
      Pow2Values();
      if |left| > 0 {
        ByteBitsSplit(left, 1);
        OneByte(x);
        assert left[..1] == [x];
        hide LowBits, ByteBits, Or, Pow2;
        FromLowConcat(LowBits(x, 8), ByteBits(left[1..]));
        FromLowBits(x, 8);
        hide FromLow;
        OrInside(x, h, 8);
      } else {
        EmptyLow();
        assert left == [];
        OrZero(x);
      }
    }

    /** NEEDBITS: false when the input runs out first. */
    method NeedBits(j: nat) returns (ok: bool)
      requires Valid() && j <= 24
      modifies this`b, this`k, this`p, this`extra
      ensures Valid() && Ahead() == old(Ahead()) && (ok <==> k >= j)
      ensures !ok ==> p == |input| && |Ahead()| < j
      ensures k >= old(k) && p >= old(p) && (k < j + 8 || k == old(k))
      ensures old(InHand()) ==> InHand()
    {
      hide LowBits, High, ByteBits, FromLow;
      while k < j
        invariant Valid() && Ahead() == old(Ahead()) && k >= old(k) && p >= old(p) && (k < j + 8 || k == old(k))
        invariant old(InHand()) ==> InHand()
      {
        if p == |input| {
          return false;
        }
        NextByte();
      }
      ok := true;
    }

    /** GRABBITS: as NEEDBITS, with no check for the end of the input. */
    method GrabBits(j: nat)
      requires Valid() && j <= 24 && p + 3 <= |input|
      modifies this`b, this`k, this`p, this`extra
      ensures Valid() && Ahead() == old(Ahead()) && k >= j && k >= old(k) && old(p) <= p <= old(p) + 3
      ensures old(InHand()) ==> InHand()
    {
      hide LowBits, High, ByteBits, FromLow;
      while k < j
        invariant Valid() && Ahead() == old(Ahead()) && p >= old(p) && k == old(k) + 8 * (p - old(p))
        invariant p <= old(p) + 3
        invariant old(InHand()) ==> InHand()
      {
        NextByte();
      }
    }

    /** DUMPBITS */
    method DumpBits(j: nat)
      requires Valid() && j <= k
      modifies this`b, this`k
      ensures Valid() && k == old(k) - j && j <= |old(Ahead())| && Ahead() == old(Ahead())[j..]
      ensures old(InHand()) ==> InHand()
    {
      hide LowBits, High, Low, ByteBits, FromLow, Recent;
      SplitBits(b, j, k - j);
      HighHigh(b, j, k - j);
      RecentDrop(LowBits(b, k), input[..p], j);
      assert LowBits(b, k)[j..] == LowBits(High(b, j), k - j);
      assert (LowBits(b, k) + ByteBits(input[p..]))[j..] == LowBits(b, k)[j..] + ByteBits(input[p..]);
      b := High(b, j);
      k := k - j;
    }

    lemma HeldWithin()
      requires Valid()
      ensures k <= 32 && p <= |input| && |Ahead()| == k + 8 * (|input| - p)
    {
      hide LowBits, High, FromLow;
    }

    /** NEEDBITS(32), on a byte boundary. */
    method NeedWord() returns (ok: bool)
      requires Valid() && k % 8 == 0
      modifies this`b, this`k, this`p, this`extra
      ensures Valid() && Ahead() == old(Ahead()) && k % 8 == 0 && (ok <==> k == 32) && (!ok ==> p == |input| && |Ahead()| < 32)
      ensures old(InHand()) ==> InHand()
    {
      hide LowBits, High, ByteBits, FromLow, Valid, Ahead, InHand;
      HeldWithin();
      while k < 32
        invariant Valid() && p <= |input| && Ahead() == old(Ahead()) && k % 8 == 0 && k <= 32
        invariant old(InHand()) ==> InHand()
      {
        if p == |input| {
          HeldWithin();
          return false;
        }
        NextByte();
        HeldWithin();
      }
      ok := true;
    }

    /** b = k = 0, which drops a whole word. */
    method DropWord()
      requires Valid() && k == 32
      modifies this`b, this`k
      ensures Valid() && b == 0 && k == 0 && extra == 0 && 32 <= |old(Ahead())| && Ahead() == old(Ahead())[32..] && InHand()
    {
      hide LowBits, ByteBits;
      assert (LowBits(b, k) + ByteBits(input[p..]))[32..] == ByteBits(input[p..]);
      b, k := 0, 0;
      NoneHeld(input[p..], input[..p]);
      assert input[p..p + 0] == [];
    }

    lemma NoneHeld(s: seq<byte>, t: seq<byte>)
      ensures LowBits(0, 0) + ByteBits(s) == ByteBits(s) && High(0, 0) == FromLow(ByteBits([])) && Recent(LowBits(0, 0), t)
    {
      EmptyLow();
      HighLowUnique(0, 0, 0);
      RecentNone(LowBits(0, 0), t);
    }

    /** p += t, where the input is used without the buffer. */
    method Skip(t: nat)
      requires Valid() && b == 0 && k == 0 && extra == 0 && p + t <= |input|
      modifies this`p
      ensures Valid() && p == old(p) + t && 8 * t <= |old(Ahead())| && Ahead() == old(Ahead())[8 * t..]
      ensures ByteBits(input[old(p)..p]) == old(Ahead())[..8 * t] && InHand()
    {
      hide LowBits, ByteBits;
      ghost var rest := input[p..];
      NoneHeld(rest, input[..p]);
      ByteBitsSplit(rest, t);
      p := p + t;
      assert rest[..t] == input[p - t..p] && rest[t..] == input[p..];
      NoneHeld(input[p..], input[..p]);
      assert input[p..p + 0] == [];
    }

    /** The low j bits, as b & inflate_mask[j]. */
    function Peek(j: nat): nat
      reads this
    {
      Low(b, j)
    }

    /** They are the next bits to come. */
    lemma PeekIs(j: nat)
      requires Valid() && j <= k
      ensures j <= |Ahead()| && Peek(j) == FromLow(Ahead()[..j]) && LowBits(b, k) <= Ahead()
      ensures Peek(j) < Pow2(j)
    {
      hide LowBits, High, Low, ByteBits, FromLow;
      SplitBits(b, j, k - j);
      HighLow(b, j);
      FromLowBits(Low(b, j), j);
      assert Ahead()[..j] == LowBits(Low(b, j), j);
    }

    /** UNGRAB: whole bytes held are handed back, their bits stay where they are.  They must all be from this input. */
    method Ungrab()
      requires Valid() && k / 8 <= p
      modifies this`k, this`p, this`extra
      ensures Valid() && Ahead() == old(Ahead()) && k == old(k) % 8 && p == old(p) - old(k) / 8
    {
      hide LowBits, High, Low, ByteBits, FromLow, Recent;
      var c := k / 8;
      GiveBack(c);
      extra := extra + c;
      p := p - c;
      k := k % 8;
    }

    lemma GiveBack(c: nat)
      requires Valid() && c == k / 8 <= p
      ensures High(b, k % 8) == FromLow(ByteBits(input[p - c..p + extra]))
      ensures LowBits(b, k % 8) + ByteBits(input[p - c..]) == Ahead() && Recent(LowBits(b, k % 8), input[..p - c])
    {
      hide LowBits, High, Low, ByteBits, FromLow;
      var r, back := k % 8, input[p - c..p];
      assert back == input[..p][p - c..];
      Held(b, r, back);
      assert input[p - c..p + extra] == back + input[p..p + extra];
      Stays(b, r, back, input[p..p + extra]);
      assert input[p - c..] == back + input[p..];
      ByteBitsConcat(back, input[p..]);
      assert (LowBits(b, r) + ByteBits(back)) + ByteBits(input[p..]) == LowBits(b, r) + (ByteBits(back) + ByteBits(input[p..]));
      assert input[..p - c][p - c..] == [] && ByteBits([]) == [] by { NoBytes(); }
    }

    lemma NoBytes()
      ensures ByteBits([]) == []
    {
    }
  }

  /** The bits held are r bits, and then those of the bytes to hand back. */
  lemma Held(b: nat, r: nat, back: seq<byte>)
    requires LowBits(b, r + 8 * |back|)[r..] == ByteBits(back)
    ensures LowBits(b, r + 8 * |back|) == LowBits(b, r) + ByteBits(back)
    ensures LowBits(High(b, r), 8 * |back|) == ByteBits(back)
  {
    hide LowBits, High, Low, ByteBits, FromLow;
    SplitBits(b, r, 8 * |back|);
    LowBitsLow(b, r);
  }

  /** Above the r bits lie the bits handed back, then those that were there before. */
  lemma Stays(b: nat, r: nat, back: seq<byte>, left: seq<byte>)
    requires LowBits(High(b, r), 8 * |back|) == ByteBits(back)
    requires High(b, r + 8 * |back|) == FromLow(ByteBits(left))
    ensures High(b, r) == FromLow(ByteBits(back + left))
  {
    hide LowBits, High, Low, ByteBits, FromLow;
    var n := 8 * |back|;
    HighHigh(b, r, n);
    HighLow(High(b, r), n);
    LowBitsLow(High(b, r), n);
    FromLowBits(Low(High(b, r), n), n);
    ByteBitsConcat(back, left);
    FromLowConcat(ByteBits(back), ByteBits(left));
  }

  lemma {:induction false} FromLowConcat(x: seq<bool>, y: seq<bool>)
    ensures FromLow(x + y) == FromLow(x) + FromLow(y) * Pow2(|x|)
    decreases |x|
  {
    if x == [] {
      assert x + y == y;
    } else {
      assert (x + y)[1..] == x[1..] + y;
      FromLowConcat(x[1..], y);
      MulAssoc(FromLow(y), 2, Pow2(|x| - 1));
    }
  }
}
