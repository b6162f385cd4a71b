/** The fixed trees (section 3.2.6 of RFC 1951), which tr_static_init builds with gen_codes. */
module StaticTrees {
  import opened Bits
  import opened BitOrder
  import opened Alphabet
  import opened HuffmanTheory
  import opened LengthRepair
  import opened CanonicalCodes
  import opened DeflateState
  import opened TreeLengths
  import opened TreeCodes
  import opened BlockTrees
  import opened Sums
  import Codebook

  /** The fixed tree has 288 codes, two more than there are symbols, so that it is complete. */
  const FIXED_CODES: nat := 288

  function StaticLen(n: nat): nat {
    if n <= 143 then 8 else if n <= 255 then 9 else if n <= 279 then 7 else 8
  }

  function Upto(n: nat): (a: set<nat>)
    ensures forall i: nat :: i in a <==> i < n
  {
    if n == 0 then {} else Upto(n - 1) + {n - 1}
  }

  /** The symbols below n have their lengths, and c counts them. */
  ghost predicate LensTo(l: seq<nat>, c: seq<nat>, n: nat) {
    && |l| == FIXED_CODES && |c| == MAX_BITS + 1 && n <= FIXED_CODES
    && Counts(Upto(n), l, c) && forall i :: 0 <= i < n ==> l[i] == StaticLen(i)
  }

  /** One of the four loops. */
  method FillLens(len: array<nat>, blCount: array<nat>, from: nat, to: nat, bits: nat)
    requires len != blCount && from <= to <= FIXED_CODES && bits <= MAX_BITS && LensTo(len[..], blCount[..], from)
    requires forall n :: from <= n < to ==> StaticLen(n) == bits
    modifies len, blCount
    ensures LensTo(len[..], blCount[..], to)
    ensures blCount[..] == old(blCount[..])[bits := old(blCount[bits]) + (to - from)]
  {
    hide Counts, StaticLen, Upto;
    ghost var c0 := blCount[..];
    var n: nat := from;
    assert c0[bits := c0[bits] + 0] == c0;
    while n < to
      invariant from <= n <= to && LensTo(len[..], blCount[..], n)
      invariant blCount[..] == c0[bits := c0[bits] + (n - from)]
    {
      ghost var l, c := len[..], blCount[..];
      len[n] := bits;
      blCount[bits] := blCount[bits] + 1;
      assert len[..] == l[n := bits] && blCount[..] == c[bits := c[bits] + 1];
      LensNext(l, c, n, bits);
      n := n + 1;
    }
  }

  lemma LensNext(l: seq<nat>, c: seq<nat>, n: nat, bits: nat)
    requires LensTo(l, c, n) && n < FIXED_CODES && bits == StaticLen(n) && bits <= MAX_BITS
    ensures LensTo(l[n := bits], c[bits := c[bits] + 1], n + 1)
  {
    hide Counts, StaticLen;
    CountsSame(Upto(n), l, l[n := bits], c);
    CountsGrow(Upto(n), l[n := bits], c, n);
  }

  lemma LensStart(l: seq<nat>)
    requires |l| == FIXED_CODES
    ensures LensTo(l, seq(MAX_BITS + 1, i => 0), 0)
  {
    forall b | 0 <= b <= MAX_BITS
      ensures CountAt({}, l, b) == 0
    {
      EmptySum(IsLength(l, b), |l|);
    }
  }

  /** 24 codes of length 7, 152 of length 8 and 112 of length 9 fill 2^15 exactly. */
  lemma StaticKraft(c: seq<nat>)
    requires c == seq(MAX_BITS + 1, i => 0)[8 := 152][9 := 112][7 := 24]
    ensures KraftTo(c, MAX_BITS, MAX_BITS + 1) == Pow2(MAX_BITS)
  {
    OnlyMax(c, MAX_BITS, 7);
    PowSmall();
    Pow2Values();
    assert KraftTo(c, MAX_BITS, 8) == KraftTo(c, MAX_BITS, 7) + c[7] * Pow2(8);
    assert KraftTo(c, MAX_BITS, 9) == KraftTo(c, MAX_BITS, 8) + c[8] * Pow2(7);
    assert KraftTo(c, MAX_BITS, 10) == KraftTo(c, MAX_BITS, 9) + c[9] * Pow2(6);
    NothingAbove(c, MAX_BITS, 10, MAX_BITS + 1);
  }

  lemma {:induction false} NothingAbove(c: seq<nat>, max: nat, m: nat, n: nat)
    requires m <= n <= max + 1 && n <= |c| && forall b :: m <= b < n ==> c[b] == 0
    ensures KraftTo(c, max, n) == KraftTo(c, max, m)
  {
    if m < n {
      NothingAbove(c, max, m, n - 1);
    }
  }

  method StaticLitTree() returns (code: array<nat>, len: array<nat>, ghost c: seq<nat>)
    ensures fresh(code) && fresh(len) && code != len
    ensures Ready(Upto(FIXED_CODES), FIXED_CODES, 9, code[..], len[..], c)
    ensures code.Length == len.Length == FIXED_CODES && forall n :: 0 <= n < FIXED_CODES ==> len[n] == StaticLen(n)
  {
    hide Counts, Codable, KraftTo, CodesSet, Upto, LensTo;
    code := new nat[FIXED_CODES](i => 0);
    var blCount;
    len, blCount := FixedLengths();
    c := blCount[..];
    StaticKraft(c);
    StaticCodable(len[..], c);
    LensAll(len[..], c);
    GenCodes(code, len, FIXED_CODES - 1, blCount, Upto(FIXED_CODES));
  }

  /** The four loops over the lengths. */
  method FixedLengths() returns (len: array<nat>, blCount: array<nat>)
    ensures fresh(len) && fresh(blCount) && len != blCount && len.Length == FIXED_CODES && blCount.Length == MAX_BITS + 1
    ensures LensTo(len[..], blCount[..], FIXED_CODES) && blCount[..] == seq(MAX_BITS + 1, i => 0)[8 := 152][9 := 112][7 := 24]
  {
    hide LensTo;
    len := new nat[FIXED_CODES](i => 0);
    blCount := new nat[MAX_BITS + 1](i => 0);
    assert blCount[..] == seq(MAX_BITS + 1, i => 0);
    LensStart(len[..]);
    FillLens(len, blCount, 0, 144, 8);
    FillLens(len, blCount, 144, 256, 9);
    FillLens(len, blCount, 256, 280, 7);
    FillLens(len, blCount, 280, 288, 8);
  }

  lemma LensAll(l: seq<nat>, c: seq<nat>)
    requires LensTo(l, c, FIXED_CODES)
    ensures |l| == FIXED_CODES && |c| == MAX_BITS + 1
    ensures forall i :: 0 <= i < FIXED_CODES ==> l[i] == StaticLen(i) && l[i] != 0 && i in Upto(FIXED_CODES)
    ensures forall i :: i in Upto(FIXED_CODES) ==> i <= FIXED_CODES - 1
  {
    hide Counts;
  }

  lemma StaticCodable(l: seq<nat>, c: seq<nat>)
    requires LensTo(l, c, FIXED_CODES) && c[0] == 0 && KraftTo(c, MAX_BITS, MAX_BITS + 1) <= Pow2(MAX_BITS)
    ensures Codable(Upto(FIXED_CODES), l, c, MAX_BITS)
  {
    hide Counts, KraftTo, Pow2;
  }

  /** The fixed distance tree: five bits each. */
  method StaticDistTree() returns (code: array<nat>, len: array<nat>)
    ensures fresh(code) && fresh(len) && code != len && code.Length == len.Length == D_CODES
    ensures forall n :: 0 <= n < D_CODES ==> len[n] == 5 && code[n] == Reversed(n, 5)
  {
    code := new nat[D_CODES](i => 0);
    len := new nat[D_CODES](i => 0);
    var n: nat := 0;
    hide Reversed;
    while n < D_CODES
      invariant n <= D_CODES && forall i :: 0 <= i < n ==> len[i] == 5 && code[i] == Reversed(i, 5)
    {
      len[n] := 5;
      var r := BiReverse(n, 5);
      code[n] := r;
      n := n + 1;
    }
  }

  /** Every symbol has a fixed code word. */
  lemma StaticHas(code: seq<nat>, len: seq<nat>, c: seq<nat>, dcode: seq<nat>, dlen: seq<nat>)
    requires Ready(Upto(FIXED_CODES), FIXED_CODES, 9, code, len, c)
    requires |dcode| == |dlen| == D_CODES && forall n :: 0 <= n < D_CODES ==> dlen[n] == 5 && dcode[n] == Reversed(n, 5)
    ensures forall n :: 0 <= n < FIXED_CODES ==> Codebook.Code(code, len).Has(n)
    ensures forall n :: 0 <= n < D_CODES ==> Codebook.Code(dcode, dlen).Has(n)
  {
    hide Ready, Reversed;
    forall n | 0 <= n < FIXED_CODES
      ensures Codebook.Code(code, len).Has(n)
    {
      ReadyHas(Upto(FIXED_CODES), FIXED_CODES, 9, code, len, c, n);
    }
    forall n | 0 <= n < D_CODES
      ensures Codebook.Code(dcode, dlen).Has(n)
    {
      ReversedBelow(n, 5);
    }
  }
}
