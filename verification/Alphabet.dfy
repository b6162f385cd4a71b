/**
 The symbols for match lengths and distances: tr_static_init fills the tables of the encoder;
 the decoder has its own, cplens and cpdist.
 */
module Alphabet {
  import opened Bits

  const LENGTH_CODES: nat := 29
  const D_CODES: nat := 30
  const LITERALS: nat := 256
  const END_BLOCK: nat := 256
  const L_CODES: nat := 286

  function ExtraLbits(): (s: seq<nat>)
    ensures |s| == LENGTH_CODES
  {
    [0, 0, 0, 0, 0, 0, 0, 0, 1, 1, 1, 1, 2, 2, 2, 2, 3, 3, 3, 3, 4, 4, 4, 4, 5, 5, 5, 5, 0]
  }

  function ExtraDbits(): (s: seq<nat>)
    ensures |s| == D_CODES
  {
    [0, 0, 0, 0, 1, 1, 2, 2, 3, 3, 4, 4, 5, 5, 6, 6, 7, 7, 8, 8, 9, 9, 10, 10, 11, 11, 12, 12, 13, 13]
  }

  /** cplens: what the decoder adds the extra bits of a length symbol to; 0 where the symbol is invalid. */
  function Cplens(): (s: seq<nat>)
    ensures |s| == 31
  {
    [3, 4, 5, 6, 7, 8, 9, 10, 11, 13, 15, 17, 19, 23, 27, 31,
     35, 43, 51, 59, 67, 83, 99, 115, 131, 163, 195, 227, 258, 0, 0]
  }

  /** cplext: the extra bits of a length symbol; 112 where the symbol is invalid. */
  function Cplext(): (s: seq<nat>)
    ensures |s| == 31
  {
    [0, 0, 0, 0, 0, 0, 0, 0, 1, 1, 1, 1, 2, 2, 2, 2, 3, 3, 3, 3, 4, 4, 4, 4, 5, 5, 5, 5, 0, 112, 112]
  }

  /** cpdist */
  function Cpdist(): (s: seq<nat>)
    ensures |s| == D_CODES
  {
    [1, 2, 3, 4, 5, 7, 9, 13, 17, 25, 33, 49, 65, 97, 129, 193,
     257, 385, 513, 769, 1025, 1537, 2049, 3073, 4097, 6145, 8193, 12289, 16385, 24577]
  }

  /** cpdext */
  function Cpdext(): (s: seq<nat>)
    ensures |s| == D_CODES
  {
    [0, 0, 0, 0, 1, 1, 2, 2, 3, 3, 4, 4, 5, 5, 6, 6, 7, 7, 8, 8, 9, 9, 10, 10, 11, 11, 12, 12, 13, 13]
  }

  /** The first value of each code: codes take 2^extra values each, one after the other. */
  function Base(extra: seq<nat>, code: nat): nat
    requires code <= |extra|
  {
    if code == 0 then 0 else Base(extra, code - 1) + Pow2(extra[code - 1])
  }

  /** The last code below n whose first value does not exceed v. */
  function CodeOf(extra: seq<nat>, v: nat, n: nat): (c: nat)
    requires n <= |extra|
    ensures n > 0 ==> c < n
    ensures n > 0 ==> Base(extra, c) <= v
    ensures n > 0 && v < Base(extra, n) ==> v < Base(extra, c + 1)
  {
    if n == 0 then 0 else if Base(extra, n - 1) <= v then n - 1 else CodeOf(extra, v, n - 1)
  }

  lemma {:induction false} BaseMonotone(extra: seq<nat>, c: nat, n: nat)
    requires c <= n <= |extra|
    ensures Base(extra, c) <= Base(extra, n)
  {
    if c < n {
      BaseMonotone(extra, c, n - 1);
    }
  }

  /** Only one code has v among its values. */
  lemma {:induction false} CodeOfUnique(extra: seq<nat>, v: nat, n: nat, c: nat)
    requires c < n <= |extra| && Base(extra, c) <= v < Base(extra, c + 1)
    ensures CodeOf(extra, v, n) == c
  {
    if c + 1 < n {
      BaseMonotone(extra, c + 1, n - 1);
      CodeOfUnique(extra, v, n - 1, c);
    }
  }

  /** The length symbol (less LITERALS + 1) for length lc + 3; the longest has a symbol to itself. */
  function LengthCode(lc: nat): (c: nat)
    ensures c <= 28
  {
    if lc == 255 then 28 else CodeOf(ExtraLbits(), lc, 28)
  }

  /** The distance symbol for distance d + 1. */
  function DistCode(d: nat): (c: nat)
    ensures c < D_CODES
  {
    CodeOf(ExtraDbits(), d, D_CODES)
  }

  // ----- the values of the tables

  lemma PowSmall()
    ensures Pow2(0) == 1 && Pow2(1) == 2 && Pow2(2) == 4 && Pow2(3) == 8 && Pow2(4) == 16 && Pow2(5) == 32 && Pow2(6) == 64
    ensures Pow2(7) == 128 && Pow2(8) == 256 && Pow2(9) == 512 && Pow2(10) == 1024 && Pow2(11) == 2048
    ensures Pow2(12) == 4096 && Pow2(13) == 8192
  {
    Pow2Values();
  }

  lemma BaseStart(e: seq<nat>)
    ensures Base(e, 0) == 0
  {
  }

  lemma BaseStep(e: seq<nat>, c: nat)
    requires c < |e|
    ensures Base(e, c + 1) == Base(e, c) + Pow2(e[c])
  {
  }

  lemma LbitsAt(c: nat)
    requires c < LENGTH_CODES
    ensures ExtraLbits()[c] == (if c < 8 || c == 28 then 0 else c / 4 - 1) <= 5
    ensures Cplext()[c] == ExtraLbits()[c]
  {
  }

  lemma CplensStep(c: nat)
    requires c < 28
    ensures Cplens()[0] == 3 && Cplens()[27] == 227 && Cplens()[28] == 258
    ensures c < 27 ==> Cplens()[c + 1] == Cplens()[c] + Pow2(if c < 8 then 0 else c / 4 - 1)
  {
    PowSmall();
  }

  /** The decoder's base of a length symbol is the encoder's plus 3. */
  lemma {:induction false} LengthBases(c: nat)
    requires c < 28
    ensures Base(ExtraLbits(), c) + 3 == Cplens()[c] && ExtraLbits()[c] == Cplext()[c] <= 5
  {
    hide Base, Cplens, ExtraLbits, Cplext, Pow2;
    LbitsAt(c);
    CplensStep(c);
    BaseStart(ExtraLbits());
    if c > 0 {
      LengthBases(c - 1);
      LbitsAt(c - 1);
      CplensStep(c - 1);
      BaseStep(ExtraLbits(), c - 1);
    }
  }

  /** All lengths up to 258 have a symbol. */
  lemma LengthsCovered()
    ensures Base(ExtraLbits(), 28) == 256
  {
    hide Base, Cplens, ExtraLbits, Cplext;
    LengthBases(27);
    LbitsAt(27);
    CplensStep(27);
    BaseStep(ExtraLbits(), 27);
    PowSmall();
  }

  lemma DbitsAt(c: nat)
    requires c < D_CODES
    ensures ExtraDbits()[c] == (if c < 4 then 0 else c / 2 - 1) <= 13
    ensures Cpdext()[c] == ExtraDbits()[c]
  {
  }

  lemma CpdistStep(c: nat)
    requires c < D_CODES
    ensures Cpdist()[0] == 1 && Cpdist()[16] == 257 && Cpdist()[29] == 24577
    ensures c < 29 ==> Cpdist()[c + 1] == Cpdist()[c] + Pow2(if c < 4 then 0 else c / 2 - 1)
  {
    PowSmall();
  }

  /** The decoder's base of a distance symbol is the encoder's plus 1. */
  lemma {:induction false} DistBases(c: nat)
    requires c < D_CODES
    ensures Base(ExtraDbits(), c) + 1 == Cpdist()[c] && ExtraDbits()[c] <= 13
    ensures c >= 16 ==> ExtraDbits()[c] >= 7
  {
    hide Base, Cpdist, ExtraDbits, Pow2;
    DbitsAt(c);
    CpdistStep(c);
    BaseStart(ExtraDbits());
    if c > 0 {
      DistBases(c - 1);
      DbitsAt(c - 1);
      CpdistStep(c - 1);
      BaseStep(ExtraDbits(), c - 1);
    }
  }

  /** All distances up to 32768 have a symbol. */
  lemma DistancesCovered()
    ensures Base(ExtraDbits(), 16) == 256 && Base(ExtraDbits(), D_CODES) == 32768
  {
    hide Base, Cpdist, ExtraDbits;
    DistBases(16);
    DistBases(29);
    DbitsAt(29);
    CpdistStep(29);
    BaseStep(ExtraDbits(), 29);
    PowSmall();
  }

  // ----- tr_static_init

  /** d_code: a distance below 256 indexes the table directly, others in steps of 128. */
  function DCode(table: seq<nat>, d: nat): nat
    requires |table| == 512 && d < 32768
  {
    if d < 256 then table[d] else table[256 + d / 128]
  }

  /** The tables of the encoder hold the code of every length and distance. */
  datatype Tables = Tables(lengthCode: seq<nat>, baseLength: seq<nat>, distCode: seq<nat>, baseDist: seq<nat>) {
    ghost predicate Valid() {
      && |lengthCode| == 256 && |baseLength| == LENGTH_CODES && |distCode| == 512 && |baseDist| == D_CODES
      && (forall lc :: 0 <= lc < 256 ==> lengthCode[lc] == LengthCode(lc))
      && (forall c :: 0 <= c < 28 ==> baseLength[c] == Base(ExtraLbits(), c))
      && (forall d :: 0 <= d < 32768 ==> DCode(distCode, d) == DistCode(d))
      && (forall c :: 0 <= c < D_CODES ==> baseDist[c] == Base(ExtraDbits(), c))
    }
  }

  /** Fill the entries for the values of one code. */
  method FillCode(table: array<nat>, from: nat, count: nat, code: nat)
    requires from + count <= table.Length
    modifies table
    ensures forall i :: 0 <= i < table.Length ==> table[i] == if from <= i < from + count then code else old(table[i])
  {
    var n: nat := 0;
    while n < count
      invariant n <= count
      invariant forall i :: 0 <= i < table.Length ==> table[i] == if from <= i < from + n then code else old(table[i])
    {
      table[from + n] := code;
      n := n + 1;
    }
  }

  /** The entries below v hold the code of their index. */
  ghost predicate Filled(table: seq<nat>, extra: seq<nat>, n: nat, v: nat)
    requires n <= |extra|
  {
    v <= |table| && forall i :: 0 <= i < v ==> table[i] == CodeOf(extra, i, n)
  }

  ghost predicate BasesSet(bases: seq<nat>, extra: seq<nat>, code: nat) {
    code <= |extra| && code <= |bases| && forall c :: 0 <= c < code ==> bases[c] == Base(extra, c)
  }

  /** One code's share of a table. */
  method FillNext(table: array<nat>, bases: array<nat>, extra: seq<nat>, code: nat, n: nat, value: nat) returns (value': nat)
    requires table != bases && code < n <= |extra| && code < bases.Length && value == Base(extra, code)
    requires Base(extra, code + 1) <= table.Length
    requires Filled(table[..], extra, n, value) && BasesSet(bases[..], extra, code)
    modifies table, bases
    ensures value' == Base(extra, code + 1) && Filled(table[..], extra, n, value') && BasesSet(bases[..], extra, code + 1)
  {
    hide CodeOf, Base, Pow2;
    BaseStep(extra, code);
    bases[code] := value;
    FillCode(table, value, Pow2(extra[code]), code);
    value' := value + Pow2(extra[code]);
    forall i | value <= i < value'
      ensures CodeOf(extra, i, n) == code
    {
      CodeOfUnique(extra, i, n, code);
    }
  }

  method InitLengths() returns (lengthCode: array<nat>, baseLength: array<nat>)
    ensures fresh(lengthCode) && fresh(baseLength) && lengthCode.Length == 256 && baseLength.Length == LENGTH_CODES
    ensures forall lc :: 0 <= lc < 256 ==> lengthCode[lc] == LengthCode(lc)
    ensures forall c :: 0 <= c < 28 ==> baseLength[c] == Base(ExtraLbits(), c)
  {
    hide CodeOf, Base, ExtraLbits;
    lengthCode := new nat[256](i => 0);
    baseLength := new nat[LENGTH_CODES](i => 0);
    var extra := ExtraLbits();
    var length: nat := 0;
    var code: nat := 0;
    BaseStart(extra);
    LengthsCovered();
    while code < LENGTH_CODES - 1
      invariant code <= 28 && length == Base(extra, code)
      invariant Filled(lengthCode[..], extra, 28, length) && BasesSet(baseLength[..], extra, code)
    {
      BaseMonotone(extra, code + 1, 28);
      length := FillNext(lengthCode, baseLength, extra, code, 28, length);
      code := code + 1;
    }
    lengthCode[length - 1] := code;
  }

  /** The entries from 256 on that stand for the distances below 128 * e. */
  ghost predicate FilledHigh(table: seq<nat>, extra: seq<nat>, e: nat)
    requires D_CODES <= |extra|
  {
    |table| == 512 && e <= 256
    && (forall d :: 0 <= d < 256 ==> table[d] == CodeOf(extra, d, D_CODES))
    && forall d :: 256 <= d < 128 * e ==> table[256 + d / 128] == CodeOf(extra, d, D_CODES)
  }

  lemma Steps(x: nat)
    requires x >= 7
    ensures Pow2(x) == 128 * Pow2(x - 7)
  {
    Pow2Add(7, x - 7);
    Pow2Values();
  }

  /** One distance code's share of the upper half. */
  method FillHigh(table: array<nat>, bases: array<nat>, extra: seq<nat>, code: nat, dist: nat) returns (dist': nat)
    requires table != bases && |extra| == D_CODES == bases.Length && code < D_CODES && extra[code] >= 7
    requires 128 * dist == Base(extra, code) && Base(extra, code + 1) <= 32768 && dist >= 2
    requires FilledHigh(table[..], extra, dist) && BasesSet(bases[..], extra, code)
    modifies table, bases
    ensures 128 * dist' == Base(extra, code + 1) && dist' > dist
    ensures FilledHigh(table[..], extra, dist') && BasesSet(bases[..], extra, code + 1)
  {
    hide CodeOf, Base, Pow2;
    BaseStep(extra, code);
    Steps(extra[code]);
    bases[code] := 128 * dist;
    FillCode(table, 256 + dist, Pow2(extra[code] - 7), code);
    dist' := dist + Pow2(extra[code] - 7);
    forall d | 128 * dist <= d < 128 * dist'
      ensures CodeOf(extra, d, D_CODES) == code && dist <= d / 128 < dist'
    {
      CodeOfUnique(extra, d, D_CODES, code);
    }
  }

  method InitDistances() returns (distCode: array<nat>, baseDist: array<nat>)
    ensures fresh(distCode) && fresh(baseDist) && distCode.Length == 512 && baseDist.Length == D_CODES
    ensures forall d :: 0 <= d < 32768 ==> DCode(distCode[..], d) == DistCode(d)
    ensures forall c :: 0 <= c < D_CODES ==> baseDist[c] == Base(ExtraDbits(), c)
  {
    hide CodeOf, Base, ExtraDbits;
    distCode := new nat[512](i => 0);
    baseDist := new nat[D_CODES](i => 0);
    var extra := ExtraDbits();
    var dist: nat := 0;
    var code: nat := 0;
    BaseStart(extra);
    DistancesCovered();
    while code < 16
      invariant code <= 16 && dist == Base(extra, code)
      invariant Filled(distCode[..], extra, D_CODES, dist) && BasesSet(baseDist[..], extra, code)
    {
      BaseMonotone(extra, code + 1, 16);
      dist := FillNext(distCode, baseDist, extra, code, D_CODES, dist);
      code := code + 1;
    }
    dist := dist / 128;
    while code < D_CODES
      invariant 16 <= code <= D_CODES && 2 <= dist && 128 * dist == Base(extra, code)
      invariant FilledHigh(distCode[..], extra, dist) && BasesSet(baseDist[..], extra, code)
    {
      DistBases(code);
      BaseMonotone(extra, code + 1, D_CODES);
      dist := FillHigh(distCode, baseDist, extra, code, dist);
      code := code + 1;
    }
  }

  /** The tables that tr_static_init sets up. */
  method TrStaticInit() returns (t: Tables)
    ensures t.Valid()
  {
    hide LengthCode, DistCode, Base, DCode;
    var lengthCode, baseLength := InitLengths();
    var distCode, baseDist := InitDistances();
    t := Tables(lengthCode[..], baseLength[..], distCode[..], baseDist[..]);
  }
}
