/**
 The decode tables of inflate.  A table stands for the codes with a common prefix of w bits and
 looks at the next j bits; an entry is a symbol, or a link to the table for l more bits of
 prefix.  Codes are compared by the place where they start in the unit interval, scaled to 2^g.
 */
module HuftTheory {
  import opened Arith
  import opened Bits
  import opened BitOrder
  import opened HuffmanTheory
  import opened LengthRepair
  import opened CanonicalCodes

  /** inflate_huft: operation, bits to drop, and base value or next table.  Memory from ZALLOC starts unset. */
  datatype Huft = Unset | Huft(exop: nat, bits: nat, more: nat)

  /** What a table is for. */
  datatype Meta = Meta(w: nat, prefix: nat, j: nat)

  // ----- places

  /** Where the codes that start with the n bits of v begin. */
  function Pos(v: nat, n: nat, g: nat): nat
    requires n <= g
  {
    v * Pow2(g - n)
  }

  lemma PosMono(a: nat, b: nat, n: nat, g: nat)
    requires n <= g
    ensures a <= b <==> Pos(a, n, g) <= Pos(b, n, g)
    ensures a < b <==> Pos(a, n, g) < Pos(b, n, g)
    ensures Pos(a + 1, n, g) == Pos(a, n, g) + Pow2(g - n)
  {
    var p := Pow2(g - n);
    MulAdd(p, a, 1);
    if a < b { MulLess(a, b, p); }
    if b < a { MulLess(b, a, p); }
  }

  /** Longer prefixes lie within shorter ones. */
  lemma PosNest(v: nat, n: nat, m: nat, g: nat)
    requires m <= n <= g
    ensures Pos(High(v, n - m), m, g) <= Pos(v, n, g) < Pos(v + 1, n, g) <= Pos(High(v, n - m) + 1, m, g)
    ensures Low(v, n - m) == 0 ==> Pos(High(v, n - m), m, g) == Pos(v, n, g)
  {
    HighLow(v, n - m);
    Pow2Add(n - m, g - n);
    hide Pow2, High, Low;
    Nest(v, High(v, n - m), Low(v, n - m), Pow2(n - m), Pow2(g - n));
  }

  lemma Nest(v: nat, h: nat, x: nat, p: nat, q: nat)
    requires v == x + h * p && x < p && q > 0
    ensures h * (p * q) <= v * q < (v + 1) * q <= (h + 1) * (p * q)
    ensures x == 0 ==> h * (p * q) == v * q
  {
    MulAssoc(h, p, q);
    MulAssoc(h + 1, p, q);
    MulAdd(p, h, 1);
    MulLe(h * p, q, v, q);
    MulLe(v + 1, q, (h + 1) * p, q);
    MulAdd(q, v, 1);
  }

  /** A place within the span of a code is that of a longer prefix of the code's, or of a shorter one. */
  lemma SameSpan(f: nat, n: nat, fwd: nat, k: nat, g: nat)
    requires n <= g && k <= g && Pos(fwd, k, g) <= Pos(f, n, g) < Pos(fwd + 1, k, g)
    ensures k <= n ==> High(f, n - k) == fwd
    ensures n <= k ==> High(fwd, k - n) == f
  {
    hide Pos, High;
    if k <= n {
      PosNest(f, n, k, g);
      PosMono(fwd, High(f, n - k) + 1, k, g);
      PosMono(High(f, n - k), fwd + 1, k, g);
    }
    if n <= k {
      PosNest(fwd, k, n, g);
      PosMono(f, High(fwd, k - n) + 1, n, g);
      PosMono(High(fwd, k - n), f + 1, n, g);
      PosMono(High(fwd, k - n), f, n, g);
    }
  }

  // ----- entries

  /** The bits of the prefix, then those of the entry's index, first bit first. */
  function Full(m: Meta, idx: nat): nat {
    m.prefix * Pow2(m.j) + Reversed(idx, m.j)
  }

  lemma FullParts(m: Meta, idx: nat)
    ensures High(Full(m, idx), m.j) == m.prefix && Low(Full(m, idx), m.j) == Reversed(idx, m.j)
  {
    ReversedBelow(idx, m.j);
    HighLowUnique(Reversed(idx, m.j), m.prefix, m.j);
  }

  /** The index pattern for a code of k bits: the low bits of the index are the code's bits after the prefix. */
  lemma CodeAtIndex(m: Meta, idx: nat, fwd: nat, k: nat)
    requires m.w <= k <= m.w + m.j && idx < Pow2(m.j) && High(fwd, k - m.w) == m.prefix
    ensures High(Full(m, idx), m.w + m.j - k) == fwd <==> Low(idx, k - m.w) == Reversed(Low(fwd, k - m.w), k - m.w)
  {
    hide High, Low, Full, Reversed, Pow2;
    var q, r := k - m.w, m.w + m.j - k;
    var full := Full(m, idx);
    FullParts(m, idx);
    HighHigh(full, r, q);
    ReversedParts(idx, m.j, r);
    LowHigh(full, r, q);
    // High(full, r) has prefix above and the reversed low bits of idx below
    assert High(High(full, r), q) == m.prefix;
    assert Low(High(full, r), q) == Reversed(Low(idx, q), q);
    HighLow(fwd, q);
    HighLow(High(full, r), q);
    HighLow(idx, q);
    ReversedTwice(Low(idx, q), q);
    ReversedTwice(Low(fwd, q), q);
  }

  /** Taking the middle bits either way. */
  lemma LowHigh(v: nat, r: nat, q: nat)
    ensures Low(High(v, r), q) == High(Low(v, r + q), r)
  {
    hide High, Low, Pow2;
    HighLow(v, r + q);
    HighLow(Low(v, r + q), r);
    Pow2Add(r, q);
    var h, u := High(v, r + q), Low(v, r + q);
    var a, b := High(u, r), Low(u, r);
    HighBelow(u, r, q);
    ThreeParts(h, a, b, Pow2(r), Pow2(q));
    HighLowUnique(b, a + h * Pow2(q), r);
    HighLowUnique(a, h, q);
  }

  lemma ThreeParts(h: nat, a: nat, b: nat, p: nat, q: nat)
    ensures (b + a * p) + h * (p * q) == b + (a + h * q) * p
  {
    MulAdd(p, a, h * q);
    MulAssoc(h, q, p);
  }
}
