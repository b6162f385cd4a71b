/**
 The canonical code for given lengths (section 3.2.2 of RFC 1951): gen_codes deals out
 consecutive values length by length, and bi_reverse turns each around for sending.
 */
module CanonicalCodes {
  import opened Arith
  import opened Bits
  import opened Sums
  import opened HuffmanTheory
  import opened LengthRepair

  /** The first code of length b, when c counts the codes by length. */
  function NextCode(c: seq<nat>, b: nat): nat
    requires b <= |c|
  {
    if b == 0 then 0 else 2 * (NextCode(c, b - 1) + c[b - 1])
  }

  lemma {:induction false} NextCodeShare(c: seq<nat>, max: nat, b: nat)
    requires b <= max <= |c|
    ensures NextCode(c, b) * Pow2(max - b) == KraftTo(c, max, b)
  {
    if b > 0 {
      NextCodeShare(c, max, b - 1);
      var x, y, p := NextCode(c, b - 1), c[b - 1], Pow2(max - b);
      assert Pow2(max - (b - 1)) == 2 * p;
      Doubled(x, y, p);
    }
  }

  lemma Doubled(x: nat, y: nat, p: nat)
    ensures (2 * (x + y)) * p == x * (2 * p) + y * (2 * p)
  {
    MulAdd(2 * p, x, y);
    MulAssoc(x + y, 2, p);
  }

  lemma {:induction false} KraftToMonotone(c: seq<nat>, max: nat, m: nat, n: nat)
    requires m <= n <= max + 1 && n <= |c|
    ensures KraftTo(c, max, m) <= KraftTo(c, max, n)
  {
    if m < n {
      KraftToMonotone(c, max, m, n - 1);
    }
  }

  // ----- ranks among the symbols of one length

  /** The symbols of a below n. */
  function Below(a: set<nat>, n: nat): set<nat> {
    set i | i in a && i < n
  }

  /** How many symbols of a below n have length b. */
  function Rank(a: set<nat>, l: seq<nat>, n: nat, b: nat): nat {
    CountAt(Below(a, n), l, b)
  }

  lemma RankNext(a: set<nat>, l: seq<nat>, n: nat, b: nat)
    requires n < |l|
    ensures Rank(a, l, n + 1, b) == Rank(a, l, n, b) + (if n in a && l[n] == b then 1 else 0)
  {
    if n in a {
      CountWithout(Below(a, n + 1), l, n, b);
      assert Below(a, n + 1) - {n} == Below(a, n);
    } else {
      assert Below(a, n + 1) == Below(a, n);
    }
  }

  lemma RankStart(a: set<nat>, l: seq<nat>, b: nat)
    ensures Rank(a, l, 0, b) == 0
  {
    assert Below(a, 0) == {};
    EmptySum(IsLength(l, b), |l|);
  }

  lemma {:induction false} RankGrows(a: set<nat>, l: seq<nat>, m: nat, n: nat, b: nat)
    requires m <= n <= |l|
    ensures Rank(a, l, m, b) <= Rank(a, l, n, b)
    ensures m < n && m in a && l[m] == b ==> Rank(a, l, m, b) < Rank(a, l, n, b)
    decreases n
  {
    if m < n {
      RankNext(a, l, n - 1, b);
      RankGrows(a, l, m, n - 1, b);
    }
  }

  lemma RankTotal(a: set<nat>, l: seq<nat>, b: nat)
    requires forall i :: i in a ==> i < |l|
    ensures Rank(a, l, |l|, b) == CountAt(a, l, b)
  {
    assert Below(a, |l|) == a;
  }

  /** The symbol with a given rank. */
  lemma {:induction false} Ranked(a: set<nat>, l: seq<nat>, b: nat, r: nat, n: nat) returns (x: nat)
    requires n <= |l| && r < Rank(a, l, n, b)
    ensures x in a && x < n && l[x] == b && Rank(a, l, x, b) == r
  {
    if n == 0 {
      RankStart(a, l, b);
    } else {
      RankNext(a, l, n - 1, b);
      if r < Rank(a, l, n - 1, b) {
        x := Ranked(a, l, b, r, n - 1);
      } else {
        x := n - 1;
      }
    }
  }

  // ----- codes as intervals

  /** Lengths of the symbols of a, counted in c, that satisfy the Kraft inequality. */
  ghost predicate Codable(a: set<nat>, l: seq<nat>, c: seq<nat>, max: nat) {
    && 1 <= max < |c| && c[0] == 0 && Counts(a, l, c)
    && (forall i :: i in a ==> i < |l| && 1 <= l[i] <= max)
    && KraftTo(c, max, max + 1) <= Pow2(max)
  }

  /** The code of symbol n, most significant bit first. */
  function Code(a: set<nat>, l: seq<nat>, c: seq<nat>, n: nat): nat
    requires n < |l| && l[n] <= |c|
  {
    NextCode(c, l[n]) + Rank(a, l, n, l[n])
  }

  /** The values of `max` bits that start with the code of n begin at Start and number 2^(max - l[n]). */
  function Start(a: set<nat>, l: seq<nat>, c: seq<nat>, max: nat, n: nat): nat
    requires n < |l| && l[n] <= |c| && l[n] <= max
  {
    Code(a, l, c, n) * Pow2(max - l[n])
  }

  lemma CountBounds(a: set<nat>, l: seq<nat>, c: seq<nat>, n: nat)
    requires Counts(a, l, c) && n in a && (forall i :: i in a ==> i < |l|) && l[n] < |c|
    ensures Rank(a, l, n, l[n]) < c[l[n]]
  {
    RankTotal(a, l, l[n]);
    RankGrows(a, l, n, |l|, l[n]);
  }

  lemma StartShares(a: set<nat>, l: seq<nat>, c: seq<nat>, max: nat, n: nat)
    requires Codable(a, l, c, max) && n in a
    ensures Start(a, l, c, max, n) == KraftTo(c, max, l[n]) + Rank(a, l, n, l[n]) * Pow2(max - l[n])
    ensures Start(a, l, c, max, n) + Pow2(max - l[n]) <= KraftTo(c, max, l[n] + 1)
  {
    hide Rank;
    NextCodeShare(c, max, l[n]);
    var r, p := Rank(a, l, n, l[n]), Pow2(max - l[n]);
    MulAdd(p, NextCode(c, l[n]), r);
    CountBounds(a, l, c, n);
    MulLe(r + 1, p, c[l[n]], p);
    MulAdd(p, r, 1);
  }

  /** The order of the codes: by length, then by symbol. */
  predicate Before(l: seq<nat>, m: nat, n: nat)
    requires m < |l| && n < |l|
  {
    l[m] < l[n] || (l[m] == l[n] && m < n)
  }

  /** Codes take up intervals one after the other. */
  lemma InOrder(a: set<nat>, l: seq<nat>, c: seq<nat>, max: nat, m: nat, n: nat)
    requires Codable(a, l, c, max) && m in a && n in a && Before(l, m, n)
    ensures Start(a, l, c, max, m) + Pow2(max - l[m]) <= Start(a, l, c, max, n)
  {
    StartShares(a, l, c, max, m);
    StartShares(a, l, c, max, n);
    hide Start, Rank, KraftTo;
    if l[m] < l[n] {
      KraftToMonotone(c, max, l[m] + 1, l[n]);
    } else {
      RankGrows(a, l, m, n, l[n]);
      var r, r', p := Rank(a, l, m, l[m]), Rank(a, l, n, l[n]), Pow2(max - l[n]);
      MulLe(r + 1, p, r', p);
      MulAdd(p, r, 1);
    }
  }

  /** No interval reaches past 2^max, so each code fits its length. */
  lemma CodeFits(a: set<nat>, l: seq<nat>, c: seq<nat>, max: nat, n: nat)
    requires Codable(a, l, c, max) && n in a
    ensures Start(a, l, c, max, n) + Pow2(max - l[n]) <= Pow2(max)
    ensures Code(a, l, c, n) < Pow2(l[n])
  {
    StartShares(a, l, c, max, n);
    KraftToMonotone(c, max, l[n] + 1, max + 1);
    Pow2Add(l[n], max - l[n]);
    hide *;
    StartIs(a, l, c, max, n);
    Fit(Code(a, l, c, n), Pow2(max - l[n]), Pow2(l[n]));
  }

  lemma Fit(v: nat, p: nat, q: nat)
    requires p > 0 && v * p + p <= q * p
    ensures v < q
  {
    if q <= v {
      MulLe(q, p, v, p);
    }
  }

  /** With Kraft equality every value lies in an interval: the code is complete. */
  lemma Complete(a: set<nat>, l: seq<nat>, c: seq<nat>, max: nat, v: nat) returns (n: nat)
    requires Codable(a, l, c, max) && v < KraftTo(c, max, max + 1)
    ensures n in a && Start(a, l, c, max, n) <= v < Start(a, l, c, max, n) + Pow2(max - l[n])
  {
    var b := LengthOf(c, max, v, max + 1);
    var p := Pow2(max - b);
    var r := (v - KraftTo(c, max, b)) / p;
    QuotientBounds(v - KraftTo(c, max, b), p, c[b]);
    RankTotal(a, l, b);
    n := Ranked(a, l, b, r, |l|);
    StartShares(a, l, c, max, n);
  }

  lemma {:induction false} LengthOf(c: seq<nat>, max: nat, v: nat, n: nat) returns (b: nat)
    requires n <= max + 1 && n <= |c| && v < KraftTo(c, max, n)
    ensures b < n && KraftTo(c, max, b) <= v < KraftTo(c, max, b + 1)
  {
    if v < KraftTo(c, max, n - 1) {
      b := LengthOf(c, max, v, n - 1);
    } else {
      b := n - 1;
    }
  }

  lemma QuotientBounds(x: nat, p: nat, k: nat)
    requires p > 0 && x < k * p
    ensures x / p < k && (x / p) * p <= x < (x / p) * p + p
  {
    var q := x / p;
    assert x == q * p + x % p;
    if q >= k {
      MulLe(k, p, q, p);
    }
  }

  // ----- codes as bit strings

  /** The code word of symbol n, in the order in which it is sent. */
  function Word(a: set<nat>, l: seq<nat>, c: seq<nat>, n: nat): (w: seq<bool>)
    requires n < |l| && l[n] <= |c|
    ensures |w| == l[n]
  {
    ToBits(Code(a, l, c, n), l[n])
  }

  /** A word starts the max bits of v exactly if v lies in its interval. */
  lemma PrefixInterval(code: nat, len: nat, max: nat, v: nat)
    requires len <= max && code < Pow2(len) && v < Pow2(max)
    ensures ToBits(code, len) <= ToBits(v, max) <==> code * Pow2(max - len) <= v < code * Pow2(max - len) + Pow2(max - len)
  {
    hide Pow2, ToBits;
    var p := Pow2(max - len);
    var hi, lo := v / p, v % p;
    Parts(v, p);
    ToBitsConcat(hi, len, lo, max - len);
    Pow2Add(len, max - len);
    QuotientBounds(v, p, Pow2(len));
    var word, all := ToBits(code, len), ToBits(v, max);
    assert all == ToBits(hi, len) + ToBits(lo, max - len);
    assert all[..len] == ToBits(hi, len);
    FromToBits(code, len);
    FromToBits(hi, len);
    assert word <= all <==> word == all[..len];
    assert word == all[..len] <==> code == hi;
    SameQuotient(v, p, code);
  }

  lemma Parts(v: nat, p: nat)
    requires p > 0
    ensures v == (v / p) * p + v % p && v % p < p
  {
  }

  lemma SameQuotient(v: nat, p: nat, q: nat)
    requires p > 0
    ensures v / p == q <==> q * p <= v < q * p + p
  {
    Parts(v, p);
    if q * p <= v < q * p + p {
      DivModUnique(v, p, q, v - q * p);
    }
  }

  /** No code word is a prefix of another. */
  lemma WordsPrefixFree(a: set<nat>, l: seq<nat>, c: seq<nat>, max: nat, m: nat, n: nat)
    requires Codable(a, l, c, max) && m in a && n in a && m != n
    ensures !(Word(a, l, c, m) <= Word(a, l, c, n))
  {
    hide Codable, Start;
    CodableLengths(a, l, c, max, m, n);
    var v := Start(a, l, c, max, n);
    CodeFits(a, l, c, max, m);
    CodeFits(a, l, c, max, n);
    StartIs(a, l, c, max, m);
    StartIs(a, l, c, max, n);
    PrefixInterval(Code(a, l, c, m), l[m], max, v);
    PrefixInterval(Code(a, l, c, n), l[n], max, v);
    if Before(l, m, n) {
      InOrder(a, l, c, max, m, n);
    } else {
      InOrder(a, l, c, max, n, m);
    }
    PrefixTransitive(Word(a, l, c, m), Word(a, l, c, n), ToBits(v, max));
  }

  lemma PrefixTransitive(x: seq<bool>, y: seq<bool>, z: seq<bool>)
    requires y <= z
    ensures x <= y ==> x <= z
  {
  }

  lemma StartIs(a: set<nat>, l: seq<nat>, c: seq<nat>, max: nat, n: nat)
    requires n < |l| && l[n] <= |c| && l[n] <= max
    ensures Start(a, l, c, max, n) == Code(a, l, c, n) * Pow2(max - l[n])
  {
  }

  lemma CodableLengths(a: set<nat>, l: seq<nat>, c: seq<nat>, max: nat, m: nat, n: nat)
    requires Codable(a, l, c, max) && m in a && n in a
    ensures m < |l| && n < |l| && 1 <= l[m] <= max < |c| && 1 <= l[n] <= max
  {
  }

  /** With Kraft equality every string of max bits starts with one of the words. */
  lemma WordsComplete(a: set<nat>, l: seq<nat>, c: seq<nat>, max: nat, bits: seq<bool>) returns (n: nat)
    requires Codable(a, l, c, max) && KraftTo(c, max, max + 1) == Pow2(max) && |bits| >= max
    ensures n in a && n < |l| && l[n] <= |c| && Word(a, l, c, n) <= bits
  {
    ToFromBits(bits[..max]);
    var v := FromBits(bits[..max]);
    n := Complete(a, l, c, max, v);
    CodableLengths(a, l, c, max, n, n);
    CodeFits(a, l, c, max, n);
    StartIs(a, l, c, max, n);
    PrefixInterval(Code(a, l, c, n), l[n], max, v);
    assert Word(a, l, c, n) <= bits[..max];
  }
}
