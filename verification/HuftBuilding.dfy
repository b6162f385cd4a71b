/**
 huft_build: decode tables for given code lengths.  The loop walks through the codes in
 canonical order with the current code reversed in i, keeps the tables on its way on a stack,
 and enters each code in all the places where a lookahead may find it.
 */
module HuftBuilding {
  import opened Arith
  import opened Bits
  import opened BitOrder
  import opened HuffmanTheory
  import opened LengthRepair
  import opened CanonicalCodes
  import opened HuftTheory
  import opened HuftState
  import opened HuftPlacing
  import opened HuftBits

  /** BMAX: the longest code. */
  const BMAX: nat := 15

  /** The code after fwd, or 0 after the last. */
  function Next(fwd: nat, k: nat): nat {
    if fwd + 1 == Pow2(k) then 0 else fwd + 1
  }

  lemma NextStep(v: nat, m: nat)
    requires m > 0 && v < Pow2(m)
    ensures v % 2 == 0 ==> Reversed(Next(v, m), m) == Reversed(v, m) + Pow2(m - 1) && Reversed(v, m) < Pow2(m - 1)
    ensures v % 2 == 1 ==> v / 2 < Pow2(m - 1) && Reversed(Next(v, m), m) == Reversed(Next(v / 2, m - 1), m - 1)
    ensures v % 2 == 1 ==> Reversed(v, m) == Pow2(m - 1) + Reversed(v / 2, m - 1)
    ensures Reversed(v, m) == (v % 2) * Pow2(m - 1) + Reversed(v / 2, m - 1) && Reversed(v / 2, m - 1) < Pow2(m - 1)
  {
    ReversedBelow(v / 2, m - 1);
    ReversedStep(v, m);
    HalfBelow(v, m);
    hide Reversed, Pow2, Next;
    if v % 2 == 0 {
      EvenNext(v, m);
    } else {
      OddNext(v, m);
    }
  }

  lemma EvenNext(v: nat, m: nat)
    requires m > 0 && v < Pow2(m) && v % 2 == 0
    ensures Reversed(Next(v, m), m) == Reversed(v, m) + Pow2(m - 1)
  {
    assert Next(v, m) == if v + 1 == Pow2(m) then 0 else v + 1;
    ReversedStep(v, m);
    ReversedStep(v + 1, m);
    var p := Pow2(m - 1);
    assert Pow2(m) == 2 * p;
    hide *;
    assert v + 1 != 2 * p && (v + 1) / 2 == v / 2 && (v + 1) % 2 == 1;
  }

  lemma OddNext(v: nat, m: nat)
    requires m > 0 && v < Pow2(m) && v % 2 == 1
    ensures Reversed(Next(v, m), m) == Reversed(Next(v / 2, m - 1), m - 1)
  {
    ReversedStep(v + 1, m);
    ZeroReversed(m);
    ZeroReversed(m - 1);
    var p := Pow2(m - 1);
    assert Pow2(m) == 2 * p;
    hide Reversed, Pow2;
    assert (v + 1) % 2 == 0 && (v + 1) / 2 == v / 2 + 1;
  }

  lemma {:induction false} ZeroReversed(m: nat)
    ensures Reversed(0, m) == 0
  {
    if m > 0 {
      ZeroReversed(m - 1);
    }
  }

  /** "backwards increment the k-bit code i": ones are cleared from the top down to the first zero, which is set. */
  method Increment(i0: nat, k: nat, ghost fwd: nat) returns (i: nat)
    requires k >= 1 && fwd < Pow2(k) && i0 == Reversed(fwd, k)
    ensures i == Reversed(Next(fwd, k), k)
  {
    hide Reversed, Next;
    i := i0;
    var m: nat := k;
    ghost var v: nat := fwd;
    while m > 0 && i >= Pow2(m - 1)
      invariant m <= k && v < Pow2(m) && i == Reversed(v, m)
      invariant Reversed(Next(fwd, k), k) == Reversed(Next(v, m), m)
      decreases m
    {
      NextStep(v, m);
      i := i - Pow2(m - 1);
      v := v / 2;
      m := m - 1;
    }
    if m > 0 {
      NextStep(v, m);
      i := i + Pow2(m - 1);
    } else {
      NextOfNothing(v);
    }
  }

  lemma NextOfNothing(v: nat)
    requires v < Pow2(0)
    ensures Reversed(v, 0) == 0 && Reversed(Next(v, 0), 0) == 0
  {
  }

  /** The code patterns on the stack: x[t] is the reversed prefix of the t-th table of the way. */
  ghost predicate Patterns(f: Plan, x: seq<nat>, s: Work) {
    && |s.st| <= |x| && |x| > 0 && x[0] == 0
    && forall t :: 1 <= t < |s.st| && s.st[t] < |s.ms| ==> x[t] == Reversed(s.ms[s.st[t]].prefix, f.l * t)
  }

  /** The pattern of a new table is the whole current code, whose later bits are zero. */
  lemma PatternIs(fwd: nat, k: nat, w: nat, l: nat)
    requires w <= k && Low(fwd, k - w) == 0
    ensures Reversed(fwd, k) == Reversed(High(fwd, k - w), w)
    ensures l <= w ==> High(Reversed(fwd, k), w - l) == LinkIndex(High(fwd, k - w), l)
  {
    hide High, Low, Reversed, Pow2;
    ReversedParts(fwd, k, w);
    ZeroReversed(k - w);
    HighLow(Reversed(fwd, k), w);
    if l <= w {
      ReversedParts(High(fwd, k - w), w, w - l);
    }
  }

  /** Comparing patterns tells whether the next code has another prefix. */
  lemma PatternTells(fwd: nat, k: nat, w: nat)
    requires fwd < Pow2(k) && 1 <= w <= k
    ensures Low(Reversed(Next(fwd, k), k), w) != Reversed(High(fwd, k - w), w) <==> High(fwd + 1, k - w) != High(fwd, k - w)
  {
    hide High, Low, Reversed, Pow2;
    var p := High(fwd, k - w);
    HighBelowAll(fwd, k, w);
    ReversedTwice(p, w);
    if fwd + 1 == Pow2(k) {
      LastLeaves(fwd, k, w);
      ZeroReversed(k);
      HighOfZero(w);
      ZeroReversed(w);
    } else {
      HighBelowAll(fwd + 1, k, w);
      ReversedParts(fwd + 1, k, w);
      ReversedTwice(High(fwd + 1, k - w), w);
    }
  }

  lemma HighBelowAll(v: nat, k: nat, w: nat)
    requires v < Pow2(k) && w <= k
    ensures High(v, k - w) < Pow2(w)
  {
    HighBelow(v, k - w, w);
  }

  /** After the last code the prefix of all ones is left. */
  lemma LastLeaves(fwd: nat, k: nat, w: nat)
    requires 1 <= w <= k && fwd + 1 == Pow2(k)
    ensures High(fwd + 1, k - w) != High(fwd, k - w) && High(fwd, k - w) != 0
  {
    Pow2Add(w, k - w);
    HighLowUnique(0, Pow2(w), k - w);
    HighBelowAll(fwd, k, w);
    NextHigh(fwd, k - w);
    Pow2Monotone(1, w);
    assert Pow2(0) == 1 && Pow2(1) == 2;
  }

  /** What is known of the last table of the way when the way is to be shortened. */
  lemma TopOfWay(f: Plan, s: Work, k: nat, fwd: nat)
    requires Popping(f, s, k, fwd)
    ensures var h := |s.st| - 1;
            && h >= 0 && s.st[h] < |s.ms| && f.l * h < k <= f.g && s.ms[s.st[h]].prefix == High(fwd, k - f.l * h)
            && s.ms[s.st[h]].w == f.l * h && (h > 0 ==> f.l * h >= 1) && 1 <= f.l
  {
    hide Sound, OffWay, Covered, NoSkipBefore, Linked, Enough, Plan.IsCode, High, Pow2;
    var h := |s.st| - 1;
    assert OnWay(f, s, h, k, fwd);
    if h > 0 {
      MulLe(1, 1, f.l, h);
    }
  }

  // ----- filling the entries of a code

  /** The entries below n with the code's pattern are set. */
  ghost predicate FilledTo(t: seq<Huft>, t0: seq<Huft>, start: nat, bits: nat, r: Huft, n: nat) {
    && |t| == |t0|
    && forall idx :: 0 <= idx < |t| ==> t[idx] == if idx < n && Low(idx, bits) == start then r else t0[idx]
  }

  /** The next entry with the pattern is one step of the pattern's size on. */
  lemma NextHit(start: nat, bits: nat, n: nat, idx: nat)
    requires start < Pow2(bits)
    ensures Low(start + n * Pow2(bits), bits) == start
    ensures start + n * Pow2(bits) < idx < start + (n + 1) * Pow2(bits) ==> Low(idx, bits) != start
    ensures (n + 1) * Pow2(bits) == n * Pow2(bits) + Pow2(bits)
    ensures idx < start ==> Low(idx, bits) != start
  {
    HighLowUnique(start, n, bits);
    HighLow(idx, bits);
    MulAdd(Pow2(bits), n, 1);
    hide High, Low, Pow2;
    if Low(idx, bits) == start {
      Between(High(idx, bits), n, Pow2(bits));
    }
  }

  lemma Between(h: nat, n: nat, p: nat)
    requires p > 0
    ensures n * p < h * p ==> (n + 1) * p <= h * p
  {
    if h <= n {
      MulLe(h, p, n, p);
    } else {
      MulLe(n + 1, p, h, p);
    }
  }

  lemma FillStep(t: seq<Huft>, t0: seq<Huft>, start: nat, bits: nat, r: Huft, n: nat)
    requires start < Pow2(bits) && start + n * Pow2(bits) < |t|
    requires FilledTo(t, t0, start, bits, r, start + n * Pow2(bits))
    ensures FilledTo(t[start + n * Pow2(bits) := r], t0, start, bits, r, start + (n + 1) * Pow2(bits))
  {
    hide Low, Pow2;
    var j := start + n * Pow2(bits);
    NextHit(start, bits, n, 0);
    forall idx | 0 <= idx < |t|
      ensures t[j := r][idx] == if idx < start + (n + 1) * Pow2(bits) && Low(idx, bits) == start then r else t0[idx]
    {
      NextHit(start, bits, n, idx);
    }
  }

  lemma FillStart(t: seq<Huft>, start: nat, bits: nat, r: Huft)
    requires start < Pow2(bits)
    ensures FilledTo(t, t, start, bits, r, start)
  {
    hide Low, Pow2;
    forall idx | 0 <= idx < start
      ensures Low(idx, bits) != start
    {
      NextHit(start, bits, 0, idx);
    }
  }

  /** "fill code-like entries with r" */
  method FillEntries(tables: seq<seq<Huft>>, q: nat, z: nat, start: nat, bits: nat, r: Huft) returns (tables': seq<seq<Huft>>)
    requires q < |tables| && z == |tables[q]| && start < Pow2(bits)
    ensures |tables'| == |tables| && forall n :: 0 <= n < |tables| && n != q ==> tables'[n] == tables[n]
    ensures FilledTo(tables'[q], tables[q], start, bits, r, z)
  {
    hide FilledTo, Pow2, Low;
    tables' := tables;
    var step := Pow2(bits);
    var j: nat := start;
    ghost var n: nat := 0;
    FillStart(tables[q], start, bits, r);
    assert start + 0 * Pow2(bits) == start;
    while j < z
      invariant j == start + n * Pow2(bits) && |tables'| == |tables| && |tables'[q]| == z
      invariant forall m :: 0 <= m < |tables| && m != q ==> tables'[m] == tables[m]
      invariant FilledTo(tables'[q], tables[q], start, bits, r, j)
      decreases z - j
    {
      FillStep(tables'[q], tables[q], start, bits, r, n);
      NextHit(start, bits, n, 0);
      tables' := tables'[q := tables'[q][j := r]];
      j := j + step;
      n := n + 1;
    }
    FilledPast(tables'[q], tables[q], start, bits, r, j, z);
  }

  lemma FilledPast(t: seq<Huft>, t0: seq<Huft>, start: nat, bits: nat, r: Huft, n: nat, z: nat)
    requires FilledTo(t, t0, start, bits, r, n) && n >= z == |t|
    ensures FilledTo(t, t0, start, bits, r, z)
  {
  }

  lemma FilledIs(f: Plan, t: seq<Huft>, t0: seq<Huft>, w: nat, k: nat, fwd: nat, r: Huft)
    requires w <= k && FilledTo(t, t0, High(Reversed(fwd, k), w), k - w, r, |t0|)
    requires r == Huft(f.pay(k, fwd).exop, k - w, f.pay(k, fwd).base)
    ensures t == Filled(f, t0, w, k, fwd)
  {
    ReversedParts(fwd, k, w);
    hide Low, High, Reversed;
  }

  // ----- the main loop

  lemma TimesNext(l: nat, h: int)
    ensures l * h + l == l * (h + 1)
  {
    MulAdd(l, h, 1);
  }

  /** A code for which the way is too short opens a new table. */
  lemma WayLength(f: Plan, s: Work, k: nat, fwd: nat)
    requires Building(f, s, k, fwd) && f.IsCode(k, fwd) && k > WayBits(f, s) && f.g <= BMAX
    ensures WayBits(f, s) < k <= f.g && |s.st| < BMAX && Opening(f, WayBits(f, s), k, fwd) && (|s.st| == 0 ==> fwd == 0)
    ensures Low(fwd, k - WayBits(f, s)) == 0 && (WayBits(f, s) == 0 <==> |s.st| == 0)
    ensures |s.ts| == |s.ms|
  {
    hide High, Low, NextCode, KraftTo, Way, OffWay, Covered, NoSkipBefore, Plain;
    MulLe(1, |s.st|, f.l, |s.st|);
  }

  lemma WidthGood(f: Plan, s: Work, k: nat, fwd: nat, j: nat)
    requires WayBits(f, s) < k <= WayBits(f, s) + j <= f.g && 1 <= j <= 15 && (j > f.l ==> k == WayBits(f, s) + j)
    requires Enough(f, Meta(WayBits(f, s), High(fwd, k - WayBits(f, s)), j))
    requires WayBits(f, s) == 0 ==> j == f.l
    ensures GoodWidth(f, s, k, fwd, j)
  {
    hide High, Enough;
  }

  /** What pushing a table does to the state, spelled out. */
  lemma PushedIs(f: Plan, s: Work, k: nat, fwd: nat, j: nat)
    requires Building(f, s, k, fwd) && f.IsCode(k, fwd) && k > WayBits(f, s) && GoodWidth(f, s, k, fwd, j)
    ensures var w := WayBits(f, s);
            var prefix, id := High(fwd, k - w), |s.ms|;
            && (|s.st| > 0 ==>
                  var top, idx := s.st[|s.st| - 1], LinkIndex(prefix, f.l);
                  && top < |s.ts| && idx < |s.ts[top]|
                  && Pushed(f, s, k, fwd, j) == Work(s.ts[top := s.ts[top][idx := Huft(j, f.l, id)]] + [seq(Pow2(j), i => Unset)],
                                                     s.ms + [Meta(w, prefix, j)], s.st + [id]))
            && (|s.st| == 0 ==>
                  Pushed(f, s, k, fwd, j) == Work(s.ts + [seq(Pow2(j), i => Unset)], s.ms + [Meta(w, prefix, j)], s.st + [id]))
  {
    hide High, Low, NextCode, KraftTo, Way, OffWay, Covered, NoSkipBefore, Plain, Sound, LinkIndex, Pow2, LinkOf, GoodWidth,
      Plan.IsCode;
    if |s.st| > 0 {
      TopFacts(f, s, k, fwd, j);
    }
  }

  lemma PatternsPushed(f: Plan, x: seq<nat>, s: Work, s': Work, m: Meta, i: nat)
    requires Patterns(f, x, s) && |s.st| < |x| && s'.ms == s.ms + [m] && s'.st == s.st + [|s.ms|]
    requires forall t :: 0 <= t < |s.st| ==> s.st[t] < |s.ms|
    requires i == Reversed(m.prefix, WayBits(f, s))
    ensures Patterns(f, if |s.st| > 0 then x[|s.st| := i] else x, s')
  {
    hide Reversed;
  }

  lemma WayIds(f: Plan, s: Work, k: nat, fwd: nat)
    requires Building(f, s, k, fwd)
    ensures forall t :: 0 <= t < |s.st| ==> s.st[t] < |s.ms|
  {
    hide High, Low, NextCode, KraftTo, OffWay, Covered, NoSkipBefore, Plain, Sound, Linked, Enough;
    forall t | 0 <= t < |s.st|
      ensures s.st[t] < |s.ms|
    {
      assert OnWay(f, s, t, k, fwd);
    }
  }

  /** All about the new table in one: the state with it, and where its link goes. */
  lemma OpenTable(f: Plan, s: Work, k: nat, fwd: nat, j: nat)
    requires Building(f, s, k, fwd) && f.IsCode(k, fwd) && k > WayBits(f, s) && f.g <= BMAX
    requires k <= WayBits(f, s) + j <= f.g && 1 <= j <= 15 && (j > f.l ==> k == WayBits(f, s) + j)
    requires Enough(f, Meta(WayBits(f, s), High(fwd, k - WayBits(f, s)), j)) && (WayBits(f, s) == 0 ==> j == f.l)
    ensures var w, i := WayBits(f, s), Reversed(fwd, k);
            var m, s' := Meta(w, High(fwd, k - w), j), Pushed(f, s, k, fwd, j);
            && Building(f, s', k, fwd) && i == Reversed(m.prefix, w)
            && s'.ms == s.ms + [m] && s'.st == s.st + [|s.ts|] && |s.ts| == |s.ms|
            && (forall t :: 0 <= t < |s.st| ==> s.st[t] < |s.ms|)
            && (|s.st| > 0 ==> f.l <= w && High(i, w - f.l) < |s.ts[s.st[|s.st| - 1]]|)
            && s'.ts == (if |s.st| > 0 then
                           var from, entry := s.st[|s.st| - 1], High(i, w - f.l);
                           s.ts[from := s.ts[from][entry := Huft(j, f.l, |s.ts|)]]
                         else s.ts) + [seq(Pow2(j), i => Unset)]
  {
    hide Building, NextCode, GoodWidth, Reversed, High, Low, Pow2, Plan.IsCode, Enough, Pushed, Opening;
    WayLength(f, s, k, fwd);
    WidthGood(f, s, k, fwd, j);
    PushStep(f, s, k, fwd, j);
    PatternIs(fwd, k, WayBits(f, s), f.l);
    PushedIs(f, s, k, fwd, j);
    WayIds(f, s, k, fwd);
    if |s.st| > 0 {
      MulLe(f.l, 1, f.l, |s.st|);
    }
  }

  lemma ReachesBounds(f: Plan, s: Work, k: nat, fwd: nat)
    requires Reaches(f, s, k, fwd)
    ensures |s.st| > 0 && f.l * (|s.st| - 1) < k && s.st[|s.st| - 1] < |s.ms| == |s.ts|
    ensures s.ms[s.st[|s.st| - 1]].w == f.l * (|s.st| - 1)
  {
  }

  lemma PlacedIs(f: Plan, s: Work, k: nat, fwd: nat, s': Work)
    requires Reaches(f, s, k, fwd) && s'.ms == s.ms && s'.st == s.st && |s'.ts| == |s.ts|
    requires var top := s.st[|s.st| - 1];
             && (forall n :: 0 <= n < |s.ts| && n != top ==> s'.ts[n] == s.ts[n])
             && s'.ts[top] == Filled(f, s.ts[top], f.l * (|s.st| - 1), k, fwd)
    ensures s' == Placed(f, s, k, fwd)
  {
    hide Filled;
    assert s'.ts == Placed(f, s, k, fwd).ts;
  }

  lemma PatternsSame(f: Plan, x: seq<nat>, s: Work, s': Work)
    requires Patterns(f, x, s) && s'.ms == s.ms && s'.st == s.st
    ensures Patterns(f, x, s')
  {
  }

  lemma PatternsPopped(f: Plan, x: seq<nat>, s: Work)
    requires Patterns(f, x, s) && |s.st| > 0
    ensures Patterns(f, x, s.(st := s.st[..|s.st| - 1]))
  {
    hide Reversed;
  }

  lemma TopPattern(f: Plan, x: seq<nat>, s: Work, k: nat, fwd: nat, h: nat, w: nat)
    requires Patterns(f, x, s) && Popping(f, s, k, fwd) && |s.st| == h + 1 && w == f.l * h
    ensures f.l >= 1 && w < k && h < |x| && x[h] == Reversed(High(fwd, k - w), w) && (h == 0 ==> x[h] == 0)
  {
    TopOfWay(f, s, k, fwd);
    FirstPattern(fwd, k);
    hide High, Popping, Reversed;
  }

  /** Leaving a table, all in one. */
  lemma PopFacts(f: Plan, x: seq<nat>, s: Work, k: nat, fwd: nat, h: nat, w: nat)
    requires Patterns(f, x, s) && Popping(f, s, k, fwd) && |s.st| == h + 1 && w == f.l * h && h > 0 && h < |x| && fwd < Pow2(k)
    requires Low(Reversed(Next(fwd, k), k), w) != x[h]
    ensures var s' := s.(st := s.st[..|s.st| - 1]);
            && Popping(f, s', k, fwd) && Patterns(f, x, s') && k > f.l * h && w - f.l == f.l * (h - 1) >= 0
  {
    hide Building, Patterns, Popping, Reversed, High, Low, Pow2, Leaves, Next;
    TopPattern(f, x, s, k, fwd, h, w);
    LeavesIf(f, s, k, fwd, h);
    PopStep(f, s, k, fwd);
    PatternsPopped(f, x, s);
    ProductStep(f.l, h);
  }

  lemma FirstPattern(fwd: nat, k: nat)
    ensures Reversed(High(fwd, k), 0) == 0
  {
  }

  lemma LowNone(v: nat)
    ensures Low(v, 0) == 0
  {
    assert Pow2(0) == 1;
  }

  /** The loop goes on: the code left the table. */
  lemma LeavesIf(f: Plan, s: Work, k: nat, fwd: nat, h: nat)
    requires h >= 1 && |s.st| == h + 1 && f.l >= 1 && f.l * h < k && fwd < Pow2(k)
    requires Low(Reversed(Next(fwd, k), k), f.l * h) != Reversed(High(fwd, k - f.l * h), f.l * h)
    ensures Leaves(f, s, k, fwd)
  {
    hide Low, High, Reversed, Next, Pow2;
    MulLe(1, 1, f.l, h);
    PatternTells(fwd, k, f.l * h);
  }

  /** The loop stops: the next code has the same prefix. */
  lemma StaysIf(f: Plan, s: Work, k: nat, fwd: nat, h: nat)
    requires |s.st| == h + 1 && f.l >= 1 && f.l * h < k && fwd + 1 < Pow2(k)
    requires Low(Reversed(Next(fwd, k), k), f.l * h) == Reversed(High(fwd, k - f.l * h), f.l * h)
    ensures !Leaves(f, s, k, fwd)
  {
    if h == 0 {
      HighBelowAll(fwd, k, 0);
      HighBelowAll(fwd + 1, k, 0);
      assert Pow2(0) == 1;
    } else {
      hide Low, High, Reversed, Next, Pow2;
      MulLe(1, 1, f.l, h);
      PatternTells(fwd, k, f.l * h);
    }
  }

  lemma NextIs(fwd: nat, k: nat)
    requires fwd + 1 < Pow2(k)
    ensures Next(fwd, k) == fwd + 1
  {
  }

  /** The variables of the main loop. */
  class Builder {
    const c: array<nat>
    const u: array<nat>
    const x: array<nat>
    var tables: seq<seq<Huft>>
    var h: int
    var w: int
    var q: nat
    var z: nat
    var i: nat
    ghost var ms: seq<Meta>

    /** The stack u[] lists the tables on the way. */
    ghost function Now(): Work
      requires -1 <= h < u.Length
      reads this, u
    {
      Work(tables, ms, u[..h + 1])
    }

    ghost predicate Shaped(f: Plan)
      reads this, c, u, x
    {
      && c.Length == BMAX + 1 && u.Length == BMAX && x.Length == BMAX + 1 && c != u && c != x && u != x
      && -1 <= h < BMAX && w == f.l * h && f.c == c[..][0 := 0] && f.g <= BMAX
      && Patterns(f, x[..], Now())
    }

    /** q is the last table of the way and has z entries. */
    ghost predicate Current()
      reads this, u
    {
      0 <= h < u.Length && q == u[h] && q < |tables| && z == |tables[q]|
    }

    ghost predicate At(f: Plan, k: nat, fwd: nat)
      reads this, c, u, x
    {
      && Shaped(f) && i == Reversed(fwd, k) && Building(f, Now(), k, fwd)
      && (k <= f.l * (h + 1) ==> Current())
    }

    constructor (counts: array<nat>, offsets: array<nat>, l: nat)
      requires counts.Length == offsets.Length == BMAX + 1
      ensures c == counts && x == offsets && fresh(u) && u.Length == BMAX
      ensures tables == [] && ms == [] && h == -1 && w == 0 - l && i == 0
    {
      c := counts;
      u := new nat[BMAX](n => 0);
      x := offsets;
      tables, ms, h, w, q, z, i := [], [], -1, -(l as int), 0, 0, 0;
    }

    /** One round of "make tables up to required level". */
    method MakeTable(k: nat, a: nat, l: nat, g: nat, ghost f: Plan, ghost fwd: nat)
      requires At(f, k, fwd) && f.IsCode(k, fwd) && k > w + l && f.l == l && f.g == g
      requires a + 1 == NextCode(f.c, k) + f.c[k] - fwd && (h == -1 ==> k <= l)
      modifies this, u, x
      ensures At(f, k, fwd) && h == old(h) + 1 && Current()
    {
      hide Building, NextCode, Patterns, GoodWidth, Reversed, High, Low, Pow2, Plan.IsCode, Enough, Pushed, Opening;
      ghost var s, x0 := Now(), x[..];
      assert |s.st| == h + 1;
      TimesNext(l, h);
      WayLength(f, s, k, fwd);
      h := h + 1;
      w := w + l;
      var j := TableBits(c, k, w, l, g, a + 1, f, fwd);
      OpenTable(f, s, k, fwd, j);
      ghost var m := Meta(w, High(fwd, k - w), j);
      AddTable(j, l, m);
      assert Now() == Pushed(f, s, k, fwd, j);
      PatternsPushed(f, x0, s, Now(), m, i);
    }

    /** "allocate and link in new table": j bits wide, at level h. */
    method AddTable(j: nat, l: nat, ghost m: Meta)
      requires u.Length == BMAX && x.Length == BMAX + 1 && u != x && 0 <= h < BMAX
      requires h > 0 ==> l <= w && u[h - 1] < |tables| && High(i, w - l) < |tables[u[h - 1]]|
      modifies this`tables, this`ms, this`q, this`z, u, x
      ensures q == |old(tables)| && z == Pow2(j) && u[h] == q && ms == old(ms) + [m] && u[..h + 1] == old(u[..h]) + [q]
      ensures x[..] == if h > 0 then old(x[..])[h := i] else old(x[..])
      ensures tables == (if h > 0 then
                           old(tables)[u[h - 1] := old(tables)[u[h - 1]][High(i, w - l) := Huft(j, l, q)]]
                         else old(tables)) + [seq(z, n => Unset)]
    {
      ghost var x0, u0 := x[..], u[..h];
      q := |tables|;
      z := Pow2(j);
      if h > 0 {
        x[h] := i;
        var from, entry := u[h - 1], High(i, w - l);
        tables := tables[from := tables[from][entry := Huft(j, l, q)]];
      }
      u[h] := q;
      tables := tables + [seq(z, n => Unset)];
      ms := ms + [m];
      assert u[..h + 1] == u0 + [q];
      assert x[..] == if h > 0 then x0[h := i] else x0;
    }

    /** "fill code-like entries with r" for the current code. */
    method EnterCode(k: nat, exop: nat, base: nat, ghost f: Plan, ghost fwd: nat)
      requires At(f, k, fwd) && f.IsCode(k, fwd) && h >= 0 && k <= f.l * (h + 1)
      requires exop == f.pay(k, fwd).exop && base == f.pay(k, fwd).base
      modifies this`tables
      ensures Shaped(f) && i == Reversed(fwd, k) && Popping(f, Now(), k, fwd) && Current() && h == old(h)
    {
      hide Building, Patterns, Reaches, Popping, Reversed, High, Low, Pow2, Plan.IsCode, Placed, FilledTo;
      ghost var s := Now();
      TopReaches(f, s, k, fwd);
      PlaceStep(f, s, k, fwd);
      ReachesBounds(f, s, k, fwd);
      ReversedBelow(fwd, k);
      HighBelow(i, w, k - w);
      ghost var t0 := tables[q];
      tables := FillEntries(tables, q, z, High(i, w), k - w, Huft(exop, k - w, base));
      FilledIs(f, tables[q], t0, w, k, fwd, Huft(exop, k - w, base));
      PlacedIs(f, s, k, fwd, Now());
      assert Now() == Placed(f, s, k, fwd);
      assert Patterns(f, x[..], Now()) by { PatternsSame(f, x[..], s, Now()); }
    }

    /** The next code; tables that it does not go through are left. */
    method StepOver(k: nat, l: nat, ghost f: Plan, ghost fwd: nat)
      requires Shaped(f) && i == Reversed(fwd, k) && k >= 1 && fwd < Pow2(k) && Popping(f, Now(), k, fwd) && f.l == l
      requires Current()
      modifies this`i, this`h, this`w
      ensures fwd + 1 < Pow2(k) ==> At(f, k, fwd + 1)
      ensures fwd + 1 == Pow2(k) ==> Shaped(f) && Popping(f, Now(), k, fwd)
      ensures h >= 0
    {
      hide Building, Patterns, Popping, Reversed, High, Low, Pow2, Next, Stepping;
      i := Increment(i, k, fwd);
      SteppingStarts(k, f, fwd);
      while Low(i, w) != x[h]
        invariant Stepping(f, k, fwd) && x.Length == BMAX + 1 && 0 <= h < BMAX && w >= 0
        decreases h
      {
        StepBounds(f, k, fwd);
        PopTable(k, l, f, fwd);
      }
      SteppingEnds(k, f, fwd);
    }

    /** While tables are left: i holds the next code already. */
    ghost predicate Stepping(f: Plan, k: nat, fwd: nat)
      reads this, c, u, x
    {
      && Shaped(f) && h >= 0 && Popping(f, Now(), k, fwd) && i == Reversed(Next(fwd, k), k) && fwd < Pow2(k)
      && (Current() || k > f.l * (h + 1))
    }

    lemma StepBounds(f: Plan, k: nat, fwd: nat)
      requires Stepping(f, k, fwd)
      ensures x.Length == BMAX + 1 && 0 <= h < BMAX && w >= 0
      ensures Low(i, w) != x[h] ==> h > 0
    {
      hide Popping, Patterns, Reversed, High, Low, Pow2;
      TopOfWay(f, Now(), k, fwd);
      TopPattern(f, x[..], Now(), k, fwd, h, w);
      if h == 0 {
        LowNone(i);
      }
    }

    lemma SteppingStarts(k: nat, f: Plan, fwd: nat)
      requires Shaped(f) && Current() && Popping(f, Now(), k, fwd) && i == Reversed(Next(fwd, k), k) && fwd < Pow2(k)
      ensures Stepping(f, k, fwd) && x.Length == BMAX + 1 && 0 <= h < BMAX && w >= 0
    {
      hide Popping, Patterns, Reversed, Pow2;
      StepBounds(f, k, fwd);
    }

    /** One table is left. */
    method PopTable(k: nat, l: nat, ghost f: Plan, ghost fwd: nat)
      requires Stepping(f, k, fwd) && f.l == l && h > 0 && w >= 0 && Low(i, w) != x[h]
      modifies this`h, this`w
      ensures Stepping(f, k, fwd) && h == old(h) - 1 && h >= 0 && w >= 0
    {
      hide Patterns, Popping, Reversed, High, Low, Pow2, Next;
      ghost var s := Now();
      PopFacts(f, x[..], s, k, fwd, h, w);
      h := h - 1;
      w := w - l;
      assert Now() == s.(st := s.st[..|s.st| - 1]);
    }

    lemma SteppingEnds(k: nat, f: Plan, fwd: nat)
      requires Stepping(f, k, fwd) && x.Length == BMAX + 1 && 0 <= h < BMAX && w >= 0 && Low(i, w) == x[h]
      ensures fwd + 1 < Pow2(k) ==> At(f, k, fwd + 1)
      ensures fwd + 1 == Pow2(k) ==> Shaped(f) && Popping(f, Now(), k, fwd)
    {
      hide Building, Patterns, Popping, Reversed, High, Low, Pow2, Leaves, Next;
      if fwd + 1 < Pow2(k) {
        TopPattern(f, x[..], Now(), k, fwd, h, w);
        NextIs(fwd, k);
        StaysIf(f, Now(), k, fwd, h);
        PopDone(f, Now(), k, fwd);
      }
    }
  }
}
