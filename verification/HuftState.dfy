/**
 What the main loop of huft_build keeps: the tables made so far, those on the way to the
 current code, and which places are decoded already.
 */
module HuftState {
  import opened Arith
  import opened Bits
  import opened BitOrder
  import opened LengthRepair
  import opened CanonicalCodes
  import opened HuftTheory

  /** What is decoded to: the operation and base value of an entry. */
  datatype Op = Op(exop: nat, base: nat)

  /** Counts by length, greatest length, bits per table, and what each code stands for. */
  datatype Plan = Plan(c: seq<nat>, g: nat, l: nat, pay: (nat, nat) -> Op) {
    ghost predicate Valid() {
      && 1 <= l <= g < |c| && c[0] == 0 && c[g] > 0
      && KraftTo(c, g, g + 1) == Pow2(g)
      && forall k, v :: !(1 <= pay(k, v).exop <= 15)
    }

    /** fwd is one of the codes of k bits. */
    ghost predicate IsCode(k: nat, fwd: nat) {
      1 <= k <= g < |c| && NextCode(c, k) <= fwd < NextCode(c, k) + c[k]
    }

    ghost function At(k: nat, fwd: nat): nat
      requires k <= g
    {
      Pos(fwd, k, g)
    }

    /** Where the codes of up to k bits end. */
    ghost function EndOf(k: nat): nat
      requires k <= g < |c|
    {
      KraftTo(c, g, k + 1)
    }
  }

  // ----- codes in order

  lemma CodePlace(f: Plan, k: nat, fwd: nat)
    requires f.IsCode(k, fwd)
    ensures KraftTo(f.c, f.g, k) <= f.At(k, fwd) && f.At(k, fwd) + Pow2(f.g - k) <= KraftTo(f.c, f.g, k + 1)
  {
    NextCodeShare(f.c, f.g, k);
    var p, first := Pow2(f.g - k), NextCode(f.c, k);
    MulLe(first, p, fwd, p);
    MulLe(fwd + 1, p, first + f.c[k], p);
    MulAdd(p, fwd, 1);
    MulAdd(p, first, f.c[k]);
  }

  /** A code starts after all shorter codes have ended. */
  lemma ShorterBefore(f: Plan, k: nat, fwd: nat, n: nat)
    requires f.IsCode(k, fwd) && n < |f.c| && n <= f.g
    ensures n < k ==> f.EndOf(n) <= f.At(k, fwd)
    ensures f.EndOf(n) > f.At(k, fwd) ==> n >= k
  {
    hide NextCode;
    CodePlace(f, k, fwd);
    if n < k {
      KraftToMonotone(f.c, f.g, n + 1, k);
    }
  }

  /** Codes at increasing places have increasing lengths. */
  lemma LengthsGrow(f: Plan, k: nat, fwd: nat, n: nat, v: nat)
    requires f.IsCode(k, fwd) && f.IsCode(n, v) && f.At(n, v) <= f.At(k, fwd)
    ensures n <= k
  {
    CodePlace(f, n, v);
    CodePlace(f, k, fwd);
    hide KraftTo, NextCode;
    if k < n {
      KraftToMonotone(f.c, f.g, k + 1, n);
    }
  }

  // ----- tables

  /** r decodes the code of k bits that starts like the index. */
  ghost predicate LeafAt(f: Plan, m: Meta, idx: nat, r: Huft, k: nat) {
    && m.w < k <= m.w + m.j
    && var fwd := High(Full(m, idx), m.w + m.j - k);
       && f.IsCode(k, fwd)
       && r == Huft(f.pay(k, fwd).exop, k - m.w, f.pay(k, fwd).base)
  }

  /** r leads to the table for the l bits of the index. */
  ghost predicate LinkOf(f: Plan, ms: seq<Meta>, m: Meta, idx: nat, r: Huft) {
    && r.Huft? && r.more < |ms| && 1 <= r.exop <= 15 && r.bits == f.l <= m.j && idx < Pow2(f.l)
    && ms[r.more] == Meta(m.w + f.l, m.prefix * Pow2(f.l) + Reversed(idx, f.l), r.exop)
  }

  ghost predicate EntrySound(f: Plan, ms: seq<Meta>, m: Meta, idx: nat, r: Huft) {
    r.Unset? || (exists k :: LeafAt(f, m, idx, r, k)) || LinkOf(f, ms, m, idx, r)
  }

  ghost predicate TableSound(f: Plan, t: seq<Huft>, ms: seq<Meta>, m: Meta) {
    && 1 <= m.j && m.w + m.j <= f.g && |t| == Pow2(m.j)
    && forall idx :: 0 <= idx < |t| ==> EntrySound(f, ms, m, idx, t[idx])
  }

  /** Entries for places before pos are set. */
  ghost predicate CoveredTable(f: Plan, t: seq<Huft>, m: Meta, pos: nat) {
    && m.w + m.j <= f.g && |t| == Pow2(m.j)
    && forall idx :: 0 <= idx < |t| && Pos(Full(m, idx), m.w + m.j, f.g) < pos ==> !t[idx].Unset?
  }

  /** The table was made for a code that is the first with its prefix; if it is wider than l bits,
      that code is why, and the entries beyond the first 2^l are never used. */
  ghost predicate FirstCode(f: Plan, t: seq<Huft>, m: Meta, k: nat, fwd: nat) {
    && f.IsCode(k, fwd) && m.w < k && m.w <= f.g && f.At(k, fwd) == Pos(m.prefix, m.w, f.g)
    && k <= m.w + m.j && (m.j > f.l ==> k == m.w + m.j)
    && (m.j > f.l ==> forall idx :: Pow2(f.l) <= idx < |t| ==> t[idx].Unset?)
  }

  ghost predicate Begun(f: Plan, t: seq<Huft>, m: Meta) {
    && (exists k, fwd :: FirstCode(f, t, m, k, fwd))
    && exists n: nat :: m.w == f.l * n && (n == 0 ==> m.j <= f.l)
  }

  /** The tables, and the way from the first to the one for the current code. */
  datatype Work = Work(ts: seq<seq<Huft>>, ms: seq<Meta>, st: seq<nat>)

  ghost predicate Sound(f: Plan, s: Work) {
    |s.ts| == |s.ms| && forall n :: 0 <= n < |s.ts| ==> TableSound(f, s.ts[n], s.ms, s.ms[n]) && Begun(f, s.ts[n], s.ms[n])
  }

  /** No table is wider than l bits. */
  ghost predicate Plain(f: Plan, ms: seq<Meta>) {
    forall n :: 0 <= n < |ms| ==> ms[n].j <= f.l
  }

  ghost predicate Covered(f: Plan, s: Work, pos: nat) {
    |s.ts| == |s.ms| && forall n :: 0 <= n < |s.ts| ==> CoveredTable(f, s.ts[n], s.ms[n], pos)
  }

  /** The table has enough bits for all codes with its prefix, or the most it may have. */
  ghost predicate Enough(f: Plan, m: Meta) {
    m.w + m.j <= f.g < |f.c| && (m.j >= f.l || f.EndOf(m.w + m.j) >= Pos(m.prefix + 1, m.w, f.g))
  }

  /** The i-th table on the way stands for the first l * i bits of the code. */
  ghost predicate OnWay(f: Plan, s: Work, i: nat, k: nat, fwd: nat) {
    && i < |s.st| && s.st[i] < |s.ms| && f.l * i < k <= f.g
    && var m := s.ms[s.st[i]];
       m.w == f.l * i && m.prefix == High(fwd, k - f.l * i) && Enough(f, m)
  }

  /** How many bits the way decides. */
  function WayBits(f: Plan, s: Work): nat {
    f.l * |s.st|
  }

  /** It links to the next. */
  ghost predicate Linked(f: Plan, s: Work, i: nat) {
    && i + 1 < |s.st| && s.st[i] < |s.ts| == |s.ms| && s.st[i + 1] < |s.ms|
    && var idx := Reversed(Low(s.ms[s.st[i + 1]].prefix, f.l), f.l);
       idx < |s.ts[s.st[i]]| && !s.ts[s.st[i]][idx].Unset?
  }

  ghost predicate Way(f: Plan, s: Work, k: nat, fwd: nat) {
    && (forall i :: 0 <= i < |s.st| ==> OnWay(f, s, i, k, fwd))
    && (forall i :: 0 <= i < |s.st| - 1 ==> Linked(f, s, i))
  }

  /** Codes with the prefix of any other table are all done. */
  ghost predicate OffWay(f: Plan, s: Work, pos: nat) {
    forall n :: 0 <= n < |s.ms| && n !in s.st ==> s.ms[n].w <= f.g && Pos(s.ms[n].prefix + 1, s.ms[n].w, f.g) <= pos
  }

  /** The code is not the first with a prefix of t * l bits while being more than l bits longer than that. */
  ghost predicate NoSkipAt(f: Plan, k: nat, fwd: nat) {
    forall t: nat :: t >= 1 && f.l * t < k && Low(fwd, k - f.l * t) == 0 ==> k <= f.l * (t + 1)
  }

  ghost predicate NoSkipBefore(f: Plan, pos: nat) {
    forall k, fwd :: f.IsCode(k, fwd) && f.At(k, fwd) < pos ==> NoSkipAt(f, k, fwd)
  }

  /** The invariant, with the code (k, fwd) up next: everything before it is decoded if no table is too wide. */
  ghost predicate Building(f: Plan, s: Work, k: nat, fwd: nat) {
    && f.Valid() && k <= f.g && fwd < Pow2(k)
    && Sound(f, s) && Way(f, s, k, fwd) && OffWay(f, s, f.At(k, fwd))
    && (Plain(f, s.ms) ==> Covered(f, s, f.At(k, fwd)) && NoSkipBefore(f, f.At(k, fwd)))
    && (|s.st| == 0 ==> |s.ms| == 0 && fwd == 0)
    && (|s.st| > 0 ==> s.st[0] == 0 && |s.ms| > 0 && s.ms[0].j == f.l)
    // where the way is too short for the code, the code is the first beyond it
    && (k > WayBits(f, s) ==> Low(fwd, k - WayBits(f, s)) == 0)
  }

  // ----- a longer code

  lemma DoubleParts(v: nat, n: nat)
    ensures High(2 * v, n + 1) == High(v, n) && Low(2 * v, n + 1) == 2 * Low(v, n)
  {
    HighLow(v, n);
    var h, x, p := High(v, n), Low(v, n), Pow2(n);
    hide High, Low;
    MulAssoc(h, 2, p);
    HighLowUnique(2 * x, h, n + 1);
  }

  lemma SamePlace(f: Plan, k: nat, fwd: nat)
    requires k < f.g
    ensures f.At(k + 1, 2 * fwd) == f.At(k, fwd)
  {
    MulAssoc(fwd, 2, Pow2(f.g - k - 1));
  }

  /** Going on to the next length only appends a bit. */
  lemma Lengthen(f: Plan, s: Work, k: nat, fwd: nat)
    requires Building(f, s, k, fwd) && k < f.g
    ensures Building(f, s, k + 1, 2 * fwd)
  {
    hide Plan.Valid, Sound, Enough, OffWay, Plain, Covered, NoSkipBefore, Linked, Plan.At, High, Low;
    SamePlace(f, k, fwd);
    var k', fwd' := k + 1, 2 * fwd;
    forall i | 0 <= i < |s.st|
      ensures OnWay(f, s, i, k', fwd')
    {
      assert OnWay(f, s, i, k, fwd);
      DoubleParts(fwd, k - f.l * i);
    }
    if k + 1 > WayBits(f, s) {
      if k == WayBits(f, s) {
        EvenLow(fwd);
      } else {
        DoubleParts(fwd, k - WayBits(f, s));
      }
    }
  }

  lemma EvenLow(v: nat)
    ensures Low(2 * v, 1) == 0
  {
    assert Pow2(0) == 1 && Pow2(1) == 2;
    HighLowUnique(0, v, 1);
  }

  // ----- a new table

  /** The entry that leads to a table with the given prefix. */
  function LinkIndex(prefix: nat, l: nat): nat {
    Reversed(Low(prefix, l), l)
  }

  /** A new empty table behind the last of the way, for the code's next l bits. */
  ghost function Pushed(f: Plan, s: Work, k: nat, fwd: nat, j: nat): (s': Work)
    requires WayBits(f, s) < k
  {
    var w := WayBits(f, s);
    var m, id := Meta(w, High(fwd, k - w), j), |s.ms|;
    var none := seq(Pow2(j), i => Unset);
    Work(WithLink(f, s, m.prefix, Huft(j, f.l, id)) + [none], s.ms + [m], s.st + [id])
  }

  /** The tables with the link written into the last one of the way. */
  ghost function WithLink(f: Plan, s: Work, prefix: nat, r: Huft): (ts: seq<seq<Huft>>)
    ensures |ts| == |s.ts|
  {
    if |s.st| == 0 || s.st[|s.st| - 1] >= |s.ts| then s.ts
    else
      var top, idx := s.st[|s.st| - 1], LinkIndex(prefix, f.l);
      if idx < |s.ts[top]| then s.ts[top := s.ts[top][idx := r]] else s.ts
  }

  /** How many bits the new table may have. */
  ghost predicate GoodWidth(f: Plan, s: Work, k: nat, fwd: nat, j: nat) {
    && WayBits(f, s) < k <= WayBits(f, s) + j <= f.g && 1 <= j <= 15
    && (j > f.l ==> k == WayBits(f, s) + j)
    && Enough(f, Meta(WayBits(f, s), High(fwd, k - WayBits(f, s)), j))
    && (|s.st| == 0 ==> j == f.l)
  }

  lemma ProductStep(l: nat, n: nat)
    ensures n > 0 ==> l * (n - 1) + l == l * n
    ensures l * n + l == l * (n + 1)
  {
    MulAdd(l, n, 1);
    MulAdd(l, n - 1, 1);
  }

  lemma WayDistinct(f: Plan, s: Work, k: nat, fwd: nat, i: nat, j: nat)
    requires Way(f, s, k, fwd) && i < j < |s.st| && f.l >= 1
    ensures s.st[i] != s.st[j]
  {
    hide Enough, Linked, High;
    assert OnWay(f, s, i, k, fwd) && OnWay(f, s, j, k, fwd);
    MulLess(i, j, f.l);
  }

  /** The last table of the way, when it is too short for the code, has at least l bits. */
  lemma TopWide(f: Plan, s: Work, k: nat, fwd: nat)
    requires Way(f, s, k, fwd) && |s.st| > 0 && f.IsCode(k, fwd) && k > WayBits(f, s)
    ensures s.st[|s.st| - 1] < |s.ms| && s.ms[s.st[|s.st| - 1]].j >= f.l
  {
    hide High, KraftTo, NextCode, Linked;
    var i := |s.st| - 1;
    assert OnWay(f, s, i, k, fwd);
    var m := s.ms[s.st[i]];
    ProductStep(f.l, |s.st|);
    PosNest(fwd, k, m.w, f.g);
    hide Pos;
    if m.j < f.l {
      ShorterBefore(f, k, fwd, m.w + m.j);
    }
  }

  /** The prefix of the new table is that of the last one with the link's bits behind. */
  lemma PrefixGrows(fwd: nat, n: nat, l: nat)
    ensures var p := High(fwd, n);
            p == High(fwd, n + l) * Pow2(l) + Reversed(LinkIndex(p, l), l) && LinkIndex(p, l) < Pow2(l)
  {
    hide High, Low, Pow2, Reversed;
    HighHigh(fwd, n, l);
    HighLow(High(fwd, n), l);
    ReversedTwice(Low(High(fwd, n), l), l);
    ReversedBelow(Low(High(fwd, n), l), l);
  }

  lemma SoundExtends(f: Plan, t: seq<Huft>, ms: seq<Meta>, m: Meta, x: Meta)
    requires TableSound(f, t, ms, m)
    ensures TableSound(f, t, ms + [x], m)
  {
    hide LeafAt;
    forall idx | 0 <= idx < |t|
      ensures EntrySound(f, ms + [x], m, idx, t[idx])
    {
      assert EntrySound(f, ms, m, idx, t[idx]);
    }
  }

  lemma SetSound(f: Plan, t: seq<Huft>, ms: seq<Meta>, m: Meta, idx: nat, r: Huft)
    requires TableSound(f, t, ms, m) && idx < |t| && EntrySound(f, ms, m, idx, r)
    ensures TableSound(f, t[idx := r], ms, m)
  {
    hide EntrySound;
  }

  lemma SetBegun(f: Plan, t: seq<Huft>, m: Meta, idx: nat, r: Huft)
    requires Begun(f, t, m) && idx < |t| && idx < Pow2(f.l)
    ensures Begun(f, t[idx := r], m)
  {
    hide Plan.IsCode, Plan.At, Pos;
    var k, fwd :| FirstCode(f, t, m, k, fwd);
    assert FirstCode(f, t[idx := r], m, k, fwd);
  }

  lemma SetCovered(f: Plan, t: seq<Huft>, m: Meta, pos: nat, idx: nat, r: Huft)
    requires CoveredTable(f, t, m, pos) && idx < |t| && r.Huft?
    ensures CoveredTable(f, t[idx := r], m, pos)
  {
    hide Pos, Full;
  }

  /** A new table is empty and needs no entry yet. */
  lemma NewTable(f: Plan, ms: seq<Meta>, m: Meta, k: nat, fwd: nat, n: nat)
    requires f.IsCode(k, fwd) && m.w < k <= m.w + m.j <= f.g && 1 <= m.j && (m.j > f.l ==> k == m.w + m.j)
    requires m.prefix == High(fwd, k - m.w) && Low(fwd, k - m.w) == 0 && m.w == f.l * n && (n == 0 ==> m.j <= f.l)
    ensures var t := seq(Pow2(m.j), i => Unset);
            TableSound(f, t, ms, m) && Begun(f, t, m) && CoveredTable(f, t, m, f.At(k, fwd))
  {
    hide High, Low, NextCode, Pow2, Full;
    var t: seq<Huft> := seq(Pow2(m.j), i => Unset);
    PosNest(fwd, k, m.w, f.g);
    assert FirstCode(f, t, m, k, fwd);
    forall idx | 0 <= idx < |t|
      ensures Pos(Full(m, idx), m.w + m.j, f.g) >= f.At(k, fwd)
    {
      FullParts(m, idx);
      PosNest(Full(m, idx), m.w + m.j, m.w, f.g);
    }
  }

  /** What is known of the table that gets the link. */
  lemma TopFacts(f: Plan, s: Work, k: nat, fwd: nat, j: nat)
    requires Building(f, s, k, fwd) && f.IsCode(k, fwd) && k > WayBits(f, s) && GoodWidth(f, s, k, fwd, j) && |s.st| > 0
    ensures var w, top := WayBits(f, s), s.st[|s.st| - 1];
            var p := High(fwd, k - w);
            var idx, r := LinkIndex(p, f.l), Huft(j, f.l, |s.ms|);
            && top < |s.ts| == |s.ms| && idx < Pow2(f.l) <= |s.ts[top]|
            && LinkOf(f, s.ms + [Meta(w, p, j)], s.ms[top], idx, r)
  {
    hide KraftTo, NextCode, Pow2, High, Low, Reversed, LinkIndex, OffWay, Covered, NoSkipBefore, Plan.IsCode, Linked,
      Plan.Valid, EntrySound, Enough;
    var i, w := |s.st| - 1, WayBits(f, s);
    assert OnWay(f, s, i, k, fwd);
    TopWide(f, s, k, fwd);
    ProductStep(f.l, |s.st|);
    PrefixGrows(fwd, k - w, f.l);
    var top := s.st[i];
    assert TableSound(f, s.ts[top], s.ms, s.ms[top]);
    Pow2Monotone(f.l, s.ms[top].j);
  }

  lemma PushSound(f: Plan, s: Work, k: nat, fwd: nat, j: nat)
    requires Building(f, s, k, fwd) && f.IsCode(k, fwd) && k > WayBits(f, s) && GoodWidth(f, s, k, fwd, j)
    ensures Sound(f, Pushed(f, s, k, fwd, j))
  {
    hide KraftTo, NextCode, Pow2, High, Low, Reversed, LinkIndex, OffWay, Covered, NoSkipBefore, Plan.IsCode, Way, Linked,
      EntrySound, TableSound, Begun, LinkOf, Enough;
    var w := WayBits(f, s);
    var m := Meta(w, High(fwd, k - w), j);
    NewTable(f, s.ms + [m], m, k, fwd, |s.st|);
    var s' := Pushed(f, s, k, fwd, j);
    if |s.st| > 0 {
      TopFacts(f, s, k, fwd, j);
    }
    forall n | 0 <= n < |s.ts|
      ensures TableSound(f, s'.ts[n], s'.ms, s'.ms[n]) && Begun(f, s'.ts[n], s'.ms[n])
    {
      SoundExtends(f, s.ts[n], s.ms, s.ms[n], m);
      if |s.st| > 0 && n == s.st[|s.st| - 1] {
        var idx, r := LinkIndex(m.prefix, f.l), Huft(j, f.l, |s.ms|);
        LinkSound(f, s'.ms, s.ms[n], idx, r);
        SetSound(f, s.ts[n], s'.ms, s.ms[n], idx, r);
        SetBegun(f, s.ts[n], s.ms[n], idx, r);
      }
    }
  }

  lemma LinkSound(f: Plan, ms: seq<Meta>, m: Meta, idx: nat, r: Huft)
    requires LinkOf(f, ms, m, idx, r)
    ensures EntrySound(f, ms, m, idx, r)
  {
  }

  lemma PushCovered(f: Plan, s: Work, k: nat, fwd: nat, j: nat)
    requires Building(f, s, k, fwd) && f.IsCode(k, fwd) && k > WayBits(f, s) && GoodWidth(f, s, k, fwd, j)
    requires Covered(f, s, f.At(k, fwd))
    ensures Covered(f, Pushed(f, s, k, fwd, j), f.At(k, fwd))
  {
    hide KraftTo, NextCode, Pow2, High, Low, Reversed, LinkIndex, OffWay, NoSkipBefore, Plan.IsCode, Way, Linked,
      EntrySound, TableSound, Begun, CoveredTable, Enough, LinkOf, Plan.At;
    var w := WayBits(f, s);
    var m := Meta(w, High(fwd, k - w), j);
    NewTable(f, s.ms + [m], m, k, fwd, |s.st|);
    var s' := Pushed(f, s, k, fwd, j);
    if |s.st| > 0 {
      TopFacts(f, s, k, fwd, j);
    }
    forall n | 0 <= n < |s.ts|
      ensures CoveredTable(f, s'.ts[n], s'.ms[n], f.At(k, fwd))
    {
      if |s.st| > 0 && n == s.st[|s.st| - 1] {
        SetCovered(f, s.ts[n], s.ms[n], f.At(k, fwd), LinkIndex(m.prefix, f.l), Huft(j, f.l, |s.ms|));
      }
    }
  }

  lemma PushWay(f: Plan, s: Work, k: nat, fwd: nat, j: nat)
    requires Building(f, s, k, fwd) && f.IsCode(k, fwd) && k > WayBits(f, s) && GoodWidth(f, s, k, fwd, j)
    ensures Way(f, Pushed(f, s, k, fwd, j), k, fwd)
  {
    hide KraftTo, NextCode, Pow2, High, Low, Reversed, OffWay, NoSkipBefore, Plan.IsCode, EntrySound, TableSound, Begun,
      CoveredTable, LinkOf, Plan.At, Enough, Covered;
    var s' := Pushed(f, s, k, fwd, j);
    var h := |s.st|;
    if h > 0 {
      TopFacts(f, s, k, fwd, j);
    }
    forall i | 0 <= i < |s'.st|
      ensures OnWay(f, s', i, k, fwd)
    {
      if i < h {
        assert OnWay(f, s, i, k, fwd);
      }
    }
    forall i | 0 <= i < |s'.st| - 1
      ensures Linked(f, s', i)
    {
      if i < h - 1 {
        assert Linked(f, s, i);
        assert OnWay(f, s, i, k, fwd) && OnWay(f, s, i + 1, k, fwd);
        WayDistinct(f, s, k, fwd, i, h - 1);
      }
    }
  }

  /** Making a table keeps the invariant. */
  lemma PushStep(f: Plan, s: Work, k: nat, fwd: nat, j: nat)
    requires Building(f, s, k, fwd) && f.IsCode(k, fwd) && k > WayBits(f, s) && GoodWidth(f, s, k, fwd, j)
    ensures Building(f, Pushed(f, s, k, fwd, j), k, fwd)
  {
    hide Sound, Way, OffWay, Covered, NoSkipBefore, Plain, High, Low, Plan.At, Enough;
    PushSound(f, s, k, fwd, j);
    PushWay(f, s, k, fwd, j);
    if Plain(f, Pushed(f, s, k, fwd, j).ms) {
      PlainBefore(f, s.ms, Pushed(f, s, k, fwd, j).ms);
      PushCovered(f, s, k, fwd, j);
    }
    PushOff(f, s, k, fwd, j);
    PushRest(f, s, k, fwd);
  }

  lemma PlainBefore(f: Plan, ms: seq<Meta>, ms': seq<Meta>)
    requires Plain(f, ms') && ms <= ms'
    ensures Plain(f, ms)
  {
    assert forall n :: 0 <= n < |ms| ==> ms[n] == ms'[n];
  }

  lemma PushOff(f: Plan, s: Work, k: nat, fwd: nat, j: nat)
    requires Building(f, s, k, fwd) && k > WayBits(f, s)
    ensures OffWay(f, Pushed(f, s, k, fwd, j), f.At(k, fwd))
  {
    hide Sound, Way, Covered, NoSkipBefore, Plain, High, Low, Plan.At, Pos;
    var s' := Pushed(f, s, k, fwd, j);
    forall n | 0 <= n < |s'.ms| && n !in s'.st
      ensures s'.ms[n].w <= f.g && Pos(s'.ms[n].prefix + 1, s'.ms[n].w, f.g) <= f.At(k, fwd)
    {
      assert s'.st[|s.st|] == |s.ms|;
      assert forall x :: x in s.st ==> x in s'.st;
    }
  }

  /** A code that is the first with a prefix is also the first with a longer one. */
  lemma PushRest(f: Plan, s: Work, k: nat, fwd: nat)
    requires k > WayBits(f, s) && Low(fwd, k - WayBits(f, s)) == 0
    ensures k > f.l * (|s.st| + 1) ==> Low(fwd, k - f.l * (|s.st| + 1)) == 0
  {
    ProductStep(f.l, |s.st|);
    var n := k - WayBits(f, s);
    if k > f.l * (|s.st| + 1) {
      LowZero(fwd, n, n - f.l);
    }
  }

  lemma LowZero(v: nat, n: nat, m: nat)
    requires m <= n && Low(v, n) == 0
    ensures Low(v, m) == 0
  {
    HighLow(v, n);
    Pow2Add(n - m, m);
    hide High, Low, Pow2;
    MulAssoc(High(v, n), Pow2(n - m), Pow2(m));
    HighLowUnique(0, High(v, n) * Pow2(n - m), m);
  }
}
