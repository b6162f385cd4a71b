/** Entering a code into the table at the end of the way, and stepping to the next code. */
module HuftPlacing {
  import opened Arith
  import opened Bits
  import opened BitOrder
  import opened LengthRepair
  import opened CanonicalCodes
  import opened HuftTheory
  import opened HuftState

  /** The table with every entry set whose index starts with the code's bits after the prefix. */
  ghost function Filled(f: Plan, t: seq<Huft>, w: nat, k: nat, fwd: nat): (t': seq<Huft>)
    requires w <= k
    ensures |t'| == |t|
  {
    var op, q := f.pay(k, fwd), k - w;
    seq(|t|, idx requires 0 <= idx < |t| =>
      if Low(idx, q) == Reversed(Low(fwd, q), q) then Huft(op.exop, q, op.base) else t[idx])
  }

  /** The last table of the way is the one for the code. */
  ghost predicate Reaches(f: Plan, s: Work, k: nat, fwd: nat) {
    && |s.st| > 0 && f.IsCode(k, fwd) && k <= WayBits(f, s)
    && s.st[|s.st| - 1] < |s.ms| == |s.ts|
    && var m := s.ms[s.st[|s.st| - 1]];
       && m.w == f.l * (|s.st| - 1) < k <= m.w + m.j <= f.g
       && m.prefix == High(fwd, k - m.w) && m.j <= f.l
  }

  lemma TopReaches(f: Plan, s: Work, k: nat, fwd: nat)
    requires Building(f, s, k, fwd) && f.IsCode(k, fwd) && |s.st| > 0 && k <= WayBits(f, s)
    ensures Reaches(f, s, k, fwd)
  {
    hide High, Low, KraftTo, NextCode, Linked, OffWay, Covered, NoSkipBefore, Plain, Pow2;
    var i := |s.st| - 1;
    assert OnWay(f, s, i, k, fwd);
    var n := s.st[i];
    var m := s.ms[n];
    ProductStep(f.l, |s.st|);
    PosNest(fwd, k, m.w, f.g);
    assert TableSound(f, s.ts[n], s.ms, m) && Begun(f, s.ts[n], m);
    hide TableSound, Sound;
    FirstNotLonger(f, s.ts[n], m, k, fwd);
    hide Pos, Begun;
    if m.j < f.l {
      ShorterBefore(f, k, fwd, m.w + m.j);
    }
  }

  /** The first code with a prefix is not longer than the others; in a table that is too wide it is longer than l bits. */
  lemma FirstNotLonger(f: Plan, t: seq<Huft>, m: Meta, k: nat, fwd: nat)
    requires Begun(f, t, m) && f.IsCode(k, fwd) && m.w <= f.g && Pos(m.prefix, m.w, f.g) <= f.At(k, fwd)
    ensures m.j > f.l ==> k > m.w + f.l
  {
    hide KraftTo, NextCode, Pos, Pow2;
    var n, v :| FirstCode(f, t, m, n, v);
    LengthsGrow(f, k, fwd, n, v);
  }

  lemma FilledSound(f: Plan, t: seq<Huft>, ms: seq<Meta>, m: Meta, k: nat, fwd: nat)
    requires TableSound(f, t, ms, m) && f.IsCode(k, fwd) && m.w < k <= m.w + m.j && m.prefix == High(fwd, k - m.w)
    ensures TableSound(f, Filled(f, t, m.w, k, fwd), ms, m)
  {
    hide High, Low, NextCode, Pow2, Reversed, Full, LinkOf;
    var t' := Filled(f, t, m.w, k, fwd);
    forall idx | 0 <= idx < |t'|
      ensures EntrySound(f, ms, m, idx, t'[idx])
    {
      assert EntrySound(f, ms, m, idx, t[idx]);
      CodeAtIndex(m, idx, fwd, k);
      if Low(idx, k - m.w) == Reversed(Low(fwd, k - m.w), k - m.w) {
        assert LeafAt(f, m, idx, t'[idx], k);
      }
    }
  }

  lemma FilledBegun(f: Plan, t: seq<Huft>, m: Meta, k: nat, fwd: nat)
    requires Begun(f, t, m) && m.j <= f.l && m.w <= k
    ensures Begun(f, Filled(f, t, m.w, k, fwd), m)
  {
    hide KraftTo, NextCode, Pos, Pow2, Filled;
    var n, v :| FirstCode(f, t, m, n, v);
    assert FirstCode(f, Filled(f, t, m.w, k, fwd), m, n, v);
  }

  /** In the table itself the code's whole span is decoded. */
  lemma FilledCovers(f: Plan, t: seq<Huft>, m: Meta, k: nat, fwd: nat)
    requires k <= f.g && CoveredTable(f, t, m, f.At(k, fwd)) && m.w < k <= m.w + m.j && m.prefix == High(fwd, k - m.w)
    ensures CoveredTable(f, Filled(f, t, m.w, k, fwd), m, f.At(k, fwd) + Pow2(f.g - k))
  {
    hide High, Low, Pow2, Reversed, Full, Pos;
    var t' := Filled(f, t, m.w, k, fwd);
    PosMono(fwd, fwd, k, f.g);
    forall idx | 0 <= idx < |t'| && Pos(Full(m, idx), m.w + m.j, f.g) < f.At(k, fwd) + Pow2(f.g - k)
      ensures !t'[idx].Unset?
    {
      if Pos(Full(m, idx), m.w + m.j, f.g) >= f.At(k, fwd) {
        SameSpan(Full(m, idx), m.w + m.j, fwd, k, f.g);
        CodeAtIndex(m, idx, fwd, k);
      }
    }
  }

  /** Tables off the way are done with. */
  lemma OffCovered(f: Plan, t: seq<Huft>, m: Meta, pos: nat, pos': nat)
    requires CoveredTable(f, t, m, pos) && m.w <= f.g && Pos(m.prefix + 1, m.w, f.g) <= pos
    ensures CoveredTable(f, t, m, pos')
  {
    hide High, Low, Pow2, Full, Pos;
    forall idx | 0 <= idx < |t|
      ensures Pos(Full(m, idx), m.w + m.j, f.g) < pos
    {
      FullParts(m, idx);
      PosNest(Full(m, idx), m.w + m.j, m.w, f.g);
    }
  }

  /** A table on the way needs only its link for the code. */
  lemma LinkCovers(f: Plan, t: seq<Huft>, m: Meta, k: nat, fwd: nat, next: nat)
    requires k <= f.g && CoveredTable(f, t, m, f.At(k, fwd)) && m.w + f.l <= k && m.j == f.l
    requires next == High(fwd, k - m.w - f.l)
    requires LinkIndex(next, f.l) < |t| && !t[LinkIndex(next, f.l)].Unset?
    ensures CoveredTable(f, t, m, f.At(k, fwd) + Pow2(f.g - k))
  {
    hide High, Low, Pow2, Full, Pos, Reversed;
    PosMono(fwd, fwd, k, f.g);
    forall idx | 0 <= idx < |t| && Pos(Full(m, idx), m.w + m.j, f.g) < f.At(k, fwd) + Pow2(f.g - k)
      ensures !t[idx].Unset?
    {
      if Pos(Full(m, idx), m.w + m.j, f.g) >= f.At(k, fwd) {
        SameSpan(Full(m, idx), m.w + m.j, fwd, k, f.g);
        FullParts(m, idx);
        ReversedTwice(idx, f.l);
      }
    }
  }

  /** With the table for the code at hand, tables before it on the way have at least l bits. */
  lemma WayWide(f: Plan, s: Work, k: nat, fwd: nat, i: nat)
    requires Way(f, s, k, fwd) && f.IsCode(k, fwd) && i < |s.st| - 1
    ensures s.st[i] < |s.ms| && s.ms[s.st[i]].j >= f.l && f.l * (i + 1) < k && s.ms[s.st[i]].w == f.l * i
  {
    hide High, Low, KraftTo, NextCode, Linked;
    assert OnWay(f, s, i, k, fwd) && OnWay(f, s, i + 1, k, fwd);
    var m := s.ms[s.st[i]];
    ProductStep(f.l, i);
    PosNest(fwd, k, m.w, f.g);
    hide Pos;
    if m.j < f.l {
      ShorterBefore(f, k, fwd, m.w + m.j);
    }
  }

  /** The tables after the code has been entered. */
  ghost function Placed(f: Plan, s: Work, k: nat, fwd: nat): (s': Work)
    requires Reaches(f, s, k, fwd)
  {
    var top := s.st[|s.st| - 1];
    s.(ts := s.ts[top := Filled(f, s.ts[top], s.ms[top].w, k, fwd)])
  }

  lemma PlacedSound(f: Plan, s: Work, k: nat, fwd: nat)
    requires Building(f, s, k, fwd) && Reaches(f, s, k, fwd)
    ensures Sound(f, Placed(f, s, k, fwd))
  {
    hide High, Low, NextCode, Pow2, Way, OffWay, Covered, NoSkipBefore, Plain, TableSound, Begun, Filled, KraftTo, Plan.IsCode;
    var top := s.st[|s.st| - 1];
    var s' := Placed(f, s, k, fwd);
    FilledSound(f, s.ts[top], s.ms, s.ms[top], k, fwd);
    FilledBegun(f, s.ts[top], s.ms[top], k, fwd);
    forall n | 0 <= n < |s'.ts|
      ensures TableSound(f, s'.ts[n], s'.ms, s'.ms[n]) && Begun(f, s'.ts[n], s'.ms[n])
    {
    }
  }

  lemma PlacedWay(f: Plan, s: Work, k: nat, fwd: nat)
    requires Building(f, s, k, fwd) && Reaches(f, s, k, fwd)
    ensures Way(f, Placed(f, s, k, fwd), k, fwd)
  {
    hide High, Low, NextCode, Pow2, OffWay, Covered, NoSkipBefore, Plain, Sound, KraftTo, Plan.IsCode, Reversed, Enough;
    var s' := Placed(f, s, k, fwd);
    forall i | 0 <= i < |s'.st|
      ensures OnWay(f, s', i, k, fwd)
    {
      assert OnWay(f, s, i, k, fwd);
    }
    forall i | 0 <= i < |s'.st| - 1
      ensures Linked(f, s', i)
    {
      assert Linked(f, s, i);
      WayDistinct(f, s, k, fwd, i, |s.st| - 1);
    }
  }

  lemma PlacedCovered(f: Plan, s: Work, k: nat, fwd: nat)
    requires Building(f, s, k, fwd) && Reaches(f, s, k, fwd) && Plain(f, s.ms)
    ensures Covered(f, Placed(f, s, k, fwd), f.At(k, fwd) + Pow2(f.g - k))
  {
    hide High, Low, NextCode, Pow2, NoSkipBefore, Sound, KraftTo, Plan.IsCode, CoveredTable, Filled, Plan.At, Reversed,
      LinkIndex, Enough;
    var pos := f.At(k, fwd);
    var s' := Placed(f, s, k, fwd);
    var h := |s.st| - 1;
    forall n | 0 <= n < |s'.ts|
      ensures CoveredTable(f, s'.ts[n], s'.ms[n], pos + Pow2(f.g - k))
    {
      if n !in s.st {
        OffCovered(f, s.ts[n], s.ms[n], pos, pos + Pow2(f.g - k));
      } else if n == s.st[h] {
        FilledCovers(f, s.ts[n], s.ms[n], k, fwd);
      } else {
        var i :| 0 <= i < |s.st| && s.st[i] == n;
        WayWide(f, s, k, fwd, i);
        ProductStep(f.l, i);
        assert OnWay(f, s, i + 1, k, fwd) && Linked(f, s, i);
        LinkedIs(f, s, i);
        LinkCovers(f, s.ts[n], s.ms[n], k, fwd, s.ms[s.st[i + 1]].prefix);
      }
    }
  }

  lemma LinkedIs(f: Plan, s: Work, i: nat)
    requires Linked(f, s, i)
    ensures var idx := LinkIndex(s.ms[s.st[i + 1]].prefix, f.l);
            idx < |s.ts[s.st[i]]| && !s.ts[s.st[i]][idx].Unset?
  {
  }

  /** No other code starts within the span of a code. */
  lemma OneCode(f: Plan, k: nat, fwd: nat, n: nat, v: nat)
    requires f.IsCode(k, fwd) && f.IsCode(n, v) && f.At(k, fwd) <= f.At(n, v) < f.At(k, fwd) + Pow2(f.g - k)
    ensures n == k && v == fwd
  {
    CodePlace(f, k, fwd);
    ShorterBefore(f, n, v, k);
    LengthsGrow(f, n, v, k, fwd);
    PosMono(fwd, v, k, f.g);
    PosMono(v, fwd + 1, k, f.g);
    PosMono(fwd, fwd, k, f.g);
  }

  /** If no table is too wide, the code just entered does not skip a table. */
  lemma NoSkipHere(f: Plan, s: Work, k: nat, fwd: nat)
    requires Building(f, s, k, fwd) && Reaches(f, s, k, fwd) && Plain(f, s.ms)
    ensures NoSkipAt(f, k, fwd)
  {
    hide High, Low, NextCode, Pow2, NoSkipBefore, OffWay, KraftTo, Covered, Linked, Enough, TableSound;
    forall t: nat | t >= 1 && f.l * t < k && Low(fwd, k - f.l * t) == 0
      ensures k <= f.l * (t + 1)
    {
      if t >= |s.st| {
        MulLe(f.l, |s.st|, f.l, t);
      }
      assert OnWay(f, s, t, k, fwd);
      var n := s.st[t];
      PosNest(fwd, k, f.l * t, f.g);
      ProductStep(f.l, t);
      assert Begun(f, s.ts[n], s.ms[n]);
      var kf, vf :| FirstCode(f, s.ts[n], s.ms[n], kf, vf);
      LengthsGrow(f, kf, vf, k, fwd);
    }
  }

  lemma NoSkipNext(f: Plan, s: Work, k: nat, fwd: nat)
    requires Building(f, s, k, fwd) && Reaches(f, s, k, fwd) && Plain(f, s.ms)
    ensures NoSkipBefore(f, f.At(k, fwd) + Pow2(f.g - k))
  {
    NoSkipHere(f, s, k, fwd);
    hide NoSkipAt, Plan.At, Plan.IsCode, Sound, Way, OffWay, Covered, Low, High, Pow2;
    forall n, v | f.IsCode(n, v) && f.At(n, v) < f.At(k, fwd) + Pow2(f.g - k)
      ensures NoSkipAt(f, n, v)
    {
      if f.At(n, v) >= f.At(k, fwd) {
        OneCode(f, k, fwd, n, v);
      }
    }
  }

  // ----- on to the next code

  /** The place behind a code. */
  ghost function Behind(f: Plan, k: nat, fwd: nat): nat
    requires k <= f.g
  {
    f.At(k, fwd) + Pow2(f.g - k)
  }

  /** The code (k, fwd) is entered; tables are being left that the next code does not go through. */
  ghost predicate Popping(f: Plan, s: Work, k: nat, fwd: nat) {
    && f.Valid() && f.IsCode(k, fwd) && fwd < Pow2(k)
    && Sound(f, s) && Way(f, s, k, fwd) && OffWay(f, s, Behind(f, k, fwd))
    && (Plain(f, s.ms) ==> Covered(f, s, Behind(f, k, fwd)) && NoSkipBefore(f, Behind(f, k, fwd)))
    && |s.st| > 0 && s.st[0] == 0 && |s.ms| > 0 && s.ms[0].j == f.l
    && (k > WayBits(f, s) ==> Low(fwd + 1, k - WayBits(f, s)) == 0)
  }

  /** Entering the code. */
  lemma PlaceStep(f: Plan, s: Work, k: nat, fwd: nat)
    requires Building(f, s, k, fwd) && Reaches(f, s, k, fwd)
    ensures Popping(f, Placed(f, s, k, fwd), k, fwd)
  {
    PlacedSound(f, s, k, fwd);
    PlacedWay(f, s, k, fwd);
    if Plain(f, s.ms) {
      PlacedCovered(f, s, k, fwd);
      NoSkipNext(f, s, k, fwd);
    }
    PlacedOff(f, s, k, fwd);
    hide Sound, Way, OffWay, Covered, NoSkipBefore, Plain, High, Low, Plan.At, Plan.IsCode, Filled, Pow2;
  }

  lemma PlacedOff(f: Plan, s: Work, k: nat, fwd: nat)
    requires Building(f, s, k, fwd) && Reaches(f, s, k, fwd)
    ensures OffWay(f, Placed(f, s, k, fwd), Behind(f, k, fwd))
  {
    hide Sound, Way, Covered, NoSkipBefore, Plain, High, Low, Plan.At, Plan.IsCode, Filled, Pow2, Pos;
  }

  /** The next number changes the high bits only by carrying over all the low ones. */
  lemma NextHigh(v: nat, n: nat)
    ensures High(v + 1, n) == High(v, n) || (High(v + 1, n) == High(v, n) + 1 && Low(v + 1, n) == 0)
  {
    HighLow(v, n);
    var h, x, p := High(v, n), Low(v, n), Pow2(n);
    hide High, Low, Pow2;
    if x + 1 < p {
      HighLowUnique(x + 1, h, n);
    } else {
      MulAdd(p, h, 1);
      HighLowUnique(0, h + 1, n);
    }
  }

  /** The next code has left the last table of the way. */
  ghost predicate Leaves(f: Plan, s: Work, k: nat, fwd: nat) {
    |s.st| > 0 && f.l * (|s.st| - 1) <= k
    && High(fwd + 1, k - f.l * (|s.st| - 1)) != High(fwd, k - f.l * (|s.st| - 1))
  }

  lemma PopStep(f: Plan, s: Work, k: nat, fwd: nat)
    requires Popping(f, s, k, fwd) && Leaves(f, s, k, fwd) && |s.st| > 1
    ensures Popping(f, s.(st := s.st[..|s.st| - 1]), k, fwd)
  {
    hide Sound, Covered, NoSkipBefore, Plain, Enough, High, Low, Pow2, Plan.IsCode, Pos, KraftTo;
    var h := |s.st| - 1;
    var s' := s.(st := s.st[..h]);
    assert OnWay(f, s, h, k, fwd);
    NextHigh(fwd, k - f.l * h);
    PosNest(fwd + 1, k, f.l * h, f.g);
    PosMono(fwd, fwd, k, f.g);
    forall n | 0 <= n < |s'.ms| && n !in s'.st
      ensures s'.ms[n].w <= f.g && Pos(s'.ms[n].prefix + 1, s'.ms[n].w, f.g) <= Behind(f, k, fwd)
    {
      PoppedMember(s.st, n);
    }
    forall i | 0 <= i < |s'.st|
      ensures OnWay(f, s', i, k, fwd)
    {
      assert OnWay(f, s, i, k, fwd);
    }
    forall i | 0 <= i < |s'.st| - 1
      ensures Linked(f, s', i)
    {
      assert Linked(f, s, i);
    }
    SameTables(f, s, s', Behind(f, k, fwd));
  }

  lemma PoppedMember(st: seq<nat>, n: nat)
    requires |st| > 0
    ensures n in st && n !in st[..|st| - 1] ==> n == st[|st| - 1]
  {
    assert st == st[..|st| - 1] + [st[|st| - 1]];
  }

  lemma SameTables(f: Plan, s: Work, s': Work, pos: nat)
    requires s'.ts == s.ts && s'.ms == s.ms
    ensures Sound(f, s) ==> Sound(f, s')
    ensures Covered(f, s, pos) ==> Covered(f, s', pos)
  {
  }

  /** The next code goes on in the same table. */
  lemma PopDone(f: Plan, s: Work, k: nat, fwd: nat)
    requires Popping(f, s, k, fwd) && !Leaves(f, s, k, fwd) && fwd + 1 < Pow2(k)
    ensures Building(f, s, k, fwd + 1)
  {
    hide Sound, OffWay, Covered, NoSkipBefore, Plain, Enough, High, Low, Pow2, Plan.IsCode, KraftTo, Linked, Pos;
    var h, k', v := |s.st| - 1, k, fwd + 1;
    PosMono(fwd, fwd, k, f.g);
    assert OnWay(f, s, h, k, fwd);
    forall i | 0 <= i < |s.st|
      ensures OnWay(f, s, i, k', v)
    {
      assert OnWay(f, s, i, k, fwd);
      MulLe(f.l, i, f.l, h);
      HighHigh(fwd, k - f.l * h, f.l * h - f.l * i);
      HighHigh(v, k - f.l * h, f.l * h - f.l * i);
    }
    CodeBound(f, k, fwd);
  }

  lemma CodeBound(f: Plan, k: nat, fwd: nat)
    requires f.IsCode(k, fwd)
    ensures k <= f.g
  {
  }

  // ----- the finished tables

  ghost predicate AllSet(ts: seq<seq<Huft>>) {
    forall n, idx :: 0 <= n < |ts| && 0 <= idx < |ts[n]| ==> !ts[n][idx].Unset?
  }

  /** No code at all skips a table. */
  ghost predicate NoSkip(f: Plan) {
    forall k, fwd :: f.IsCode(k, fwd) ==> NoSkipAt(f, k, fwd)
  }

  /** After the last code every place is behind. */
  lemma LastCode(f: Plan, k: nat, fwd: nat)
    requires k <= f.g && fwd + 1 == Pow2(k)
    ensures Behind(f, k, fwd) == Pow2(f.g)
  {
    PosMono(fwd, fwd, k, f.g);
    Pow2Add(k, f.g - k);
  }

  lemma CodesInside(f: Plan, k: nat, fwd: nat)
    requires f.Valid() && f.IsCode(k, fwd)
    ensures f.At(k, fwd) < Pow2(f.g)
  {
    hide NextCode;
    CodePlace(f, k, fwd);
    KraftToMonotone(f.c, f.g, k + 1, f.g + 1);
  }

  lemma EntryInside(f: Plan, t: seq<Huft>, m: Meta, idx: nat)
    requires f.Valid() && Begun(f, t, m) && m.w + m.j <= f.g
    ensures Pos(Full(m, idx), m.w + m.j, f.g) < Pow2(f.g)
  {
    hide KraftTo, NextCode, High, Full;
    var k, v :| FirstCode(f, t, m, k, v);
    CodesInside(f, k, v);
    FullParts(m, idx);
    PosNest(Full(m, idx), m.w + m.j, m.w, f.g);
    Pow2Add(m.w, f.g - m.w);
    PosMono(m.prefix, Pow2(m.w), m.w, f.g);
    PosMono(m.prefix + 1, Pow2(m.w), m.w, f.g);
  }

  /** The first code of a table that is too wide skips a table. */
  lemma WideSkips(f: Plan, t: seq<Huft>, m: Meta)
    requires f.Valid() && Begun(f, t, m) && m.j > f.l
    ensures !NoSkip(f)
  {
    hide KraftTo, NextCode, High, Low;
    var k, v :| FirstCode(f, t, m, k, v);
    var n: nat :| m.w == f.l * n && (n == 0 ==> m.j <= f.l);
    ProductStep(f.l, n);
    AlignedLow(v, k, m.prefix, m.w, f.g);
    assert !NoSkipAt(f, k, v);
  }

  lemma AlignedLow(v: nat, k: nat, p: nat, w: nat, g: nat)
    requires w <= k <= g && Pos(v, k, g) == Pos(p, w, g)
    ensures Low(v, k - w) == 0
  {
    Pow2Add(k - w, g - k);
    MulAssoc(p, Pow2(k - w), Pow2(g - k));
    PosMono(v, p * Pow2(k - w), k, g);
    hide Pos, Pow2;
    HighLowUnique(0, p, k - w);
  }

  /** All entries are set exactly if no code skips a table. */
  lemma TablesComplete(f: Plan, s: Work, k: nat, fwd: nat)
    requires Popping(f, s, k, fwd) && fwd + 1 == Pow2(k)
    ensures AllSet(s.ts) <==> NoSkip(f)
    ensures AllSet(s.ts) ==> Plain(f, s.ms)
  {
    hide Way, OffWay, High, Low, Pos, KraftTo, NextCode, Full, EntrySound, NoSkipAt;
    LastCode(f, k, fwd);
    if Plain(f, s.ms) {
      forall n, idx | 0 <= n < |s.ts| && 0 <= idx < |s.ts[n]|
        ensures !s.ts[n][idx].Unset?
      {
        assert TableSound(f, s.ts[n], s.ms, s.ms[n]);
        EntryInside(f, s.ts[n], s.ms[n], idx);
        assert CoveredTable(f, s.ts[n], s.ms[n], Pow2(f.g));
      }
      forall n, v | f.IsCode(n, v)
        ensures NoSkipAt(f, n, v)
      {
        CodesInside(f, n, v);
      }
    } else {
      var n :| 0 <= n < |s.ms| && s.ms[n].j > f.l;
      WideSkips(f, s.ts[n], s.ms[n]);
      WideUnset(f, s.ts[n], s.ms, s.ms[n]);
    }
  }

  lemma WideUnset(f: Plan, t: seq<Huft>, ms: seq<Meta>, m: Meta)
    requires TableSound(f, t, ms, m) && Begun(f, t, m) && m.j > f.l
    ensures Pow2(f.l) < |t| && t[Pow2(f.l)].Unset?
  {
    hide EntrySound, KraftTo, Pos;
    var k, v :| FirstCode(f, t, m, k, v);
    Pow2Monotone(f.l, m.j);
  }
}
