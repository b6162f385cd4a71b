/**
 What each entry that inflate meets means for the block it is decoding.  The resumable decoder
 and the unrolled one read the same entries, so both rest on the facts here.
 */
module InflateSteps {
  import opened Options
  import opened Bits
  import opened BitOrder
  import opened Alphabet
  import opened Lz77Tokens
  import opened Blocks
  import opened HuftTheory
  import opened HuftState
  import opened HuftTrees
  import opened HuftDecoding
  import opened InflateScript
  import opened BitReading
  import opened BitWriting

  // ----- the output told so far

  /** The first i tokens turn the history h into hist. */
  ghost predicate Told(h: seq<byte>, ts: seq<Token>, i: nat, hist: seq<byte>) {
    i <= |ts| && ExpandOn(h, ts[..i]) == Some(hist)
  }

  /** No token reaches back beyond the history or a window of the given size. */
  ghost predicate InWindow(h: seq<byte>, ts: seq<Token>, size: nat) {
    ExpandOn(h, ts).Some? && forall i :: 0 <= i < |ts| ==> ts[i].dist <= size
  }

  lemma NothingTold(h: seq<byte>, ts: seq<Token>)
    ensures Told(h, ts, 0, h)
  {
    assert ts[..0] == [];
  }

  lemma AllTold(h: seq<byte>, ts: seq<Token>, hist: seq<byte>)
    requires Told(h, ts, |ts|, hist)
    ensures ExpandOn(h, ts) == Some(hist)
  {
    assert ts[..|ts|] == ts;
  }

  lemma {:induction false} PartExpands(h: seq<byte>, ts: seq<Token>, i: nat)
    requires i <= |ts| && ExpandOn(h, ts).Some?
    ensures ExpandOn(h, ts[..i]).Some?
    decreases |ts|
  {
    if i == |ts| {
      assert ts[..i] == ts;
    } else {
      assert ts[..|ts| - 1][..i] == ts[..i];
      PartExpands(h, ts[..|ts| - 1], i);
    }
  }

  lemma TellNext(h: seq<byte>, ts: seq<Token>, i: nat, hist: seq<byte>, size: nat)
    requires InWindow(h, ts, size) && Told(h, ts, i, hist) && i < |ts|
    ensures ts[i].dist == 0 ==> ts[i].lc < 256 && Told(h, ts, i + 1, hist + [ts[i].lc])
    ensures ts[i].dist > 0 ==> ts[i].dist <= |hist| && Told(h, ts, i + 1, Copy(hist, ts[i].dist, ts[i].lc + MIN_MATCH))
  {
    hide ExpandOn, Copy, InWindow;
    WindowExpands(h, ts, size);
    PartExpands(h, ts, i + 1);
    var front := ts[..i + 1];
    assert front[..|front| - 1] == ts[..i] && front[i] == ts[i];
    OneMore(h, front);
  }

  lemma WindowExpands(h: seq<byte>, ts: seq<Token>, size: nat)
    requires InWindow(h, ts, size)
    ensures ExpandOn(h, ts).Some?
  {
  }

  lemma OneMore(h: seq<byte>, ts: seq<Token>)
    requires ts != [] && ExpandOn(h, ts).Some?
    ensures var front, t := ExpandOn(h, ts[..|ts| - 1]), ts[|ts| - 1];
            && front.Some?
            && (t.dist == 0 ==> t.lc < 256 && ExpandOn(h, ts) == Some(front.value + [t.lc]))
            && (t.dist > 0 ==> t.dist <= |front.value| && ExpandOn(h, ts) == Some(Copy(front.value, t.dist, t.lc + MIN_MATCH)))
  {
    hide Copy;
  }

  // ----- what an item is worth

  /** What the length to come is. */
  ghost function MatchLength(s: Script, i: nat): nat
    requires s.HasLength(i) && s.LenCode(i) < LENGTH_CODES
  {
    Cplens()[s.LenCode(i)] + s.LenExtra(i)
  }

  /** Lengths are from 3 to 258. */
  lemma LengthsWithin(c: nat, x: nat)
    requires LengthOk(c, x)
    ensures MIN_MATCH <= Cplens()[c] + x <= MAX_MATCH
  {
    CplensLeast(c);
    LbitsAt(c);
    CplensStep(if c < 27 then c else 27);
    PowSmall();
    hide ExtraLbits, Pow2;
    CplensMost(if c < 27 then c + 1 else 27);
  }

  lemma CplensMost(c: nat)
    requires c <= 27
    ensures Cplens()[c] <= 227
  {
  }

  lemma TokenIs(s: Script, i: nat)
    requires s.Valid() && i < |s.items|
    ensures |s.ts| == |s.items|
    ensures s.items[i].Lit? ==> s.ts[i] == Token(0, s.items[i].b) && s.items[i].b < 256
    ensures s.items[i].Match? ==>
              && LengthOk(s.LenCode(i), s.LenExtra(i)) && s.ts[i].lc + MIN_MATCH == MatchLength(s, i) <= MAX_MATCH
              && s.items[i].dc < D_CODES && s.ts[i].dist == Cpdist()[s.items[i].dc] + s.items[i].y > 0
  {
    ItemAt(s, i);
    TabledSizes(s);
    hide Script.Valid, ExtraDbits, ExtraLbits, Cplens, Cpdist, Pow2, LengthOk, Item.Valid, Item.Token;
    ItemToken(s.items[i]);
  }

  lemma ItemAt(s: Script, i: nat)
    requires s.Valid() && i < |s.items|
    ensures s.items[i].Valid() && |s.ts| == |s.items| && s.ts[i] == s.items[i].Token()
  {
    hide Table.Valid, Table.Codes, Item.Valid, Item.Token;
    assert s.Sends(s.items[i]);
  }

  lemma ItemToken(m: Item)
    requires m.Valid()
    ensures m.Lit? ==> m.Token() == Token(0, m.b) && m.b < 256
    ensures m.Match? ==>
              && LengthOk(m.c, m.x) && m.Token().lc + MIN_MATCH == Cplens()[m.c] + m.x <= MAX_MATCH && m.dc < D_CODES
              && m.Token().dist == Cpdist()[m.dc] + m.y > 0
  {
    hide ExtraDbits, ExtraLbits, Cplens, Cpdist, Pow2, LengthOk;
    if m.Match? {
      LengthsWithin(m.c, m.x);
      CpdistPositive(m.dc);
    }
  }

  lemma TabledSizes(s: Script)
    requires s.Valid()
    ensures |s.ts| == |s.items|
  {
    hide Table.Valid;
  }

  lemma CpdistPositive(dc: nat)
    requires dc < D_CODES
    ensures Cpdist()[dc] > 0
  {
  }

  // ----- what an entry means

  /** What entry r of the literal/length tables says about item i, once its bits are dropped. */
  ghost predicate LengthMeans(s: Script, i: nat, past: seq<bool>, rest: seq<bool>, r: Huft)
    requires s.Valid()
  {
    && r.Huft? && 1 <= r.bits <= |rest| && i <= |s.items|
    && var more := rest[r.bits..];
       if r.exop == 0 then
         i < |s.items| && s.items[i] == Lit(r.more) && more == s.From(i + 1)
       else if (r.exop / 16) % 2 == 1 then
         && AtExtra(s, i, more) && r.exop % 16 == ExtraLbits()[s.LenCode(i)] <= 5
         && r.more + s.LenExtra(i) == MatchLength(s, i)
       else if (r.exop / 64) % 2 == 0 then
         Follows(s.lt, r, past, rest)
       else if (r.exop / 32) % 2 == 1 then
         i == |s.items| && s.ending.EndOfBlock? && more == s.tail
       else
         i == |s.items| && s.ending.BadLength? && more == s.tail
  }

  lemma LengthEntry(s: Script, i: nat, n: nat, past: seq<bool>, look: seq<bool>, rest: seq<bool>)
    requires s.Valid() && i <= |s.items| && AtTable(s.lt.f, s.lt.Work(), n, past) && past + rest == s.From(i) && look <= rest
    ensures Looked(s.lt, n, past)
    ensures s.lt.ms[n].j <= |look| ==>
              var r := EntryAt(s.lt.Work(), n, look);
              LengthMeans(s, i, past, rest, r) && r.bits <= s.lt.ms[n].j
  {
    TablesValid(s);
    hide Script.Valid, Script.Tabled, Table.Valid, Script.From, Script.HasLength, AtTable, EntryAt, AtExtra, LengthMeans, IsInvalid,
      IsLink, Follows, Tells, Plan.IsCode, ToBits, LowBits, Pow2, Cplens, Cplext, Cpdist, Cpdext, ExtraLbits, ExtraDbits;
    var k, v, op := NextLength(s, i);
    LookUp(s.lt, 257, Cplens(), Cplext(), n, past, look, rest, k, v);
    if s.lt.ms[n].j <= |look| {
      LengthEntryMeans(s, i, past, rest, EntryAt(s.lt.Work(), n, look), op, k);
    }
  }

  lemma TablesValid(s: Script)
    requires s.Valid()
    ensures s.lt.Valid(257, Cplens(), Cplext()) && s.dt.Valid(0, Cpdist(), Cpdext())
  {
    hide Table.Valid, Cplens, Cplext, Cpdist, Cpdext;
  }

  lemma LengthEntryMeans(s: Script, i: nat, past: seq<bool>, rest: seq<bool>, r: Huft, op: Op, k: nat)
    requires k <= |past| + |rest| && s.Valid() && i <= |s.items| && past + rest == s.From(i) && r.Huft?
    requires i < |s.items| && s.items[i].Lit? ==> op == Op(0, s.items[i].b) && s.From(i)[k..] == s.From(i + 1)
    requires s.HasLength(i) ==>
               AtExtra(s, i, s.From(i)[k..]) && var c := s.LenCode(i); op == Op(ExtraLbits()[c] + 80, Cplens()[c]) && ExtraLbits()[c] <= 5
    requires i == |s.items| && s.ending.EndOfBlock? ==> op == Op(96, 256) && s.From(i)[k..] == s.tail
    requires i == |s.items| && s.ending.BadLength? ==> IsInvalid(op) && s.From(i)[k..] == s.tail
    requires IsLink(r) ==> Follows(s.lt, r, past, rest)
    requires !IsLink(r) ==> Tells(r, op, k, past, rest)
    ensures LengthMeans(s, i, past, rest, r)
  {
    hide Script.Valid, Script.Tabled, Script.From, Script.AfterLength, ExtraLbits, Cplens, Pow2, LowBits, AtTable;
    if !IsLink(r) && s.HasLength(i) {
      ExtraOp(ExtraLbits()[s.LenCode(i)]);
    }
  }

  lemma ExtraOp(e: nat)
    requires e <= 13
    ensures ((e + 80) / 16) % 2 == 1 && (e + 80) % 16 == e && e + 80 > 0
  {
  }

  /** What entry r of the distance tables says about item i. */
  ghost predicate DistanceMeans(s: Script, i: nat, past: seq<bool>, rest: seq<bool>, r: Huft)
    requires s.Valid()
  {
    && r.Huft? && 1 <= r.bits <= |rest| && i <= |s.items|
    && var more := rest[r.bits..];
       if (r.exop / 16) % 2 == 1 then
         && i < |s.items| && s.items[i].Match? && s.items[i].dc < D_CODES
         && var dc, y := s.items[i].dc, s.items[i].y;
            && r.exop % 16 == ExtraDbits()[dc] <= 13 && r.more == Cpdist()[dc] && y < Pow2(ExtraDbits()[dc])
            && more == LowBits(y, ExtraDbits()[dc]) + s.From(i + 1)
       else if (r.exop / 64) % 2 == 0 then
         Follows(s.dt, r, past, rest)
       else
         i == |s.items| && s.ending.BadDistance? && more == s.tail
  }

  lemma DistanceEntry(s: Script, i: nat, n: nat, past: seq<bool>, look: seq<bool>, rest: seq<bool>)
    requires s.Valid() && i <= |s.items| && s.HasLength(i)
    requires AtTable(s.dt.f, s.dt.Work(), n, past) && past + rest == s.AfterLength(i) && look <= rest
    ensures Looked(s.dt, n, past)
    ensures s.dt.ms[n].j <= |look| ==>
              var r := EntryAt(s.dt.Work(), n, look);
              DistanceMeans(s, i, past, rest, r) && r.bits <= s.dt.ms[n].j
  {
    TablesValid(s);
    hide Script.Valid, Script.Tabled, Table.Valid, Script.From, Script.AfterLength, AtTable, EntryAt, DistanceMeans, IsInvalid,
      IsLink, Follows, Tells, Plan.IsCode, ToBits, LowBits, Pow2, Cplens, Cplext, Cpdist, Cpdext, ExtraLbits, ExtraDbits;
    var k, v, op := NextDistance(s, i);
    LookUp(s.dt, 0, Cpdist(), Cpdext(), n, past, look, rest, k, v);
    if i < |s.items| {
      DistanceInItem(s, i);
    }
    if s.dt.ms[n].j <= |look| {
      DistanceEntryMeans(s, i, past, rest, EntryAt(s.dt.Work(), n, look), op, k);
    }
  }

  lemma DistanceInItem(s: Script, i: nat)
    requires s.Valid() && i < |s.items| && s.items[i].Match?
    ensures s.items[i].dc < D_CODES && s.items[i].y < Pow2(ExtraDbits()[s.items[i].dc])
  {
    hide Script.Tabled, Table.Codes, Item.Token, ExtraDbits, ExtraLbits, Pow2, Plan.IsCode;
    assert s.Sends(s.items[i]);
  }

  lemma DistanceEntryMeans(s: Script, i: nat, past: seq<bool>, rest: seq<bool>, r: Huft, op: Op, k: nat)
    requires s.Valid() && i <= |s.items| && s.HasLength(i) && k <= |past| + |rest| && r.Huft?
    requires i < |s.items| ==>
               && s.items[i].dc < D_CODES
               && var dc, y := s.items[i].dc, s.items[i].y;
                  && y < Pow2(ExtraDbits()[dc]) && ExtraDbits()[dc] <= 13 && op == Op(ExtraDbits()[dc] + 80, Cpdist()[dc])
                  && (past + rest)[k..] == LowBits(y, ExtraDbits()[dc]) + s.From(i + 1)
    requires i == |s.items| ==> IsInvalid(op) && (past + rest)[k..] == s.tail
    requires IsLink(r) ==> Follows(s.dt, r, past, rest)
    requires !IsLink(r) ==> Tells(r, op, k, past, rest)
    ensures DistanceMeans(s, i, past, rest, r)
  {
    hide Script.Valid, Script.Tabled, Script.From, ExtraDbits, Cpdist, Pow2, LowBits, AtTable;
    if !IsLink(r) && i < |s.items| {
      ExtraOp(ExtraDbits()[s.items[i].dc]);
    }
  }

  /** Decoding starts at the first tables. */
  lemma StartTables(s: Script)
    requires s.Valid()
    ensures |s.lt.ms| > 0 && s.lt.ms[0].j == s.lt.bits <= 15 && AtTable(s.lt.f, s.lt.Work(), 0, [])
    ensures |s.dt.ms| > 0 && s.dt.ms[0].j == s.dt.bits <= 15 && AtTable(s.dt.f, s.dt.Work(), 0, [])
  {
    hide Table.Valid, AtTable, Script.Valid, Script.Tabled, Cplens, Cplext, Cpdist, Cpdext, Pow2;
    TablesValid(s);
    FirstTableReached(s.lt, 257, Cplens(), Cplext());
    FirstTableReached(s.dt, 0, Cpdist(), Cpdext());
  }

  /** A link leads on to the next table. */
  lemma LengthLink(s: Script, i: nat, past: seq<bool>, rest: seq<bool>, t: Huft)
    requires s.Valid() && LengthMeans(s, i, past, rest, t) && past + rest == s.From(i)
    requires t.exop != 0 && (t.exop / 16) % 2 == 0 && (t.exop / 64) % 2 == 0
    ensures 1 <= t.bits <= |rest| && t.more < |s.lt.ms| && t.exop == s.lt.ms[t.more].j
    ensures |past| + t.bits + t.exop <= 15
    ensures AtTable(s.lt.f, s.lt.Work(), t.more, past + rest[..t.bits]) && (past + rest[..t.bits]) + rest[t.bits..] == s.From(i)
  {
    TablesValid(s);
    hide Script.Valid, Table.Valid, Pow2, Cplens, Cplext, Cpdist, Cpdext, Script.Tabled, Script.From, Script.AfterLength, AtTable;
    TableParts(s.lt, 257, Cplens(), Cplext(), t.more, past + rest[..t.bits]);
  }

  lemma DistanceLink(s: Script, i: nat, past: seq<bool>, rest: seq<bool>, t: Huft)
    requires s.Valid() && DistanceMeans(s, i, past, rest, t)
    requires (t.exop / 16) % 2 == 0 && (t.exop / 64) % 2 == 0
    ensures 1 <= t.bits <= |rest| && t.more < |s.dt.ms| && t.exop == s.dt.ms[t.more].j
    ensures |past| + t.bits + t.exop <= 15
    ensures AtTable(s.dt.f, s.dt.Work(), t.more, past + rest[..t.bits]) && (past + rest[..t.bits]) + rest[t.bits..] == past + rest
  {
    TablesValid(s);
    hide Script.Valid, Table.Valid, Pow2, Cplens, Cplext, Cpdist, Cpdext, Script.Tabled, Script.From, AtTable;
    TableParts(s.dt, 0, Cpdist(), Cpdext(), t.more, past + rest[..t.bits]);
  }

  // ----- looking up

  lemma IndexedEntry(t: Table, n: nat, past: seq<bool>, look: seq<bool>, idx: nat)
    requires Looked(t, n, past) && t.ms[n].j <= |look| && idx == FromLow(look[..t.ms[n].j]) && idx < Pow2(t.ms[n].j)
    ensures t.tables[n][idx] == EntryAt(t.Work(), n, look)
  {
  }

  /** The entry for the bits held, at a table of literals and lengths. */
  method LookLength(tree: seq<seq<Huft>>, n: nat, j: nat, r: BitReader, ghost s: Script, ghost i: nat, ghost past: seq<bool>, ghost rest: seq<bool>)
    returns (t: Huft)
    requires s.Valid() && i <= |s.items| && AtTable(s.lt.f, s.lt.Work(), n, past) && past + rest == s.From(i)
    requires tree == s.lt.tables && n < |s.lt.ms| && j == s.lt.ms[n].j <= r.k && r.Valid() && r.Ahead() <= rest
    ensures LengthMeans(s, i, past, rest, t) && t.Huft? && t.bits <= j && |past| + j <= 15
  {
    hide Script.Valid, Script.Tabled, Script.From, AtTable, EntryAt, LengthMeans, Pow2, FromLow, BitReader.Valid, BitReader.Ahead, LowBits;
    r.InInput();
    LengthEntry(s, i, n, past, r.Ahead(), rest);
    r.PeekIs(j);
    IndexedEntry(s.lt, n, past, r.Ahead(), r.Peek(j));
    t := tree[n][r.Peek(j)];
    LengthIsHuft(s, i, past, rest, t);
  }

  lemma LengthIsHuft(s: Script, i: nat, past: seq<bool>, rest: seq<bool>, r: Huft)
    requires s.Valid() && LengthMeans(s, i, past, rest, r)
    ensures r.Huft? && 1 <= r.bits <= |rest|
  {
    hide Script.Valid, Script.From, Script.AfterLength;
  }

  /** The entry for the bits held, at a table of distances. */
  method LookDistance(tree: seq<seq<Huft>>, n: nat, j: nat, r: BitReader, ghost s: Script, ghost i: nat, ghost past: seq<bool>, ghost rest: seq<bool>)
    returns (t: Huft)
    requires s.Valid() && i <= |s.items| && s.HasLength(i)
    requires AtTable(s.dt.f, s.dt.Work(), n, past) && past + rest == s.AfterLength(i)
    requires tree == s.dt.tables && n < |s.dt.ms| && j == s.dt.ms[n].j <= r.k && r.Valid() && r.Ahead() <= rest
    ensures DistanceMeans(s, i, past, rest, t) && t.Huft? && t.bits <= j && |past| + j <= 15
  {
    hide Script.Valid, Script.Tabled, Script.AfterLength, Script.HasLength, AtTable, EntryAt, DistanceMeans, Pow2, FromLow,
      BitReader.Valid, BitReader.Ahead, LowBits;
    r.InInput();
    DistanceEntry(s, i, n, past, r.Ahead(), rest);
    r.PeekIs(j);
    IndexedEntry(s.dt, n, past, r.Ahead(), r.Peek(j));
    t := tree[n][r.Peek(j)];
    DistanceIsHuft(s, i, past, rest, t);
  }

  lemma DistanceIsHuft(s: Script, i: nat, past: seq<bool>, rest: seq<bool>, r: Huft)
    requires s.Valid() && DistanceMeans(s, i, past, rest, r)
    ensures r.Huft? && 1 <= r.bits <= |rest|
  {
    hide Script.Valid, Script.From;
  }

  /** Extra bits: a value of j bits is next. */
  lemma ExtraRead(look: seq<bool>, x: nat, j: nat, more: seq<bool>)
    requires look <= LowBits(x, j) + more && x < Pow2(j) && j <= |look|
    ensures FromLow(look[..j]) == x && look[j..] <= more
  {
    hide LowBits, FromLow, Pow2;
    FromLowBits(x, j);
    assert look[..j] == (LowBits(x, j) + more)[..j] == LowBits(x, j);
    assert (LowBits(x, j) + more)[j..] == more;
  }

  /** The base value plus the next e bits, which are dropped. */
  method AddExtra(base: nat, e: nat, r: BitReader, ghost x: nat, ghost more: seq<bool>) returns (v: nat)
    requires r.Valid() && e <= r.k && r.Ahead() <= LowBits(x, e) + more && x < Pow2(e)
    modifies r`b, r`k
    ensures v == base + x && r.Valid() && r.Ahead() <= more && r.k == old(r.k) - e && |r.Ahead()| == |old(r.Ahead())| - e
    ensures old(r.InHand()) ==> r.InHand()
  {
    hide LowBits, FromLow, Pow2, BitReader.Ahead, BitReader.InHand, High, ByteBits;
    r.PeekIs(e);
    ExtraRead(r.Ahead(), x, e, more);
    v := base + r.Peek(e);
    r.DumpBits(e);
  }
}
