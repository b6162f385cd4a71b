/**
 The unrolled decoder.  With at least 258 bytes of room and ten of input it decodes whole
 tokens without checking for either, and meets the same entries as the resumable decoder.
 */
module InflateFast {
  import opened Options
  import opened Bits
  import opened BitOrder
  import opened Alphabet
  import opened Lz77Tokens
  import opened Blocks
  import opened HuftTheory
  import opened HuftState
  import opened HuftTrees
  import opened HuftDecoding
  import opened InflateScript
  import opened InflateSteps
  import opened BitReading
  import opened BitWriting
  import opened Window

  datatype Fast = FastOk | FastEnd | FastError

  /** The decoder stands before token i: the bits to come are those of the script from there on, and what it has told
      is the expansion of the tokens before. */
  ghost predicate AtToken(s: Script, h: seq<byte>, i: nat, r: BitReader, w: Window)
    reads r, w, w.window
  {
    && s.Valid() && r.Valid() && w.Valid() && i <= |s.items| && InWindow(h, s.ts, w.window.Length)
    && r.Ahead() <= s.From(i) && Told(h, s.ts, i, w.hist)
  }

  /** The link entries after the first are followed to the one of a symbol, as long as they are links. */
  method FollowLength(tl: seq<seq<Huft>>, bl: nat, r: BitReader, ghost s: Script, ghost i: nat)
    returns (t: Huft, ghost past: seq<bool>, ghost rest: seq<bool>)
    requires s.Valid() && i <= |s.items| && tl == s.lt.tables && bl == s.lt.bits
    requires r.Valid() && r.k >= 20 && r.Ahead() <= s.From(i)
    modifies r`b, r`k
    ensures LengthMeans(s, i, past, rest, t) && (t.exop == 0 || (t.exop / 16) % 2 == 1 || (t.exop / 64) % 2 == 1)
    ensures r.Valid() && r.Ahead() <= rest && t.Huft? && |past| + t.bits <= 15 && r.k == old(r.k) - |past|
    ensures |r.Ahead()| == |old(r.Ahead())| - |past| && |rest| == |s.From(i)| - |past|
  {
    hide Script.Valid, Script.Tabled, Script.From, AtTable, LengthMeans, BitReader.Ahead, 
      High, FromLow, ByteBits;
    StartTables(s);
    past, rest := [], s.From(i);
    var n, j: nat := 0, bl;
    t := LookLength(tl, n, j, r, s, i, past, rest);
    while t.exop != 0 && (t.exop / 16) % 2 == 0 && (t.exop / 64) % 2 == 0
      invariant LengthMeans(s, i, past, rest, t) && t.Huft? && |past| + t.bits <= 15 && past + rest == s.From(i)
      invariant r.Valid() && r.Ahead() <= rest && r.k == old(r.k) - |past| && |r.Ahead()| == |old(r.Ahead())| - |past|
      decreases 15 - |past|
    {
      LengthLink(s, i, past, rest, t);
      r.DumpBits(t.bits);
      past, rest := past + rest[..t.bits], rest[t.bits..];
      n, j := t.more, t.exop;
      t := LookLength(tl, n, j, r, s, i, past, rest);
    }
  }

  method FollowDistance(td: seq<seq<Huft>>, bd: nat, r: BitReader, ghost s: Script, ghost i: nat)
    returns (t: Huft, ghost rest: seq<bool>)
    requires s.Valid() && i <= |s.items| && s.HasLength(i) && td == s.dt.tables && bd == s.dt.bits
    requires r.Valid() && r.k >= 15 && r.Ahead() <= s.AfterLength(i)
    modifies r`b, r`k
    ensures (exists past :: DistanceMeans(s, i, past, rest, t)) && ((t.exop / 16) % 2 == 1 || (t.exop / 64) % 2 == 1)
    ensures r.Valid() && r.Ahead() <= rest && t.Huft? && t.bits <= r.k
    ensures 0 <= |old(r.Ahead())| - |r.Ahead()| == |s.AfterLength(i)| - |rest| <= 15 - t.bits
  {
    hide Script.Valid, Script.Tabled, Script.AfterLength, Script.HasLength, AtTable, DistanceMeans, BitReader.Ahead,
      High, FromLow, ByteBits;
    StartTables(s);
    ghost var past;
    past, rest := [], s.AfterLength(i);
    var n, j: nat := 0, bd;
    t := LookDistance(td, n, j, r, s, i, past, rest);
    while (t.exop / 16) % 2 == 0 && (t.exop / 64) % 2 == 0
      invariant DistanceMeans(s, i, past, rest, t) && t.Huft? && |past| + t.bits <= 15
      invariant past + rest == s.AfterLength(i)
      invariant r.Valid() && r.Ahead() <= rest && r.k == old(r.k) - |past| && |r.Ahead()| == |old(r.Ahead())| - |past|
      decreases 15 - |past|
    {
      DistanceLink(s, i, past, rest, t);
      r.DumpBits(t.bits);
      past, rest := past + rest[..t.bits], rest[t.bits..];
      n, j := t.more, t.exop;
      t := LookDistance(td, n, j, r, s, i, past, rest);
    }
  }

  /** A literal entry: its byte is put out and the decoder stands before the next token. */
  method PutLiteral(t: Huft, r: BitReader, w: Window, ghost s: Script, ghost h: seq<byte>, ghost i: nat, ghost past: seq<bool>,
                    ghost rest: seq<bool>)
    requires s.Valid() && LengthMeans(s, i, past, rest, t) && t.exop == 0 && t.bits <= r.k
    requires r.Valid() && r.Ahead() <= rest
    requires w.Valid() && w.m > 0 && InWindow(h, s.ts, w.window.Length) && Told(h, s.ts, i, w.hist)
    modifies r`b, r`k, w`write, w`m, w`hist, w`produced, w.window
    ensures i < |s.items| && AtToken(s, h, i + 1, r, w)
    ensures w.write == old(w.write) + |w.hist| - |old(w.hist)| && Grown(old(RingOf(w)), RingOf(w))
    ensures old(w.hist) <= w.hist && w.produced == old(w.produced) + w.hist[|old(w.hist)|..]
    ensures |old(r.Ahead())| - |r.Ahead()| == |rest| - |s.From(i + 1)| == t.bits
  {
    hide Script.Valid, Script.Tabled, Script.From, Script.AfterLength, BitReader.Ahead, High, FromLow, ByteBits,
      Window.Valid, InWindow, Told, Grown;
    r.DumpBits(t.bits);
    TokenIs(s, i);
    w.OutByte(t.more);
    TellNext(h, s.ts, i, old(w.hist), w.window.Length);
  }

  /** A length entry: its extra bits, a distance with its extra bits, and the copy. */
  method PutMatch(t: Huft, td: seq<seq<Huft>>, bd: nat, r: BitReader, w: Window, ghost s: Script, ghost h: seq<byte>, ghost i: nat,
                  ghost past: seq<bool>, ghost rest: seq<bool>) returns (ok: bool)
    requires s.Valid() && LengthMeans(s, i, past, rest, t) && t.exop != 0 && (t.exop / 16) % 2 == 1
    requires td == s.dt.tables && bd == s.dt.bits && r.Valid() && r.Ahead() <= rest
    requires t.bits + 5 <= r.k && r.p + 6 <= |r.input|
    requires w.Valid() && w.m >= 258 && InWindow(h, s.ts, w.window.Length) && Told(h, s.ts, i, w.hist)
    modifies r`b, r`k, r`p, r`extra, w`write, w`m, w`hist, w`produced, w.window
    ensures r.Valid() && w.Valid() && old(w.hist) <= w.hist
    ensures ok ==> i < |s.items| && AtToken(s, h, i + 1, r, w)
    ensures !ok ==> i == |s.items| && s.ending.BadDistance? && r.Ahead() <= s.tail && w.hist == old(w.hist)
    ensures w.write == old(w.write) + |w.hist| - |old(w.hist)| && Grown(old(RingOf(w)), RingOf(w))
    ensures w.produced == old(w.produced) + w.hist[|old(w.hist)|..]
    ensures |old(r.Ahead())| - |r.Ahead()| == |rest| - (if ok then |s.From(i + 1)| else |s.tail|) <= t.bits + 33
    ensures |r.Ahead()| < |old(r.Ahead())|
  {
    hide Script.Valid, Script.Tabled, Script.From, Script.AfterLength, Script.HasLength, BitReader.Ahead, AtToken,
      High, FromLow, ByteBits, LowBits, Pow2, Window.Valid, InWindow, Told, Cplens, ExtraLbits, Grown;
    r.DumpBits(t.bits);
    var c := AddExtra(t.more, t.exop % 16, r, s.LenExtra(i), s.AfterLength(i));
    r.GrabBits(15);
    LengthsWithin(s.LenCode(i), s.LenExtra(i));
    ok := PutCopy(c, td, bd, r, w, s, h, i);
  }

  method PutCopy(c: nat, td: seq<seq<Huft>>, bd: nat, r: BitReader, w: Window, ghost s: Script, ghost h: seq<byte>, ghost i: nat)
    returns (ok: bool)
    requires s.Valid() && i <= |s.items| && s.HasLength(i) && LengthOk(s.LenCode(i), s.LenExtra(i)) && c == MatchLength(s, i)
    requires td == s.dt.tables && bd == s.dt.bits && r.Valid() && r.Ahead() <= s.AfterLength(i)
    requires r.k >= 15 && r.p + 3 <= |r.input|
    requires w.Valid() && w.m >= 258 && InWindow(h, s.ts, w.window.Length) && Told(h, s.ts, i, w.hist)
    modifies r`b, r`k, r`p, r`extra, w`write, w`m, w`hist, w`produced, w.window
    ensures r.Valid() && w.Valid() && old(w.hist) <= w.hist
    ensures ok ==> i < |s.items| && AtToken(s, h, i + 1, r, w)
    ensures !ok ==> i == |s.items| && s.ending.BadDistance? && r.Ahead() <= s.tail && w.hist == old(w.hist)
    ensures w.write == old(w.write) + |w.hist| - |old(w.hist)| && Grown(old(RingOf(w)), RingOf(w))
    ensures w.produced == old(w.produced) + w.hist[|old(w.hist)|..]
    ensures 0 <= |old(r.Ahead())| - |r.Ahead()| == |s.AfterLength(i)| - (if ok then |s.From(i + 1)| else |s.tail|) <= 28
  {
    hide Script.Valid, Script.Tabled, Script.From, Script.AfterLength, Script.HasLength, DistanceMeans, BitReader.Ahead,
      High, FromLow, ByteBits, LowBits, Pow2, Window.Valid, InWindow, Told, Copy, Cplens, ExtraLbits, Grown;
    TabledSizes(s);
    LengthsWithin(s.LenCode(i), s.LenExtra(i));
    var u;
    ghost var left;
    u, left := FollowDistance(td, bd, r, s, i);
    ghost var before :| DistanceMeans(s, i, before, left, u);
    r.DumpBits(u.bits);
    DistanceLeaf(s, i, before, left, u);
    if (u.exop / 16) % 2 == 1 {
      var e := u.exop % 16;
      r.GrabBits(e);
      var d := AddExtra(u.more, e, r, s.items[i].y, s.From(i + 1));
      TellNext(h, s.ts, i, w.hist, w.window.Length);
      InReach(h, s.ts, i, w.window.Length);
      w.FastCopy(c, d);
      ok := true;
    } else {
      w.InRing();
      GrownNot(RingOf(w));
      ok := false;
    }
  }

  lemma InReach(h: seq<byte>, ts: seq<Token>, i: nat, size: nat)
    requires InWindow(h, ts, size) && i < |ts|
    ensures ts[i].dist <= size
  {
  }

  lemma DistanceLeaf(s: Script, i: nat, past: seq<bool>, rest: seq<bool>, u: Huft)
    requires s.Valid() && s.HasLength(i) && DistanceMeans(s, i, past, rest, u) && ((u.exop / 16) % 2 == 1 || (u.exop / 64) % 2 == 1)
    ensures 1 <= u.bits <= |rest| && i <= |s.items|
    ensures (u.exop / 16) % 2 == 1 ==>
              && i < |s.items| && s.items[i].Match? && s.ts[i].lc + MIN_MATCH == MatchLength(s, i)
              && var y := s.items[i].y;
                 && u.exop % 16 <= 13 && u.more + y == s.ts[i].dist > 0 && y < Pow2(u.exop % 16)
                 && rest[u.bits..] == LowBits(y, u.exop % 16) + s.From(i + 1)
    ensures (u.exop / 16) % 2 == 0 ==> i == |s.items| && s.ending.BadDistance? && rest[u.bits..] == s.tail
  {
    hide Script.Valid, Script.Tabled, Script.From, ExtraDbits, ExtraLbits, Cplens, Cpdist, Pow2, LowBits;
    if i < |s.items| {
      TokenIs(s, i);
    }
  }

  /** One round of the outer loop: a token, the end of the block, or a code that means nothing. */
  method FastToken(tl: seq<seq<Huft>>, td: seq<seq<Huft>>, bl: nat, bd: nat, r: BitReader, w: Window, ghost s: Script,
                   ghost h: seq<byte>, ghost i: nat) returns (res: Fast)
    requires AtToken(s, h, i, r, w) && w.m >= 258 && r.p + 10 <= |r.input|
    requires tl == s.lt.tables && td == s.dt.tables && bl == s.lt.bits && bd == s.dt.bits
    modifies r`b, r`k, r`p, r`extra, w`write, w`m, w`hist, w`produced, w.window
    ensures r.Valid() && w.Valid() && old(w.hist) <= w.hist
    ensures res.FastOk? ==> i < |s.items| && AtToken(s, h, i + 1, r, w)
    ensures !res.FastOk? ==> i == |s.items| && (res.FastEnd? <==> s.ending.EndOfBlock?) && r.Ahead() <= s.tail && w.hist == old(w.hist)
    ensures w.write == old(w.write) + |w.hist| - |old(w.hist)| && Grown(old(RingOf(w)), RingOf(w))
    ensures w.produced == old(w.produced) + w.hist[|old(w.hist)|..]
    ensures 0 < |old(r.Ahead())| - |r.Ahead()| == |s.From(i)| - (if res.FastOk? then |s.From(i + 1)| else |s.tail|) <= 48
  {
    hide Script.Valid, Script.Tabled, Script.From, Script.AfterLength, LengthMeans, BitReader.Ahead,
      High, FromLow, ByteBits, LowBits, Pow2, Window.Valid, InWindow, Told, Grown;
    r.GrabBits(20);
    var t;
    ghost var past, rest;
    t, past, rest := FollowLength(tl, bl, r, s, i);
    LengthIsHuft(s, i, past, rest, t);
    if t.exop == 0 {
      PutLiteral(t, r, w, s, h, i, past, rest);
      res := FastOk;
    } else if (t.exop / 16) % 2 == 1 {
      var ok := PutMatch(t, td, bd, r, w, s, h, i, past, rest);
      res := if ok then FastOk else FastError;
    } else {
      LengthLeaf(s, i, past, rest, t);
      w.InRing();
      GrownNot(RingOf(w));
      r.DumpBits(t.bits);
      res := if (t.exop / 32) % 2 == 1 then FastEnd else FastError;
    }
  }

  lemma LengthLeaf(s: Script, i: nat, past: seq<bool>, rest: seq<bool>, t: Huft)
    requires s.Valid() && LengthMeans(s, i, past, rest, t) && t.exop != 0 && (t.exop / 16) % 2 == 0 && (t.exop / 64) % 2 == 1
    ensures 1 <= t.bits <= |rest| && i == |s.items| && rest[t.bits..] == s.tail
    ensures (t.exop / 32) % 2 == 1 <==> s.ending.EndOfBlock?
  {
    hide Script.Valid, Script.From, Script.AfterLength;
  }

  /** UNGRAB at the end of inflate_fast.  Bytes that came with an earlier input cannot be handed back to this one: the source
      then moves the pointer in front of the buffer, where this method stops. */
  method HandBack(r: BitReader) returns (lost: bool)
    requires r.Valid()
    modifies r`k, r`p, r`extra
    ensures r.Valid() && r.p <= |r.input| && r.Ahead() == old(r.Ahead()) && (lost <==> |r.Ahead()| >= 8 * |r.input| + 8)
    ensures !lost ==> r.k < 8
  {
    hide LowBits, High, ByteBits, FromLow, Recent;
    r.HeldWithin();
    lost := r.k / 8 > r.p;
    if !lost {
      r.Ungrab();
    }
  }

  lemma TokenParts(s: Script, h: seq<byte>, i: nat, r: BitReader, w: Window)
    requires AtToken(s, h, i, r, w)
    ensures s.Valid() && r.Valid() && w.Valid() && i <= |s.items| && r.p <= |r.input| && Told(h, s.ts, i, w.hist)
    ensures r.Ahead() <= s.From(i) && Grown(RingOf(w), RingOf(w))
  {
    hide Script.Valid, Script.From, BitReader.Ahead, InWindow, Told, Grown;
    r.InInput();
    w.InRing();
    GrownNot(RingOf(w));
  }

  /** inflate_fast: whole tokens, as long as there is room for 258 bytes and ten bytes of input are left, which with the bits held
      are at most 104 bits when it stops.  The bits beyond
      the last token are handed back; that goes wrong exactly if eight or more of them are from before this input, which cannot
      be if fewer than eight bits were on entry.  n counts the tokens, for comparison with the resumable decoder. */
  method FastLoop(bl: nat, bd: nat, tl: seq<seq<Huft>>, td: seq<seq<Huft>>, r: BitReader, w: Window, ghost s: Script,
                  ghost h: seq<byte>, ghost i0: nat) returns (res: Fast, n: nat, lost: bool, ghost i: nat)
    requires AtToken(s, h, i0, r, w) && w.m >= 258 && r.p + 10 <= |r.input|
    requires tl == s.lt.tables && td == s.dt.tables && bl == s.lt.bits && bd == s.dt.bits
    modifies r`b, r`k, r`p, r`extra, w`write, w`m, w`hist, w`produced, w.window
    ensures r.Valid() && w.Valid() && i0 <= i == i0 + n <= |s.items| && Told(h, s.ts, i, w.hist)
    ensures res.FastOk? ==> i0 < i && AtToken(s, h, i, r, w)
    ensures !res.FastOk? ==> i == |s.items| && (res.FastEnd? <==> s.ending.EndOfBlock?) && r.Ahead() <= s.tail
    ensures old(w.hist) <= w.hist && w.produced == old(w.produced) + w.hist[|old(w.hist)|..]
    ensures w.write == old(w.write) + |w.hist| - |old(w.hist)| && Grown(old(RingOf(w)), RingOf(w))
    ensures 0 < |old(r.Ahead())| - |r.Ahead()| == |s.From(i0)| - (if res.FastOk? then |s.From(i)| else |s.tail|)
    ensures |r.Ahead()| >= 32 && (res.FastOk? ==> w.m < 258 || |r.Ahead()| <= 104)
    ensures lost <==> old(r.k) - 8 * old(r.p) >= 8 + |s.From(i0)| - (if res.FastOk? then |s.From(i)| else |s.tail|)
    ensures !lost ==> r.k < 8
    ensures old(r.InHand()) ==> !lost && r.InHand()
  {
    hide Script.Valid, Script.From, BitReader.Ahead, BitReader.Valid, Window.Valid, InWindow, Told, Grown, RingOf;
    TokenParts(s, h, i0, r, w);
    r.HeldWithin();
    ghost var ring := RingOf(w);
    assert w.produced == w.produced + w.hist[|w.hist|..];
    i, n := i0, 0;
    res := FastOk;
    var more := true;
    while more
      invariant AtToken(s, h, i, r, w) && r.Valid() && w.Valid() && s.Valid() && r.p <= |r.input| && i <= |s.items|
      invariant i0 <= i == i0 + n && res.FastOk?
      invariant more <==> w.m >= 258 && r.p + 10 <= |r.input|
      invariant old(w.hist) <= w.hist && w.produced == old(w.produced) + w.hist[|old(w.hist)|..]
      invariant w.write == old(w.write) + |w.hist| - |old(w.hist)| && Grown(ring, RingOf(w))
      invariant |old(r.Ahead())| - |r.Ahead()| == |s.From(i0)| - |s.From(i)| && (i0 < i ==> |r.Ahead()| < |old(r.Ahead())|)
      invariant i0 < i ==> |r.Ahead()| >= 32
      invariant more || i0 < i
      decreases |s.items| - i, more
    {
      ghost var was, before := w.hist, RingOf(w);
      r.TenBytes();
      res := FastToken(tl, td, bl, bd, r, w, s, h, i);
      assert w.hist[|old(w.hist)|..] == was[|old(w.hist)|..] + w.hist[|was|..];
      GrownMore(ring, before, RingOf(w));
      r.InInput();
      if res != FastOk {
        lost := HandBack(r);
        return;
      }
      i, n := i + 1, n + 1;
      TokenParts(s, h, i, r, w);
      more := w.m >= 258 && r.p + 10 <= |r.input|;
    }
    r.HeldWithin();
    lost := HandBack(r);
  }
}
