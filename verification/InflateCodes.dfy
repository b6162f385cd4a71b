/**
 The resumable decoder of a block body.  It stops wherever input or room for output runs out
 and goes on from there at the next call.  Whatever the pieces are, it tells the tokens of the
 script one after the other, and ends where the script ends.
 */
module InflateCodes {
  import opened Options
  import opened Bits
  import opened BitOrder
  import opened Alphabet
  import opened Lz77Tokens
  import opened Blocks
  import opened HuftTheory
  import opened HuftState
  import opened HuftTrees
  import opened HuftDecoding
  import opened InflateScript
  import opened InflateSteps
  import opened BitReading
  import opened BitWriting
  import opened Window
  import opened InflateFast

  datatype Mode = START | LEN | LENEXT | DIST | DISTEXT | COPY | LIT | WASH | END | BADCODE

  /** Why a call ends. */
  datatype Leave = NeedsInput | NeedsOutput | StreamEnd | DataError

  /** inflate_codes_state, but for the trees. */
  datatype Codes = Codes(mode: Mode, need: nat, tree: nat, get: nat, dist: nat, len: nat, lit: nat)

  /** Where the decoder stands in the script: item i, the bits of the current code read so far and those after them, and
      the output before the current copy. */
  datatype View = View(i: nat, past: seq<bool>, rest: seq<bool>, before: seq<byte>)

  ghost predicate InLength(s: Script, c: Codes, v: View)
    requires s.Valid()
  {
    && v.i <= |s.items| && v.past + v.rest == s.From(v.i) && c.tree < |s.lt.ms| && c.need == s.lt.ms[c.tree].j
    && AtTable(s.lt.f, s.lt.Work(), c.tree, v.past)
  }

  ghost predicate InLengthExtra(s: Script, c: Codes, v: View)
    requires s.Valid()
  {
    AtExtra(s, v.i, v.rest) && c.get == ExtraLbits()[s.LenCode(v.i)] <= 5 && c.len + s.LenExtra(v.i) == MatchLength(s, v.i)
  }

  ghost predicate InDistance(s: Script, c: Codes, v: View)
    requires s.Valid()
  {
    && v.i <= |s.items| && s.HasLength(v.i) && LengthOk(s.LenCode(v.i), s.LenExtra(v.i)) && c.len == MatchLength(s, v.i)
    && v.past + v.rest == s.AfterLength(v.i) && c.tree < |s.dt.ms| && c.need == s.dt.ms[c.tree].j
    && AtTable(s.dt.f, s.dt.Work(), c.tree, v.past)
  }

  ghost predicate InDistanceExtra(s: Script, c: Codes, v: View)
    requires s.Valid()
  {
    && v.i < |s.items| == |s.ts| && s.items[v.i].Match? && c.len == s.ts[v.i].lc + MIN_MATCH
    && s.items[v.i].dc < D_CODES && c.get == ExtraDbits()[s.items[v.i].dc]
    && var y := s.items[v.i].y;
       && c.get <= 13 && c.dist + y == s.ts[v.i].dist > 0 && y < Pow2(c.get)
       && v.rest == LowBits(y, c.get) + s.From(v.i + 1)
  }

  /** What the registers mean at each mode. */
  ghost predicate Stands(s: Script, c: Codes, v: View)
    requires s.Valid()
  {
    && v.i <= |s.items| == |s.ts|
    && match c.mode
       case START => v.rest == s.From(v.i)
       case LEN => InLength(s, c, v)
       case LENEXT => InLengthExtra(s, c, v)
       case DIST => InDistance(s, c, v)
       case DISTEXT => InDistanceExtra(s, c, v)
       case COPY =>
         v.i < |s.items| && 0 < s.ts[v.i].dist == c.dist && c.len <= s.ts[v.i].lc + MIN_MATCH && v.rest == s.From(v.i + 1)
       case LIT => v.i < |s.items| && s.ts[v.i] == Token(0, c.lit) && v.rest == s.From(v.i + 1)
       case BADCODE => v.i == |s.items| && !s.ending.EndOfBlock? && v.rest == s.tail
       case _ => v.i == |s.items| && s.ending.EndOfBlock? && v.rest == s.tail
  }

  /** What has been put out so far: all tokens before the current one, and the copied part of that one. */
  ghost predicate Shown(s: Script, c: Codes, v: View, h: seq<byte>, hist: seq<byte>) {
    && Told(h, s.ts, v.i, v.before)
    && if c.mode.COPY? && v.i < |s.ts| then
         && 1 <= c.dist <= |v.before| && c.len <= s.ts[v.i].lc + MIN_MATCH
         && hist == Copy(v.before, c.dist, s.ts[v.i].lc + MIN_MATCH - c.len)
       else hist == v.before
  }

  /** The view once the bits of an entry are dropped. */
  ghost function Dropped(v: View, bits: nat): View
    requires bits <= |v.rest|
  {
    v.(past := v.past + v.rest[..bits], rest := v.rest[bits..])
  }

  /** The registers after an entry of the literal/length tables. */
  ghost function LengthTurn(c: Codes, t: Huft): Codes
    requires t.Huft?
  {
    if t.exop == 0 then c.(lit := t.more, mode := LIT)
    else if (t.exop / 16) % 2 == 1 then c.(get := t.exop % 16, len := t.more, mode := LENEXT)
    else if (t.exop / 64) % 2 == 0 then c.(need := t.exop, tree := t.more)
    else if (t.exop / 32) % 2 == 1 then c.(mode := WASH)
    else c.(mode := BADCODE)
  }

  lemma LengthTurns(s: Script, c: Codes, v: View, h: seq<byte>, hist: seq<byte>, t: Huft)
    requires s.Valid() && c.mode.LEN? && Stands(s, c, v) && Shown(s, c, v, h, hist)
    requires LengthMeans(s, v.i, v.past, v.rest, t)
    ensures t.Huft? && 1 <= t.bits <= |v.rest|
    ensures Stands(s, LengthTurn(c, t), Dropped(v, t.bits)) && Shown(s, LengthTurn(c, t), Dropped(v, t.bits), h, hist)
  {
    hide Script.Valid, Script.Tabled, Script.From, Script.AfterLength, Script.HasLength, AtTable, LowBits, Pow2, Told, Cplens, ExtraLbits;
    LengthIsHuft(s, v.i, v.past, v.rest, t);
    if t.exop == 0 {
      TokenIs(s, v.i);
    }
    if t.exop != 0 && (t.exop / 16) % 2 == 0 && (t.exop / 64) % 2 == 0 {
      LengthLink(s, v.i, v.past, v.rest, t);
    }
  }

  /** The registers after an entry of the distance tables. */
  ghost function DistanceTurn(c: Codes, t: Huft): Codes
    requires t.Huft?
  {
    if (t.exop / 16) % 2 == 1 then c.(get := t.exop % 16, dist := t.more, mode := DISTEXT)
    else if (t.exop / 64) % 2 == 0 then c.(need := t.exop, tree := t.more)
    else c.(mode := BADCODE)
  }

  lemma DistanceTurns(s: Script, c: Codes, v: View, h: seq<byte>, hist: seq<byte>, t: Huft)
    requires s.Valid() && c.mode.DIST? && Stands(s, c, v) && Shown(s, c, v, h, hist)
    requires DistanceMeans(s, v.i, v.past, v.rest, t)
    ensures t.Huft? && 1 <= t.bits <= |v.rest|
    ensures Stands(s, DistanceTurn(c, t), Dropped(v, t.bits)) && Shown(s, DistanceTurn(c, t), Dropped(v, t.bits), h, hist)
  {
    hide Script.Valid, Script.Tabled, Script.From, Script.AfterLength, AtTable, LowBits, Pow2, Told, Cpdist, Cplens, ExtraDbits, ExtraLbits;
    DistanceIsHuft(s, v.i, v.past, v.rest, t);
    if (t.exop / 16) % 2 == 1 {
      TokenIs(s, v.i);
    }
    if (t.exop / 16) % 2 == 0 && (t.exop / 64) % 2 == 0 {
      DistanceLink(s, v.i, v.past, v.rest, t);
    }
  }

  lemma LenStands(s: Script, c: Codes, v: View)
    requires s.Valid() && c.mode.LEN? && Stands(s, c, v)
    ensures InLength(s, c, v)
  {
    hide Script.Valid, InLength;
  }

  lemma DistStands(s: Script, c: Codes, v: View)
    requires s.Valid() && c.mode.DIST? && Stands(s, c, v)
    ensures InDistance(s, c, v)
  {
    hide Script.Valid, InDistance;
  }

  lemma NeedFew(s: Script, c: Codes, v: View)
    requires s.Valid()
    ensures InLength(s, c, v) ==> |v.past| + c.need <= 15
    ensures InDistance(s, c, v) ==> |v.past| + c.need <= 15
  {
    hide Script.Valid, Script.Tabled, Script.From, Script.AfterLength, Script.HasLength, AtTable, Table.Valid, Cplens, Cplext, Cpdist, Cpdext, Pow2;
    TablesValid(s);
    if InLength(s, c, v) {
      TableParts(s.lt, 257, Cplens(), Cplext(), c.tree, v.past);
    }
    if InDistance(s, c, v) {
      TableParts(s.dt, 0, Cpdist(), Cpdext(), c.tree, v.past);
    }
  }

  // ----- the steps without table look-ups

  lemma StartTurns(s: Script, c: Codes, v: View, h: seq<byte>, hist: seq<byte>)
    requires s.Valid() && c.mode.START? && Stands(s, c, v) && Shown(s, c, v, h, hist)
    ensures v.i <= |s.items| && v.rest == s.From(v.i) && Told(h, s.ts, v.i, hist)
    ensures var c', v' := c.(need := s.lt.bits, tree := 0, mode := LEN), v.(past := []);
            Stands(s, c', v') && Shown(s, c', v', h, hist)
  {
    hide Script.Valid, Script.Tabled, Script.From, AtTable, Told;
    StartTables(s);
  }

  lemma TokenStands(s: Script, c: Codes, v: View, h: seq<byte>, hist: seq<byte>, i: nat)
    requires s.Valid() && i <= |s.items| && Told(h, s.ts, i, hist)
    ensures var c', v' := c.(mode := START), v.(i := i, rest := s.From(i), before := hist);
            Stands(s, c', v') && Shown(s, c', v', h, hist)
  {
    hide Script.Valid, Script.Tabled, Script.From, Told;
    TabledSizes(s);
  }

  lemma EndStands(s: Script, c: Codes, v: View, h: seq<byte>, hist: seq<byte>)
    requires s.Valid() && Told(h, s.ts, |s.ts|, hist)
    ensures var v' := v.(i := |s.items|, rest := s.tail, before := hist);
            var c' := c.(mode := if s.ending.EndOfBlock? then WASH else BADCODE);
            Stands(s, c', v') && Shown(s, c', v', h, hist)
  {
    hide Script.Valid, Script.Tabled, Script.From, Told;
    TabledSizes(s);
  }

  lemma LengthExtraTurns(s: Script, c: Codes, v: View, h: seq<byte>, hist: seq<byte>)
    requires s.Valid() && c.mode.LENEXT? && Stands(s, c, v) && Shown(s, c, v, h, hist)
    ensures c.get <= 5 && v.i <= |s.items| && s.HasLength(v.i) && LengthOk(s.LenCode(v.i), s.LenExtra(v.i))
    ensures v.rest == LowBits(s.LenExtra(v.i), c.get) + s.AfterLength(v.i) && s.LenExtra(v.i) < Pow2(c.get)
    ensures var c' := c.(len := c.len + s.LenExtra(v.i), need := s.dt.bits, tree := 0, mode := DIST);
            var v' := v.(past := [], rest := s.AfterLength(v.i));
            Stands(s, c', v') && Shown(s, c', v', h, hist)
  {
    hide Script.Valid, Script.Tabled, Script.AfterLength, Script.HasLength, AtTable, Told, LowBits, Pow2, Cplens, ExtraLbits;
    StartTables(s);
  }

  lemma DistanceExtraTurns(s: Script, c: Codes, v: View, h: seq<byte>, hist: seq<byte>, size: nat)
    requires s.Valid() && c.mode.DISTEXT? && Stands(s, c, v) && Shown(s, c, v, h, hist) && InWindow(h, s.ts, size)
    ensures c.get <= 13 && v.i < |s.items| && s.items[v.i].Match?
    ensures v.rest == LowBits(s.items[v.i].y, c.get) + s.From(v.i + 1) && s.items[v.i].y < Pow2(c.get)
    ensures var c' := c.(dist := c.dist + s.items[v.i].y, mode := COPY);
            var v' := v.(rest := s.From(v.i + 1));
            Stands(s, c', v') && Shown(s, c', v', h, hist)
  {
    hide Script.Valid, Script.Tabled, Script.From, Told, LowBits, Pow2, InWindow;
    TellNext(h, s.ts, v.i, hist, size);
  }

  lemma CopyTurns(s: Script, c: Codes, v: View, h: seq<byte>, hist: seq<byte>, size: nat)
    requires s.Valid() && c.mode.COPY? && Stands(s, c, v) && Shown(s, c, v, h, hist) && InWindow(h, s.ts, size)
    ensures 1 <= c.dist <= size && c.dist <= |hist|
    ensures c.len > 0 ==>
              var c' := c.(len := c.len - 1);
              Stands(s, c', v) && Shown(s, c', v, h, hist + [hist[|hist| - c.dist]])
    ensures c.len == 0 ==> v.i < |s.items| && v.rest == s.From(v.i + 1) && Told(h, s.ts, v.i + 1, hist)
  {
    hide Script.Valid, Script.Tabled, Script.From, Told, InWindow;
    TellNext(h, s.ts, v.i, v.before, size);
    InReach(h, s.ts, v.i, size);
  }

  lemma LitTurns(s: Script, c: Codes, v: View, h: seq<byte>, hist: seq<byte>, size: nat)
    requires s.Valid() && c.mode.LIT? && Stands(s, c, v) && Shown(s, c, v, h, hist) && InWindow(h, s.ts, size)
    ensures c.lit < 256 && v.i < |s.items| && v.rest == s.From(v.i + 1) && Told(h, s.ts, v.i + 1, hist + [c.lit])
  {
    hide Script.Valid, Script.Tabled, Script.From, Told, InWindow;
    TellNext(h, s.ts, v.i, hist, size);
  }

  lemma WashEnds(s: Script, c: Codes, v: View, h: seq<byte>, hist: seq<byte>)
    requires s.Valid() && c.mode.WASH? && Stands(s, c, v) && Shown(s, c, v, h, hist)
    ensures Stands(s, c.(mode := END), v) && Shown(s, c.(mode := END), v, h, hist)
  {
    hide Script.Valid, Script.From, Told;
  }

  /** The script has been told to its end. */
  lemma AllShown(s: Script, c: Codes, v: View, h: seq<byte>, hist: seq<byte>)
    requires s.Valid() && (c.mode.END? || c.mode.BADCODE?) && Stands(s, c, v) && Shown(s, c, v, h, hist)
    ensures ExpandOn(h, s.ts) == Some(hist) && v.rest == s.tail && (c.mode.END? <==> s.ending.EndOfBlock?)
  {
    hide Script.Valid, Script.Tabled, Script.From;
    TabledSizes(s);
    AllTold(h, s.ts, hist);
  }

  /** Rounds of the loop that read no bits. */
  function Rank(m: Mode): nat {
    match m
    case LENEXT => 6
    case DIST => 5
    case DISTEXT => 4
    case COPY => 3
    case LIT => 3
    case START => 2
    case LEN => 1
    case WASH => 1
    case _ => 0
  }

  /** The room in the ring that the step at hand takes. */
  function Room(c: Codes): nat {
    match c.mode
    case LIT => 1
    case COPY => c.len
    case _ => 0
  }

  lemma Ranks(c: Codes)
    ensures Rank(LENEXT) == 6 && Rank(DIST) == 5 && Rank(DISTEXT) == 4 && Rank(COPY) == 3 && Rank(LIT) == 3
    ensures Rank(START) == 2 && Rank(LEN) == 1 && Rank(WASH) == 1 && Rank(END) == 0 && Rank(BADCODE) == 0
    ensures (c.mode.LIT? ==> Room(c) == 1) && (c.mode.COPY? ==> Room(c) == c.len)
  {
  }

  class Decoder {
    const lbits: nat
    const dbits: nat
    const ltree: seq<seq<Huft>>
    const dtree: seq<seq<Huft>>
    const r: BitReader
    const w: Window
    var c: Codes
    ghost const s: Script
    ghost const h: seq<byte>
    ghost const told: seq<byte>
    ghost var v: View

    /** The trees are those of the script, and the decoder stands in it. */
    ghost predicate Valid()
      reads this, r, w, w.window
    {
      ValidAs(c)
    }

    /** So it does once the registers are those given. */
    ghost predicate ValidAs(c: Codes)
      reads this, r, w, w.window
    {
      && s.Valid() && ltree == s.lt.tables && dtree == s.dt.tables && lbits == s.lt.bits && dbits == s.dt.bits
      && InWindow(h, s.ts, w.window.Length) && r.Valid() && w.Valid()
      && Stands(s, c, v) && Shown(s, c, v, h, w.hist) && r.Ahead() <= v.rest
      && h <= w.hist && w.produced == told + w.hist[|h|..]
    }

    /** How many bits of the script are still to be supplied. */
    ghost function Gap(): (n: nat)
      requires r.p <= |r.input| && r.Ahead() <= v.rest
      reads this, r
      ensures n == |v.rest| - |r.Ahead()|
    {
      |v.rest| - |r.Ahead()|
    }

    /** When the next token begins, fewer than eight of the bits held will be from before this input, so that UNGRAB hands back
        nothing else. */
    ghost predicate Safe()
      requires Valid() && r.p <= |r.input|
      reads this, r, w, w.window
    {
      NextStart(s, c, v) < 8 + Gap() + 8 * |r.input|
    }

    /** The bits that the step at hand asks for. */
    function Lookahead(): nat
      reads this
    {
      if c.mode.LEN? || c.mode.DIST? then c.need else c.get
    }

    /** The bits of the code in progress that are read already. */
    ghost function Begun(): nat
      reads this
    {
      if c.mode.LEN? || c.mode.DIST? then |v.past| else 0
    }

    /** inflate_codes_new: the bits to come and the history so far are where the script starts. */
    constructor (lbits: nat, dbits: nat, ltree: seq<seq<Huft>>, dtree: seq<seq<Huft>>, r: BitReader, w: Window, ghost s: Script)
      requires s.Valid() && ltree == s.lt.tables && dtree == s.dt.tables && lbits == s.lt.bits && dbits == s.dt.bits
      requires r.Valid() && w.Valid() && InWindow(w.hist, s.ts, w.window.Length) && r.Ahead() <= s.From(0)
      ensures Valid() && this.r == r && this.w == w && this.s == s && h == w.hist && told == w.produced && c.mode.START?
      ensures v.rest == s.From(0) && this.lbits == lbits && this.dbits == dbits
    {
      hide InWindow, Told, Script.Valid, Script.Tabled, Script.From, Window.Valid, BitReader.Valid, BitReader.Ahead;
      TablesValid(s);
      this.lbits, this.dbits, this.ltree, this.dtree := lbits, dbits, ltree, dtree;
      this.r, this.w, this.s := r, w, s;
      c := Codes(START, 0, 0, 0, 0, 0, 0);
      h, told := w.hist, w.produced;
      v := View(0, [], s.From(0), w.hist);
      new;
      TabledSizes(s);
      NothingTold(h, s.ts);
    }

    /** The entry of the literal/length tables for the bits ahead, if there are enough. */
    method LenEntry() returns (ok: bool, t: Huft)
      requires Valid() && c.mode.LEN?
      modifies r`b, r`k, r`p, r`extra
      ensures Valid() && r.Ahead() == old(r.Ahead()) && (old(r.InHand()) ==> r.InHand())
      ensures ok ==> && t.Huft? && 1 <= t.bits <= r.k && t.bits <= |v.rest|
                     && Stands(s, LengthTurn(c, t), Dropped(v, t.bits)) && Shown(s, LengthTurn(c, t), Dropped(v, t.bits), h, w.hist)
      ensures !ok ==> r.p == |r.input| && |r.Ahead()| + |v.past| < 15 && |r.Ahead()| < c.need
    {
      hide Script.Valid, Script.Tabled, Stands, Shown, Script.From, AtTable, BitReader.Ahead, BitReader.InHand, High, FromLow,
        ByteBits, Window.Valid, InWindow, LengthMeans;
      NeedFew(s, c, v);
      LenStands(s, c, v);
      ok := r.NeedBits(c.need);
      t := Unset;
      if ok {
        t := LookLength(ltree, c.tree, c.need, r, s, v.i, v.past, v.rest);
        LengthTurns(s, c, v, h, w.hist, t);
      }
    }

    /** LEN: a literal, a length, the next table, the end of the block, or an invalid code. */
    method Len() returns (ok: bool)
      requires Valid() && c.mode.LEN?
      modifies this`c, this`v, r`b, r`k, r`p, r`extra
      ensures Valid() && Gap() == old(Gap()) && |r.Ahead()| <= |old(r.Ahead())| && (old(r.InHand()) ==> r.InHand())
      ensures (ok ==> |r.Ahead()| < |old(r.Ahead())| && !c.mode.START? && !c.mode.END?) && v.i == old(v.i)
      ensures !ok ==> c == old(c) && v == old(v) && r.p == |r.input| && |r.Ahead()| + Begun() < 15 && |r.Ahead()| < Lookahead()
    {
      hide Script.Valid, Stands, Shown, BitReader.Valid, BitReader.Ahead, BitReader.InHand, Window.Valid, InWindow;
      var t;
      ok, t := LenEntry();
      if ok {
        DropEntry(t, LengthTurn(c, t));
        TurnLength(t);
      }
    }

    /** The bits of a table's entry, dropped; the registers follow. */
    method DropEntry(t: Huft, ghost next: Codes)
      requires Valid() && t.Huft? && 1 <= t.bits <= r.k && t.bits <= |v.rest|
      requires Stands(s, next, Dropped(v, t.bits)) && Shown(s, next, Dropped(v, t.bits), h, w.hist)
      modifies this`v, r`b, r`k
      ensures ValidAs(next) && v == Dropped(old(v), t.bits) && Gap() == old(Gap())
      ensures |r.Ahead()| < |old(r.Ahead())| && (old(r.InHand()) ==> r.InHand())
    {
      hide Script.Valid, Stands, Shown, BitReader.Valid, BitReader.Ahead, BitReader.InHand, Window.Valid, InWindow;
      r.DumpBits(t.bits);
      v := Dropped(v, t.bits);
    }

    /** What a literal/length entry does to the registers. */
    method TurnLength(t: Huft)
      requires t.Huft?
      modifies this`c
      ensures c == LengthTurn(old(c), t)
    {
      var e := t.exop;
      if e == 0 {
        c := c.(lit := t.more, mode := LIT);
      } else if (e / 16) % 2 == 1 {
        c := c.(get := e % 16, len := t.more, mode := LENEXT);
      } else if (e / 64) % 2 == 0 {
        c := c.(need := e, tree := t.more);
      } else if (e / 32) % 2 == 1 {
        c := c.(mode := WASH);
      } else {
        c := c.(mode := BADCODE);
      }
    }

    /** The entry of the distance tables for the bits ahead, if there are enough. */
    method DistEntry() returns (ok: bool, t: Huft)
      requires Valid() && c.mode.DIST?
      modifies r`b, r`k, r`p, r`extra
      ensures Valid() && r.Ahead() == old(r.Ahead()) && (old(r.InHand()) ==> r.InHand())
      ensures ok ==> && t.Huft? && 1 <= t.bits <= r.k && t.bits <= |v.rest|
                     && Stands(s, DistanceTurn(c, t), Dropped(v, t.bits)) && Shown(s, DistanceTurn(c, t), Dropped(v, t.bits), h, w.hist)
      ensures !ok ==> r.p == |r.input| && |r.Ahead()| + |v.past| < 15 && |r.Ahead()| < c.need
    {
      hide Script.Valid, Script.Tabled, Stands, Shown, Script.AfterLength, Script.HasLength, AtTable, BitReader.Ahead,
        BitReader.InHand, High, FromLow, ByteBits, Window.Valid, InWindow, DistanceMeans;
      NeedFew(s, c, v);
      DistStands(s, c, v);
      ok := r.NeedBits(c.need);
      t := Unset;
      if ok {
        t := LookDistance(dtree, c.tree, c.need, r, s, v.i, v.past, v.rest);
        DistanceTurns(s, c, v, h, w.hist, t);
      }
    }

    /** DIST: a distance, the next table, or an invalid code. */
    method Dist() returns (ok: bool)
      requires Valid() && c.mode.DIST?
      modifies this`c, this`v, r`b, r`k, r`p, r`extra
      ensures Valid() && Gap() == old(Gap()) && |r.Ahead()| <= |old(r.Ahead())| && (old(r.InHand()) ==> r.InHand())
      ensures (ok ==> |r.Ahead()| < |old(r.Ahead())| && !c.mode.START? && !c.mode.END?) && v.i == old(v.i)
      ensures !ok ==> c == old(c) && v == old(v) && r.p == |r.input| && |r.Ahead()| + Begun() < 15 && |r.Ahead()| < Lookahead()
    {
      hide Script.Valid, Stands, Shown, BitReader.Valid, BitReader.Ahead, BitReader.InHand, Window.Valid, InWindow;
      var t;
      ok, t := DistEntry();
      if ok {
        DropEntry(t, DistanceTurn(c, t));
        TurnDistance(t);
      }
    }

    /** What a distance entry does to the registers. */
    method TurnDistance(t: Huft)
      requires t.Huft?
      modifies this`c
      ensures c == DistanceTurn(old(c), t)
    {
      var e := t.exop;
      if (e / 16) % 2 == 1 {
        c := c.(get := e % 16, dist := t.more, mode := DISTEXT);
      } else if (e / 64) % 2 == 0 {
        c := c.(need := e, tree := t.more);
      } else {
        c := c.(mode := BADCODE);
      }
    }

    /** LENEXT */
    method LenExt() returns (ok: bool)
      requires Valid() && c.mode.LENEXT?
      modifies this`c, this`v, r`b, r`k, r`p, r`extra
      ensures Valid() && Gap() == old(Gap()) && |r.Ahead()| <= |old(r.Ahead())| && (old(r.InHand()) ==> r.InHand())
      ensures (ok ==> c.mode.DIST?) && v.i == old(v.i)
      ensures !ok ==> c == old(c) && v == old(v) && r.p == |r.input| && |r.Ahead()| + Begun() < 15 && |r.Ahead()| < Lookahead()
    {
      hide Script.Valid, Script.Tabled, Stands, Shown, Script.AfterLength, Script.HasLength, BitReader.Ahead, BitReader.InHand,
        High, FromLow, ByteBits, LowBits, Pow2, Window.Valid, InWindow;
      LengthExtraTurns(s, c, v, h, w.hist);
      ok := r.NeedBits(c.get);
      if !ok {
        return;
      }
      var len := AddExtra(c.len, c.get, r, s.LenExtra(v.i), s.AfterLength(v.i));
      c := c.(len := len, need := dbits, tree := 0, mode := DIST);
      v := v.(past := [], rest := s.AfterLength(v.i));
    }

    /** DISTEXT */
    method DistExt() returns (ok: bool)
      requires Valid() && c.mode.DISTEXT?
      modifies this`c, this`v, r`b, r`k, r`p, r`extra
      ensures Valid() && Gap() == old(Gap()) && |r.Ahead()| <= |old(r.Ahead())| && (old(r.InHand()) ==> r.InHand())
      ensures (ok ==> c.mode.COPY?) && v.i == old(v.i)
      ensures !ok ==> c == old(c) && v == old(v) && r.p == |r.input| && |r.Ahead()| + Begun() < 15 && |r.Ahead()| < Lookahead()
    {
      hide Script.Valid, Script.Tabled, Stands, Shown, Script.From, BitReader.Ahead, BitReader.InHand,
        High, FromLow, ByteBits, LowBits, Pow2, Window.Valid, InWindow;
      DistanceExtraTurns(s, c, v, h, w.hist, w.window.Length);
      ok := r.NeedBits(c.get);
      if !ok {
        return;
      }
      var dist := AddExtra(c.dist, c.get, r, s.items[v.i].y, s.From(v.i + 1));
      c := c.(dist := dist, mode := COPY);
      v := v.(rest := s.From(v.i + 1));
    }

    /** LIT */
    method Lit(availOut: nat) returns (ok: bool, left: nat)
      requires Valid() && c.mode.LIT?
      modifies this`c, this`v, w`read, w`write, w`m, w`out, w`hist, w`produced, w.window
      ensures Valid() && Gap() == old(Gap()) && |w.out| + left == |old(w.out)| + availOut && old(w.out) <= w.out
      ensures if ok then c.mode.START? && v.i == old(v.i) + 1 else c.mode.LIT? && left == 0 && |w.out| < |w.produced| && v == old(v)
      ensures old(w.m) > 0 ==> ok && left == availOut && Grown(old(RingOf(w)), RingOf(w))
    {
      hide Script.Valid, Script.Tabled, Stands, Shown, Script.From, BitReader.Valid, BitReader.Ahead, Window.Valid, InWindow, Told, Grown;
      LitTurns(s, c, v, h, w.hist, w.window.Length);
      ok, left := w.NeedOut(availOut);
      if !ok {
        return;
      }
      w.OutByte(c.lit);
      TokenStands(s, c, v, h, w.hist, v.i + 1);
      c := c.(mode := START);
      v := v.(i := v.i + 1, rest := s.From(v.i + 1), before := w.hist);
    }

    /** One byte of a copy from f, if there is room or output makes some. */
    method CopyByte(f0: nat, availOut: nat) returns (ok: bool, f: nat, left: nat)
      requires Valid() && c.mode.COPY? && c.len > 0 && 1 <= c.dist <= w.window.Length && f0 == Back(w.write, c.dist, w.window.Length)
      modifies this`c, w`read, w`write, w`m, w`out, w`hist, w`produced, w.window
      ensures Valid() && Gap() == old(Gap()) && |w.out| + left == |old(w.out)| + availOut && old(w.out) <= w.out
      ensures if ok then c == old(c).(len := old(c.len) - 1) else c == old(c) && left == 0 && |w.out| < |w.produced|
      ensures ok ==> f == Back(w.write, c.dist, w.window.Length)
      ensures old(w.m) > 0 ==> ok && left == availOut && w.m == old(w.m) - 1 && Grown(old(RingOf(w)), RingOf(w))
    {
      hide Script.Valid, Script.Tabled, Stands, Shown, Script.From, LowBits, High, FromLow, ByteBits, BitReader.Ahead, Window.Valid,
        InWindow, Told, Copy, Recent, Remembered, Pow2, Grown;
      f := f0;
      CopyTurns(s, c, v, h, w.hist, w.window.Length);
      ok, left := w.NeedOut(availOut);
      if !ok {
        return;
      }
      w.InRing();
      w.Source(c.dist);
      w.OutByte(w.window[f]);
      f := f + 1;
      if f == w.window.Length {
        f := 0;
      }
      c := c.(len := c.len - 1);
    }

    /** COPY: byte by byte, as room comes. */
    method CopyBytes(availOut: nat) returns (ok: bool, left: nat)
      requires Valid() && c.mode.COPY?
      modifies this`c, this`v, w`read, w`write, w`m, w`out, w`hist, w`produced, w.window
      ensures Valid() && Gap() == old(Gap()) && |w.out| + left == |old(w.out)| + availOut && old(w.out) <= w.out
      ensures if ok then c.mode.START? && v.i == old(v.i) + 1 else c.mode.COPY? && left == 0 && |w.out| < |w.produced| && v == old(v)
      ensures old(w.m) >= old(c.len) ==> ok && left == availOut && Grown(old(RingOf(w)), RingOf(w))
    {
      hide Script.Valid, Script.Tabled, Stands, Shown, Script.From, LowBits, High, FromLow, ByteBits, BitReader.Ahead, Window.Valid,
        InWindow, Told, Copy, Recent, Remembered, Pow2, Grown;
      left := availOut;
      StaysAlike();
      ghost var ring, enough := RingOf(w), w.m >= c.len;
      CopyTurns(s, c, v, h, w.hist, w.window.Length);
      var f := Back(w.write, c.dist, w.window.Length);
      while c.len > 0
        invariant Valid() && Gap() == old(Gap()) && v == old(v) && c.mode.COPY? && c.dist == old(c.dist)
        invariant |w.out| + left == |old(w.out)| + availOut && old(w.out) <= w.out
        invariant 1 <= c.dist <= w.window.Length && f == Back(w.write, c.dist, w.window.Length)
        invariant enough ==> left == availOut && w.m >= c.len && Grown(ring, RingOf(w))
        decreases c.len
      {
        ghost var before := RingOf(w);
        ok, f, left := CopyByte(f, left);
        if !ok {
          return;
        }
        if enough {
          GrownMore(ring, before, RingOf(w));
        }
      }
      CopyTurns(s, c, v, h, w.hist, w.window.Length);
      TokenStands(s, c, v, h, w.hist, v.i + 1);
      c := c.(mode := START);
      v := v.(i := v.i + 1, rest := s.From(v.i + 1), before := w.hist);
      ok := true;
    }

    /** START: inflate_fast if there is enough input and room, else the next code bit by bit. */
    method Start(fast: bool)
      requires Valid() && c.mode.START? && (fast ==> r.InHand())
      modifies this`c, this`v, r`b, r`k, r`p, r`extra, w`write, w`m, w`hist, w`produced, w.window
      ensures Valid() && Gap() == old(Gap()) && |r.Ahead()| <= |old(r.Ahead())| && (old(r.InHand()) ==> r.InHand())
      ensures c.mode.LEN? || c.mode.WASH? || c.mode.BADCODE?
      ensures (!fast ==> c.mode.LEN? && v.i == old(v.i)) && old(v.i) <= v.i && Grown(old(RingOf(w)), RingOf(w))
    {
      hide Script.Valid, Script.Tabled, Stands, Shown, Script.From, BitReader.Valid, BitReader.Ahead, BitReader.InHand,
        Window.Valid, InWindow, Told, Grown;
      w.InRing();
      GrownNot(RingOf(w));
      StartTurns(s, c, v, h, w.hist);
      if fast && w.m >= 258 && r.p + 10 <= |r.input| {
        ghost var was := w.hist;
        var res, n, lost;
        ghost var i;
        res, n, lost, i := FastLoop(lbits, dbits, ltree, dtree, r, w, s, h, v.i);
        assert w.hist[|h|..] == was[|h|..] + w.hist[|was|..];
        if res != FastOk {
          TabledSizes(s);
          EndStands(s, c, v, h, w.hist);
          c := c.(mode := if res == FastEnd then WASH else BADCODE);
          v := v.(i := |s.items|, rest := s.tail, before := w.hist);
          return;
        }
        TokenStands(s, c, v, h, w.hist, i);
        v := v.(i := i, rest := s.From(i), before := w.hist);
        StartTurns(s, c, v, h, w.hist);
      }
      c := c.(need := lbits, tree := 0, mode := LEN);
      v := v.(past := []);
    }

    /** WASH: the end of the block waits until all output is delivered. */
    method Wash(availOut: nat) returns (ok: bool, left: nat)
      requires Valid() && c.mode.WASH?
      modifies this`c, w`read, w`write, w`m, w`out
      ensures Valid() && Gap() == old(Gap()) && |w.out| + left == |old(w.out)| + availOut && old(w.out) <= w.out
      ensures if ok then c.mode.END? && w.out == w.produced else c.mode.WASH? && left == 0 && |w.out| < |w.produced|
    {
      hide *;
      Parts();
      left := w.Flush(availOut);
      Whole();
      if w.read != w.write {
        w.Waits();
        return false, left;
      }
      w.Emptied();
      c := c.(mode := END);
      ok := true;
      WashEnds(s, old(c), v, h, w.hist);
      Whole();
    }

    lemma StaysAlike()
      requires Valid()
      ensures Grown(RingOf(w), RingOf(w))
    {
      Parts();
      w.InRing();
      GrownNot(RingOf(w));
    }

    /** One round of the loop: what is left to do before the call ends, if anything. */
    method Round(availOut: nat, fast: bool) returns (leave: Option<Leave>, left: nat)
      requires Valid() && (fast && c.mode.START? ==> r.InHand())
      modifies this`c, this`v, r`b, r`k, r`p, r`extra, w`read, w`write, w`m, w`out, w`hist, w`produced, w.window
      ensures Valid() && Gap() == old(Gap()) && |w.out| + left == |old(w.out)| + availOut && old(w.out) <= w.out
      ensures (old(r.InHand()) ==> r.InHand()) && |r.Ahead()| <= |old(r.Ahead())|
      ensures leave.None? ==> |r.Ahead()| < |old(r.Ahead())| || Rank(c.mode) < old(Rank(c.mode))
      ensures leave == Some(NeedsInput) ==> r.p == |r.input| && |r.Ahead()| + Begun() < 15 && |r.Ahead()| < Lookahead()
      ensures old(v.i) <= v.i && (c.mode.START? ==> (old(c.mode).START? && v.i == old(v.i)) || v.i > old(v.i))
      ensures leave == Some(NeedsOutput) ==> left == 0 && |w.out| < |w.produced|
      ensures leave == Some(StreamEnd) <==> leave.Some? && c.mode.END?
      ensures leave == Some(DataError) <==> leave.Some? && c.mode.BADCODE?
      ensures leave == Some(NeedsInput) ==> v == old(v) && c == old(c) && (c.mode.LEN? || c.mode.LENEXT? || c.mode.DIST? || c.mode.DISTEXT?)
      ensures !fast ==> v.i == old(v.i) + (if leave.None? && c.mode.START? then 1 else 0)
      ensures !fast && leave.None? && c.mode.START? ==> !old(c.mode).START?
      ensures (c.mode.END? ==> old(c.mode).WASH? || old(c.mode).END?) && (leave.Some? ==> c.mode == old(c.mode))
      ensures !old(c.mode).WASH? && old(w.m) >= Room(old(c)) ==>
                leave != Some(NeedsOutput) && left == availOut && Grown(old(RingOf(w)), RingOf(w))
    {
      hide *;
      Ranks(c);
      StaysAlike();
      var ok := true;
      left := availOut;
      leave := None;
      match c.mode {
        case START => Start(fast);
        case LEN => ok := Len();
        case LENEXT => ok := LenExt();
        case DIST => ok := Dist();
        case DISTEXT => ok := DistExt();
        case COPY => ok, left := CopyBytes(availOut); if !ok { leave := Some(NeedsOutput); } return;
        case LIT => ok, left := Lit(availOut); if !ok { leave := Some(NeedsOutput); } return;
        case WASH => ok, left := Wash(availOut); if !ok { leave := Some(NeedsOutput); } return;
        case END => leave := Some(StreamEnd);
        case BADCODE => leave := Some(DataError);
      }
      if !ok {
        leave := Some(NeedsInput);
      }
    }

    /** inflate_codes, with or without the fast path, and the inflate_flush at its end. */
    method Process(availOut: nat, fast: bool) returns (leave: Leave, left: nat)
      requires Valid() && r.p <= |r.input| && (fast ==> Safe() && |s.tail| >= 15)
      modifies this`c, this`v, r`b, r`k, r`p, r`extra, w`read, w`write, w`m, w`out, w`hist, w`produced, w.window
      ensures Valid() && r.p <= |r.input| && Gap() == old(Gap()) && (old(Safe()) ==> Safe()) && (old(r.InHand()) ==> r.InHand())
      ensures |w.out| + left == |old(w.out)| + availOut && old(w.out) <= w.out && (left > 0 ==> w.out == w.produced)
      ensures leave.NeedsInput? ==> r.p == |r.input| && |r.Ahead()| + Begun() < 15 && |r.Ahead()| < Lookahead()
      ensures leave.NeedsInput? ==> c.mode.LEN? || c.mode.LENEXT? || c.mode.DIST? || c.mode.DISTEXT?
      ensures leave.NeedsOutput? ==> left == 0 && |w.out| < |w.produced|
      ensures leave.StreamEnd? ==> c.mode.END?
      ensures leave.StreamEnd? || leave.DataError? ==>
                ExpandOn(h, s.ts) == Some(w.hist) && r.Ahead() <= s.tail && |s.tail| - |r.Ahead()| == old(Gap()) && (leave.StreamEnd? <==> s.ending.EndOfBlock?)
    {
      hide *;
      left := availOut;
      var stop := None;
      Parts();
      while stop.None?
        invariant Valid() && r.p <= |r.input| && r.Ahead() <= v.rest && Gap() == old(Gap()) && (old(r.InHand()) ==> r.InHand())
        invariant (fast ==> |s.tail| >= 15) && (old(Safe()) ==> Safe())
        invariant |w.out| + left == |old(w.out)| + availOut && old(w.out) <= w.out
        invariant stop == Some(NeedsInput) ==> r.p == |r.input| && |r.Ahead()| + Begun() < 15 && |r.Ahead()| < Lookahead()
        invariant stop == Some(NeedsInput) ==> c.mode.LEN? || c.mode.LENEXT? || c.mode.DIST? || c.mode.DISTEXT?
        invariant stop == Some(NeedsOutput) ==> left == 0 && |w.out| < |w.produced|
        invariant stop == Some(StreamEnd) <==> stop.Some? && c.mode.END?
        invariant stop == Some(DataError) <==> stop.Some? && c.mode.BADCODE?
        decreases stop.None?, |r.Ahead()|, Rank(c.mode)
      {
        if fast && c.mode.START? {
          SafeHere();
        }
        ghost var c0, v0 := c, v;
        NoteSafe();
        stop, left := Round(left, fast);
        Parts();
        StillSafe(c0, v0);
      }
      leave := stop.value;
      if leave.StreamEnd? || leave.DataError? {
        AtEnd();
      }
      Parts();
      NoteSafe();
      ghost var c0, v0 := c, v;
      left := w.Flush(left);
      Whole();
      StillSafe(c0, v0);
    }

    lemma NoteSafe()
      requires Valid() && r.p <= |r.input|
      ensures s.Valid() && v.i <= |s.items| && (Safe() <==> NextStart(s, c, v) < 8 + Gap() + 8 * |r.input|)
    {
      Parts();
      Midway(s, c, v);
    }

    /** Later on it is no further to the next token. */
    lemma StillSafe(c0: Codes, v0: View)
      requires Valid() && r.p <= |r.input| && v0.i <= v.i && (c.mode.START? ==> (c0.mode.START? && v.i == v0.i) || v.i > v0.i)
      ensures s.Valid() && v0.i <= v.i <= |s.items|
      ensures NextStart(s, c, v) <= NextStart(s, c0, v0) && (Safe() <==> NextStart(s, c, v) < 8 + Gap() + 8 * |r.input|)
    {
      hide *;
      Parts();
      NoteSafe();
      StartsLater(s, c0, v0, c, v);
    }

    /** The parts of Valid. */
    lemma Parts()
      requires Valid()
      ensures s.Valid() && ltree == s.lt.tables && dtree == s.dt.tables && lbits == s.lt.bits && dbits == s.dt.bits
      ensures InWindow(h, s.ts, w.window.Length) && r.Valid() && w.Valid()
      ensures r.p <= |r.input| && Stands(s, c, v) && Shown(s, c, v, h, w.hist) && r.Ahead() <= v.rest
      ensures h <= w.hist && w.produced == told + w.hist[|h|..]
    {
      hide Script.Valid, Stands, Shown, BitReader.Ahead, Window.Valid, InWindow;
    }

    lemma Whole()
      requires s.Valid() && ltree == s.lt.tables && dtree == s.dt.tables && lbits == s.lt.bits && dbits == s.dt.bits
      requires InWindow(h, s.ts, w.window.Length) && r.Valid() && w.Valid()
      requires r.p <= |r.input| && Stands(s, c, v) && Shown(s, c, v, h, w.hist) && r.Ahead() <= v.rest
      requires h <= w.hist && w.produced == told + w.hist[|h|..]
      ensures Valid()
    {
      hide Script.Valid, Stands, Shown, BitReader.Ahead, BitReader.Valid, Window.Valid, InWindow;
    }

    /** At the beginning of a token, and behind the body. */
    lemma SafeHere()
      requires Valid() && r.p <= |r.input| && (c.mode.START? || c.mode.END?) && |s.tail| >= 15
      ensures Safe() <==> r.InHand()
    {
      Parts();
      r.HeldWithin();
      Owes(s, c, v);
      hide Script.Valid, Script.From, Stands, Shown, BitReader.Valid, BitReader.Ahead, Window.Valid, InWindow;
    }

    /** The caller comes back with more input, because it was asked for: then it is safe to go on. */
    method Supply(chunk: seq<byte>)
      requires Valid() && r.p == |r.input| && r.Ahead() + ByteBits(chunk) <= v.rest
      requires |r.Ahead()| < Lookahead() && lbits <= 9 && dbits <= 9 && |s.tail| >= 15
      requires c.mode.LEN? || c.mode.LENEXT? || c.mode.DIST? || c.mode.DISTEXT?
      modifies r`input, r`p
      ensures Valid() && r.p <= |r.input| && r.Ahead() == old(r.Ahead()) + ByteBits(chunk) && Gap() == old(Gap()) - |ByteBits(chunk)|
      ensures Safe()
    {
      hide *;
      Parts();
      OwesAsked();
      ghost var k := |r.Ahead()|;
      r.Supply(chunk);
      Whole();
      NoteSafe();
      Added(k, chunk);
    }

    lemma Added(k: nat, chunk: seq<byte>)
      requires r.Valid() && r.p == 0 && r.input == chunk && |r.Ahead()| == k + |ByteBits(chunk)|
      ensures |ByteBits(chunk)| == 8 * |r.input|
    {
    }

    /** What is at hand is less than what is asked for, and that is less than eight bits more than what there is to the next
        token. */
    lemma OwesAsked()
      requires Valid() && r.p <= |r.input| && |r.Ahead()| < Lookahead() && lbits <= 9 && dbits <= 9 && |s.tail| >= 15
      requires c.mode.LEN? || c.mode.LENEXT? || c.mode.DIST? || c.mode.DISTEXT?
      ensures s.Valid() && v.i <= |s.items| && |r.Ahead()| + NextStart(s, c, v) < 8 + |v.rest|
    {
      Parts();
      Owes(s, c, v);
      NeedWithin(s, c, v);
      hide Script.Valid, Script.From, Stands, Shown, BitReader.Valid, BitReader.Ahead, Window.Valid, InWindow, Beyond;
      NextIs(s, c, v);
    }

    /** The bits from here on end those of the whole script. */
    lemma Ending()
      requires Valid()
      ensures s.Valid() && EndsWith(s.From(0), v.rest)
    {
      hide *;
      Parts();
      RestEnds(s, c, v);
    }

    /** Before that, what has entered the history is the beginning of what the tokens stand for. */
    lemma SoFar()
      requires Valid()
      ensures ExpandOn(h, s.ts).Some? && w.hist <= ExpandOn(h, s.ts).value
    {
      hide *;
      Parts();
      Beginning(s, c, v, h, w.hist, w.window.Length);
    }

    /** At the end all tokens are told. */
    lemma AtEnd()
      requires Valid() && (c.mode.END? || c.mode.BADCODE?)
      ensures r.p <= |r.input| && ExpandOn(h, s.ts) == Some(w.hist) && r.Ahead() <= s.tail && |s.tail| - |r.Ahead()| == Gap()
      ensures c.mode.END? <==> s.ending.EndOfBlock?
    {
      hide Script.Valid, Script.Tabled, Stands, Shown, BitReader.Valid, BitReader.Ahead, BitReader.InHand, Window.Valid, InWindow;
      Parts();
      AllShown(s, c, v, h, w.hist);
    }
  }

  ghost predicate EndsWith(s: seq<bool>, t: seq<bool>) {
    |t| <= |s| && s[|s| - |t|..] == t
  }

  lemma EndsAfter(a: seq<bool>, b: seq<bool>, s: seq<bool>)
    requires a + b == s
    ensures EndsWith(s, b)
  {
  }

  lemma EndsFurther(s: seq<bool>, t: seq<bool>, u: seq<bool>)
    requires EndsWith(s, t) && EndsWith(t, u)
    ensures EndsWith(s, u)
  {
  }

  lemma {:induction false} FromEnds(s: Script, i: nat)
    requires s.Valid() && i <= |s.items|
    ensures EndsWith(s.From(0), s.From(i))
  {
    hide Script.Valid, Script.Tabled, Script.Piece, Script.EndBits, EndsWith, Item.Valid;
    if i == 0 {
      EndsAfter([], s.From(0), s.From(0));
    } else {
      FromEnds(s, i - 1);
      NextEnds(s, i - 1);
      EndsFurther(s.From(0), s.From(i - 1), s.From(i));
    }
  }

  lemma NextEnds(s: Script, i: nat)
    requires s.Valid() && i < |s.items|
    ensures EndsWith(s.From(i), s.From(i + 1))
  {
    hide Script.Tabled, Script.Piece, EndsWith, Item.Token, Item.Valid;
    assert s.Sends(s.items[i]);
    EndsAfter(s.Piece(s.items[i]), s.From(i + 1), s.From(i));
  }

  lemma TailEnds(s: Script)
    requires s.Valid()
    ensures EndsWith(s.From(|s.items|), s.tail)
  {
    hide Script.Tabled, Script.EndBits, EndsWith;
    EndsAfter(s.EndBits(), s.tail, s.From(|s.items|));
  }

  lemma EndsBoth(a: seq<bool>, x: seq<bool>, t: seq<bool>)
    requires EndsWith(a, x)
    ensures EndsWith(a + t, x + t) && EndsWith(a + t, t)
  {
    EndsAfter(a, t, a + t);
    assert (a + t)[|a| - |x|..] == a[|a| - |x|..] + t;
  }

  /** The bits of a length end with its extra bits. */
  lemma LengthExtraEnds(s: Script, c: nat, x: nat)
    requires s.Tabled() && c < LENGTH_CODES
    ensures EndsWith(s.LengthBits(c, x), LowBits(x, ExtraLbits()[c]))
  {
    hide LowBits, Codebook.Code.Word, Script.Tabled, ExtraLbits;
  }

  lemma DistanceExtraEnds(s: Script, dc: nat, y: nat)
    requires s.Tabled() && dc < D_CODES
    ensures EndsWith(s.DistanceBits(dc, y), LowBits(y, ExtraDbits()[dc]))
  {
    hide LowBits, Codebook.Code.Word, Script.Tabled, ExtraDbits;
  }

  lemma LengthFirst(s: Script, i: nat)
    requires s.Valid() && i <= |s.items| && s.HasLength(i) && LengthOk(s.LenCode(i), s.LenExtra(i))
    ensures s.Tabled() && s.LenCode(i) < LENGTH_CODES && s.From(i) == s.LengthBits(s.LenCode(i), s.LenExtra(i)) + s.AfterLength(i)
  {
    hide Script.Tabled, Script.LengthBits, Script.DistanceBits, ToBits, Item.Token;
    var a := s.LengthBits(s.LenCode(i), s.LenExtra(i));
    if i < |s.items| {
      assert s.Sends(s.items[i]);
      var y := s.DistanceBits(s.items[i].dc, s.items[i].y);
      assert (a + y) + s.From(i + 1) == a + (y + s.From(i + 1));
    } else {
      var y := ToBits(s.ending.v, s.ending.k);
      assert (a + y) + s.tail == a + (y + s.tail);
    }
  }

  lemma LengthEnds(s: Script, i: nat)
    requires s.Valid() && i <= |s.items| && s.HasLength(i) && LengthOk(s.LenCode(i), s.LenExtra(i))
    ensures s.LenCode(i) < LENGTH_CODES && EndsWith(s.From(i), s.AfterLength(i))
    ensures EndsWith(s.From(i), LowBits(s.LenExtra(i), ExtraLbits()[s.LenCode(i)]) + s.AfterLength(i))
  {
    hide *;
    LengthFirst(s, i);
    LengthExtraEnds(s, s.LenCode(i), s.LenExtra(i));
    EndsBoth(s.LengthBits(s.LenCode(i), s.LenExtra(i)), LowBits(s.LenExtra(i), ExtraLbits()[s.LenCode(i)]), s.AfterLength(i));
  }

  lemma DistanceEnds(s: Script, i: nat, rest: seq<bool>)
    requires s.Valid() && i < |s.items| && s.items[i].Match? && s.items[i].dc < D_CODES
    requires rest == LowBits(s.items[i].y, ExtraDbits()[s.items[i].dc]) + s.From(i + 1)
    ensures EndsWith(s.From(i), rest)
  {
    hide Script.Tabled, EndsWith, LowBits, Item.Token, ExtraLbits, ExtraDbits, Script.LengthBits, Script.DistanceBits, Script.EndBits;
    assert s.Sends(s.items[i]);
    var m := s.items[i];
    DistanceExtraEnds(s, m.dc, m.y);
    var a, d, x := s.LengthBits(m.c, m.x), s.DistanceBits(m.dc, m.y), LowBits(m.y, ExtraDbits()[m.dc]);
    EndsAfter(a, d, a + d);
    EndsFurther(a + d, d, x);
    EndsBoth(a + d, x, s.From(i + 1));
  }

  lemma RestEnds(s: Script, c: Codes, v: View)
    requires s.Valid() && Stands(s, c, v)
    ensures EndsWith(s.From(0), v.rest)
  {
    hide Script.Valid, Script.Tabled, Script.From, Script.AfterLength, AtTable, EndsWith, Looked, Cplens, ExtraLbits, LowBits;
    FromEnds(s, v.i);
    if v.i < |s.items| {
      FromEnds(s, v.i + 1);
    }
    match c.mode
    case LEN =>
      EndsAfter(v.past, v.rest, s.From(v.i));
      EndsFurther(s.From(0), s.From(v.i), v.rest);
    case LENEXT =>
      LengthEnds(s, v.i);
      EndsFurther(s.From(0), s.From(v.i), v.rest);
    case DIST =>
      LengthEnds(s, v.i);
      EndsAfter(v.past, v.rest, s.AfterLength(v.i));
      EndsFurther(s.From(v.i), s.AfterLength(v.i), v.rest);
      EndsFurther(s.From(0), s.From(v.i), v.rest);
    case DISTEXT =>
      DistanceEnds(s, v.i, v.rest);
      EndsFurther(s.From(0), s.From(v.i), v.rest);
    case START =>
    case COPY =>
    case LIT =>
    case _ =>
      FromEnds(s, |s.items|);
      TailEnds(s);
      EndsFurther(s.From(0), s.From(|s.items|), s.tail);
  }

  /** What is shown is the beginning of what the tokens stand for. */
  lemma Beginning(s: Script, c: Codes, v: View, h: seq<byte>, hist: seq<byte>, size: nat)
    requires s.Valid() && Stands(s, c, v) && Shown(s, c, v, h, hist) && InWindow(h, s.ts, size)
    ensures ExpandOn(h, s.ts).Some? && hist <= ExpandOn(h, s.ts).value
  {
    hide Script.Valid, Script.From, InLength, InLengthExtra, InDistance, InDistanceExtra, ExpandOn, Told, Copy;
    ToldFirst(h, s.ts, v.i, v.before);
    if c.mode.COPY? {
      var n := s.ts[v.i].lc + MIN_MATCH;
      ToldCopy(h, s.ts, v.i, v.before, n);
      ToldFirst(h, s.ts, v.i + 1, Copy(v.before, c.dist, n));
      CopyMonotone(v.before, c.dist, n - c.len, n);
    }
  }

  lemma ToldFirst(h: seq<byte>, ts: seq<Token>, i: nat, before: seq<byte>)
    requires Told(h, ts, i, before) && ExpandOn(h, ts).Some?
    ensures before <= ExpandOn(h, ts).value
  {
    hide ExpandOn;
    assert ts == ts[..i] + ts[i..];
    ExpandConcat(h, ts[..i], ts[i..]);
    ExpandGrows(before, ts[i..]);
  }

  lemma ToldCopy(h: seq<byte>, ts: seq<Token>, i: nat, before: seq<byte>, n: nat)
    requires Told(h, ts, i, before) && i < |ts| && 1 <= ts[i].dist <= |before| && n == ts[i].lc + MIN_MATCH
    ensures Told(h, ts, i + 1, Copy(before, ts[i].dist, n))
  {
    hide Copy;
    assert ts[..i + 1][..i] == ts[..i] && ts[..i + 1][i] == ts[i];
  }

  lemma {:induction false} CopyMonotone(out: seq<byte>, dist: nat, m: nat, n: nat)
    requires 1 <= dist <= |out| && m <= n
    ensures Copy(out, dist, m) <= Copy(out, dist, n)
    decreases n - m
  {
    if m < n {
      CopyMonotone(out, dist, m, n - 1);
    }
  }

  // ----- the fast path and the rounds

  /** Later items have fewer bits to come. */
  lemma {:induction false} FromShrinks(s: Script, a: nat, b: nat)
    requires s.Valid() && a <= b <= |s.items|
    ensures |s.From(a)| >= |s.From(b)| >= |s.tail|
    decreases b - a
  {
    hide Script.Valid, Script.From;
    if a < b {
      FromShrinks(s, a + 1, b);
      NextShrinks(s, a);
    } else {
      TailShrinks(s, b);
    }
  }

  lemma NextShrinks(s: Script, a: nat)
    requires s.Valid() && a < |s.items|
    ensures |s.From(a)| >= |s.From(a + 1)|
  {
    hide Script.Tabled, Script.Piece, Item.Token, Item.Valid;
    assert s.Sends(s.items[a]);
  }

  lemma {:induction false} TailShrinks(s: Script, b: nat)
    requires s.Valid() && b <= |s.items|
    ensures |s.From(b)| >= |s.tail|
    decreases |s.items| - b
  {
    hide Script.Valid, Script.From;
    if b < |s.items| {
      TailShrinks(s, b + 1);
      NextShrinks(s, b);
    } else {
      EndTail(s);
    }
  }

  lemma EndTail(s: Script)
    requires s.Valid()
    ensures |s.From(|s.items|)| >= |s.tail|
  {
    hide Script.Tabled, Script.EndBits;
  }

  /** As long as 15 bits beyond the target have been supplied, no code on the way to it runs out of input. */
  lemma NotStarved(s: Script, c: Codes, v: View, ahead: nat, gap: nat, i: nat, end: bool)
    requires s.Valid() && Stands(s, c, v) && |v.rest| == ahead + gap && i <= |s.items| && (end || v.i < i)
    requires c.mode.LEN? || c.mode.LENEXT? || c.mode.DIST? || c.mode.DISTEXT?
    requires (if end then |s.tail| else |s.From(i)|) >= gap + 15
    ensures ahead + (if c.mode.LEN? || c.mode.DIST? then |v.past| else 0) >= 15
  {
    hide Script.Valid, Script.Tabled, Script.From, Script.AfterLength, Script.HasLength, AtTable, LowBits, Pow2, Cplens, ExtraLbits, Looked;
    FromShrinks(s, v.i, |s.items|);
    if !end {
      FromShrinks(s, v.i + 1, i);
      FromShrinks(s, v.i, i);
    }
    if v.i < |s.items| {
      FromShrinks(s, v.i + 1, |s.items|);
    }
    if s.HasLength(v.i) {
      AfterShrinks(s, v.i);
    }
  }

  lemma AfterShrinks(s: Script, i: nat)
    requires s.Valid() && i <= |s.items| && s.HasLength(i)
    ensures |s.AfterLength(i)| >= if i < |s.items| then |s.From(i + 1)| else |s.tail|
  {
    hide Script.Tabled, Script.From, Script.DistanceBits, Script.LengthBits, Item.Token, Item.Valid;
    if i < |s.items| {
      assert s.Sends(s.items[i]);
    }
  }

  // ----- how far it is to the next token

  /** How many bits are to come when the next token begins, or behind the body. */
  ghost function NextStart(s: Script, c: Codes, v: View): nat
    requires s.Valid() && v.i <= |s.items|
  {
    if c.mode.START? then |s.From(v.i)| else Beyond(s, v.i)
  }

  /** And once item i is read. */
  ghost function Beyond(s: Script, i: nat): nat
    requires s.Valid() && i <= |s.items|
  {
    if i < |s.items| then |s.From(i + 1)| else |s.tail|
  }

  lemma NextIs(s: Script, c: Codes, v: View)
    requires s.Valid() && v.i <= |s.items| && !c.mode.START?
    ensures NextStart(s, c, v) == Beyond(s, v.i)
  {
  }

  lemma StartsLater(s: Script, c: Codes, v: View, c': Codes, v': View)
    requires s.Valid() && v.i <= v'.i <= |s.items|
    requires c'.mode.START? ==> (c.mode.START? && v'.i == v.i) || v'.i > v.i
    ensures NextStart(s, c', v') <= NextStart(s, c, v)
  {
    hide Script.Valid, Script.From;
    FromShrinks(s, v.i, v'.i);
    if v.i < v'.i {
      FromShrinks(s, v.i + 1, v'.i);
    }
    TailShrinks(s, v'.i);
    if v'.i < |s.items| {
      FromShrinks(s, v'.i, v'.i + 1);
      FromShrinks(s, v.i + 1, v'.i + 1);
    }
  }

  /** Within a code at least one bit is to come before the next token, within extra bits all of them. */
  lemma Owes(s: Script, c: Codes, v: View)
    requires s.Valid() && Stands(s, c, v) && |s.tail| >= 15
    ensures v.i <= |s.items|
    ensures c.mode.LEN? || c.mode.DIST? ==> |v.rest| > Beyond(s, v.i)
    ensures c.mode.LENEXT? || c.mode.DISTEXT? ==> |v.rest| >= c.get + Beyond(s, v.i)
    ensures c.mode.START? || c.mode.END? ==> |v.rest| == NextStart(s, c, v)
  {
    hide Script.Valid, Script.Tabled, Script.From, Script.AfterLength, AtTable, InLength, InDistance, Cplens, ExtraLbits, ExtraDbits, Pow2;
    match c.mode
    case LEN => LenOwes(s, c, v);
    case DIST => DistOwes(s, c, v);
    case LENEXT => AfterShrinks(s, v.i);
    case _ =>
  }

  lemma {:induction false} LenOwes(s: Script, c: Codes, v: View)
    requires s.Valid() && c.mode.LEN? && Stands(s, c, v) && |s.tail| >= 15
    ensures v.i <= |s.items| && |v.rest| > Beyond(s, v.i)
    decreases |v.rest|
  {
    hide Script.Valid, Script.Tabled, Script.From, Script.AfterLength, Script.HasLength, AtTable, EntryAt, LowBits, Pow2, Cplens, ExtraLbits;
    NotStarved(s, c, v, |v.rest|, 0, |s.items|, true);
    NeedFew(s, c, v);
    LengthEntry(s, v.i, c.tree, v.past, v.rest, v.rest);
    var t := EntryAt(s.lt.Work(), c.tree, v.rest);
    LengthIsHuft(s, v.i, v.past, v.rest, t);
    if t.exop != 0 && (t.exop / 16) % 2 == 1 {
      AfterShrinks(s, v.i);
    } else if t.exop != 0 && (t.exop / 64) % 2 == 0 {
      LengthLink(s, v.i, v.past, v.rest, t);
      LenOwes(s, LengthTurn(c, t), Dropped(v, t.bits));
    }
  }

  lemma {:induction false} DistOwes(s: Script, c: Codes, v: View)
    requires s.Valid() && c.mode.DIST? && Stands(s, c, v) && |s.tail| >= 15
    ensures v.i <= |s.items| && |v.rest| > Beyond(s, v.i)
    decreases |v.rest|
  {
    hide Script.Valid, Script.Tabled, Script.From, Script.AfterLength, Script.HasLength, AtTable, EntryAt, LowBits, Pow2, Cpdist, Cplens, ExtraDbits, ExtraLbits;
    NotStarved(s, c, v, |v.rest|, 0, |s.items|, true);
    NeedFew(s, c, v);
    DistanceEntry(s, v.i, c.tree, v.past, v.rest, v.rest);
    var t := EntryAt(s.dt.Work(), c.tree, v.rest);
    DistanceIsHuft(s, v.i, v.past, v.rest, t);
    if (t.exop / 16) % 2 == 0 && (t.exop / 64) % 2 == 0 {
      DistanceLink(s, v.i, v.past, v.rest, t);
      DistOwes(s, DistanceTurn(c, t), Dropped(v, t.bits));
    }
  }

  /** No look-up needs more bits than those into the first table. */
  lemma NeedWithin(s: Script, c: Codes, v: View)
    requires s.Valid() && Stands(s, c, v)
    ensures c.mode.LEN? ==> c.need <= s.lt.bits
    ensures c.mode.DIST? ==> c.need <= s.dt.bits
  {
    hide Script.Valid, Script.Tabled, Script.From, Script.AfterLength, Script.HasLength, AtTable, Table.Valid, Cplens, Cplext, Cpdist, Cpdext;
    TablesValid(s);
    if c.mode.LEN? {
      FirstIsWidest(s.lt, 257, Cplens(), Cplext(), c.tree);
    } else if c.mode.DIST? {
      FirstIsWidest(s.dt, 0, Cpdist(), Cpdext(), c.tree);
    }
  }

  /** Before the last item the decoder is not at an end. */
  lemma Midway(s: Script, c: Codes, v: View)
    requires s.Valid() && Stands(s, c, v)
    ensures v.i <= |s.items| && (c.mode.WASH? || c.mode.END? || c.mode.BADCODE? ==> v.i == |s.items|)
  {
    hide Script.Valid, Script.From, InLength, InLengthExtra, InDistance, InDistanceExtra;
  }

  lemma RestIs(s: Script, c: Codes, v: View)
    requires s.Valid() && Stands(s, c, v)
    ensures c.mode.START? ==> v.i <= |s.items| && v.rest == s.From(v.i)
    ensures c.mode.WASH? || c.mode.BADCODE? ==> v.rest == s.tail
  {
    hide Script.Valid, Script.From;
  }

  /** Told to a later token there is more. */
  lemma ToldGrows(h: seq<byte>, ts: seq<Token>, i: nat, before: seq<byte>, j: nat, whole: seq<byte>)
    requires Told(h, ts, i, before) && Told(h, ts, j, whole) && i <= j
    ensures |before| <= |whole|
  {
    assert ts[..j][..i] == ts[..i];
    ToldFirst(h, ts[..j], i, before);
  }

  /** The step at hand takes no more room than what the tokens up to item j still add to the history. */
  lemma RoomWithin(s: Script, c: Codes, v: View, h: seq<byte>, hist: seq<byte>, size: nat, j: nat, whole: seq<byte>)
    requires s.Valid() && Stands(s, c, v) && Shown(s, c, v, h, hist) && InWindow(h, s.ts, size)
    requires v.i <= j && Told(h, s.ts, j, whole) && (v.i < j || j == |s.items|)
    ensures |hist| + Room(c) <= |whole|
  {
    hide Script.Valid, Script.From, InLength, InLengthExtra, InDistance, InDistanceExtra, ExpandOn, Told, Copy, InWindow;
    if c.mode.LIT? {
      LitTurns(s, c, v, h, hist, size);
      ToldGrows(h, s.ts, v.i + 1, hist + [c.lit], j, whole);
    } else if c.mode.COPY? {
      var n := s.ts[v.i].lc + MIN_MATCH;
      ToldCopy(h, s.ts, v.i, v.before, n);
      ToldGrows(h, s.ts, v.i + 1, Copy(v.before, c.dist, n), j, whole);
      CopyLengths(v.before, c.dist, n - c.len, n);
    } else {
      ToldGrows(h, s.ts, v.i, hist, j, whole);
    }
  }

  lemma {:induction false} CopyLengths(out: seq<byte>, dist: nat, m: nat, n: nat)
    requires 1 <= dist <= |out| && m <= n
    ensures |Copy(out, dist, n)| - |Copy(out, dist, m)| == n - m
    decreases n - m
  {
    if m < n {
      CopyLengths(out, dist, m, n - 1);
    }
  }

  lemma GrownRoom(a: Ring, b: Ring)
    requires Grown(a, b)
    ensures b.m + |b.hist| == a.m + |a.hist|
  {
  }

  /** The bits still to come beyond token j, or beyond the script. */
  ghost function Remaining(s: Script, j: nat, end: bool): nat
    requires s.Valid() && j <= |s.items|
  {
    if end then |s.tail| else |s.From(j)|
  }

  /** A round on the way to token j, or to the end of the script, with room for all that the tokens add to the history: it waits
      neither for input nor for output. */
  method SlowRound(d: Decoder, ghost j: nat, ghost end: bool, availOut: nat, ghost ring: Ring, ghost whole: seq<byte>) returns (left: nat)
    requires d.Valid() && d.v.i <= j <= |d.s.items| && Remaining(d.s, j, end) >= d.Gap() + 15
    requires if end then j == |d.s.items| && !d.c.mode.WASH? && !d.c.mode.BADCODE? && !d.c.mode.END? else d.v.i < j
    requires Told(d.h, d.s.ts, j, whole) && Grown(ring, RingOf(d.w)) && |ring.hist| + ring.m >= |whole|
    modifies d`c, d`v, d.r`b, d.r`k, d.r`p, d.r`extra, d.w`read, d.w`write, d.w`m, d.w`out, d.w`hist, d.w`produced, d.w.window
    ensures d.Valid() && d.Gap() == old(d.Gap()) && Grown(ring, RingOf(d.w)) && !d.c.mode.END?
    ensures d.v.i == old(d.v.i) + (if d.c.mode.START? then 1 else 0) && (d.c.mode.START? ==> !old(d.c).mode.START?)
    ensures |d.r.Ahead()| < |old(d.r.Ahead())| || (|d.r.Ahead()| == |old(d.r.Ahead())| && Rank(d.c.mode) < old(Rank(d.c.mode)))
  {
    hide *;
    Standing(d);
    Midway(d.s, d.c, d.v);
    FitsRing(d, ring, j, whole);
    ghost var before := RingOf(d.w);
    var leave;
    leave, left := d.Round(availOut, false);
    Standing(d);
    if leave.Some? && leave.value.NeedsInput? {
      Starved(d, j, end);
      assert false;
    }
    GrownMore(ring, before, RingOf(d.w));
  }

  lemma Starved(d: Decoder, j: nat, end: bool)
    requires d.Valid() && d.v.i <= j <= |d.s.items| && Remaining(d.s, j, end) >= d.Gap() + 15 && (end || d.v.i < j)
    requires d.c.mode.LEN? || d.c.mode.LENEXT? || d.c.mode.DIST? || d.c.mode.DISTEXT?
    ensures |d.r.Ahead()| + d.Begun() >= 15
  {
    hide Script.Valid, Script.From, Stands, Shown, InWindow, BitReader.Ahead, BitReader.Valid, Window.Valid;
    Standing(d);
    NotStarved(d.s, d.c, d.v, |d.r.Ahead()|, d.Gap(), j, end);
  }

  /** Rounds without the fast path, past n tokens, or to the end of the script. */
  method SlowRounds(d: Decoder, n: nat, end: bool, availOut: nat, ghost whole: seq<byte>)
    requires d.Valid() && d.c.mode.START? && d.v.i + n <= |d.s.items| && (end ==> d.v.i + n == |d.s.items|)
    requires Remaining(d.s, d.v.i + n, end) >= d.Gap() + 15
    requires Told(d.h, d.s.ts, d.v.i + n, whole) && |d.w.hist| + d.w.m >= |whole|
    modifies d`c, d`v, d.r`b, d.r`k, d.r`p, d.r`extra, d.w`read, d.w`write, d.w`m, d.w`out, d.w`hist, d.w`produced, d.w.window
    ensures d.Valid() && d.Gap() == old(d.Gap()) && Grown(old(RingOf(d.w)), RingOf(d.w))
    ensures if end then d.c.mode.WASH? || d.c.mode.BADCODE? else d.c.mode.START? && d.v.i == old(d.v.i) + n
  {
    hide *;
    var left := availOut;
    ghost var ring, j := RingOf(d.w), d.v.i + n;
    RingParts(d.w);
    d.StaysAlike();
    Standing(d);
    var done: nat := 0;
    while if end then !d.c.mode.WASH? && !d.c.mode.BADCODE? else done < n
      invariant d.Valid() && d.s.Valid() && d.r.p <= |d.r.input| && d.r.Ahead() <= d.v.rest && d.Gap() == old(d.Gap())
      invariant d.v.i == old(d.v.i) + done && done <= n && (done == n && !end ==> d.c.mode.START?)
      invariant !d.c.mode.END? && Grown(ring, RingOf(d.w))
      decreases |d.r.Ahead()|, Rank(d.c.mode)
    {
      left := SlowRound(d, j, end, left, ring, whole);
      Standing(d);
      Midway(d.s, d.c, d.v);
      if d.c.mode.START? {
        done := done + 1;
      }
    }
  }

  lemma FitsRing(d: Decoder, ring: Ring, j: nat, whole: seq<byte>)
    requires d.Valid() && d.v.i <= j && (d.v.i < j || j == |d.s.items|)
    requires Told(d.h, d.s.ts, j, whole) && Grown(ring, RingOf(d.w)) && |ring.hist| + ring.m >= |whole|
    ensures d.w.m >= Room(d.c)
  {
    hide *;
    d.Parts();
    RoomWithin(d.s, d.c, d.v, d.h, d.w.hist, d.w.window.Length, j, whole);
    GrownRoom(ring, RingOf(d.w));
    RingParts(d.w);
  }

  lemma RingParts(w: Window)
    ensures RingOf(w).hist == w.hist && RingOf(w).m == w.m
  {
  }

  lemma Standing(d: Decoder)
    requires d.Valid()
    ensures d.s.Valid() && Stands(d.s, d.c, d.v) && d.r.Ahead() <= d.v.rest && |d.v.rest| == |d.r.Ahead()| + d.Gap() && d.r.p <= |d.r.input|
  {
    hide Script.Valid, Stands, Shown, BitReader.Ahead, Window.Valid;
  }

  /** inflate_fast does what the rounds do: from the same place, with the same bits to come, the same history and no less room,
      the rounds tell as many tokens, or go on to the end, without ever waiting for input or output.  Both then have the same
      history, the same bits left and the same result, and from equal rings equal rings. */
  method FastIsSlow(d: Decoder, r: BitReader, w: Window, availOut: nat) returns (res: Fast, lost: bool)
    requires d.Valid() && d.c.mode.START? && r != d.r && w != d.w && w.window != d.w.window
    requires AtToken(d.s, d.h, d.v.i, r, w) && w.m >= 258 && r.p + 10 <= |r.input|
    requires r.Ahead() == d.r.Ahead() && w.hist == d.w.hist && d.w.m >= w.m
    modifies d`c, d`v, d.r`b, d.r`k, d.r`p, d.r`extra, d.w`read, d.w`write, d.w`m, d.w`out, d.w`hist, d.w`produced, d.w.window
    modifies r`b, r`k, r`p, r`extra, w`write, w`m, w`hist, w`produced, w.window
    ensures r.p <= |r.input| && d.r.p <= |d.r.input| && w.hist == d.w.hist && r.Ahead() == d.r.Ahead()
    ensures Grown(old(RingOf(w)), RingOf(w)) && Grown(old(RingOf(d.w)), RingOf(d.w))
    ensures old(w.window[..] == d.w.window[..] && w.read == d.w.read && w.write == d.w.write) ==>
              w.window[..] == d.w.window[..] && w.read == d.w.read && w.write == d.w.write
    ensures match res
            case FastOk => d.c.mode.START? && d.v.i > old(d.v.i)
            case FastEnd => d.c.mode.WASH?
            case FastError => d.c.mode.BADCODE?
    ensures old(r.InHand()) ==> !lost
  {
    hide Script.Valid, Script.From, Stands, Shown, InWindow, Told, BitReader.Ahead, Window.Valid, High, FromLow, ByteBits, Grown;
    ghost var i0, gap := d.v.i, d.Gap();
    StartTurns(d.s, d.c, d.v, d.h, d.w.hist);
    var n;
    ghost var i;
    res, n, lost, i := FastLoop(d.lbits, d.dbits, d.ltree, d.dtree, r, w, d.s, d.h, i0);
    GrownRoom(old(RingOf(w)), RingOf(w));
    SlowRounds(d, n, res != FastOk, availOut, w.hist);
    Standing(d);
    RestIs(d.s, d.c, d.v);
    SamePlace(d.s, d.c, d.v, d.h, d.w.hist, w.hist, d.r.Ahead(), r.Ahead(), i);
    if old(w.window[..] == d.w.window[..] && w.read == d.w.read && w.write == d.w.write) {
      GrownAlike(old(RingOf(w)), old(RingOf(d.w)), RingOf(w), RingOf(d.w));
    }
  }

  /** Before the same token, or at the end, there is one history and one rest of the bits. */
  lemma SamePlace(s: Script, c: Codes, v: View, h: seq<byte>, hist: seq<byte>, hist': seq<byte>, ahead: seq<bool>, ahead': seq<bool>, i: nat)
    requires s.Valid() && Stands(s, c, v) && Shown(s, c, v, h, hist) && Told(h, s.ts, i, hist') && i <= |s.items|
    requires ahead <= v.rest && |ahead| == |ahead'|
    requires c.mode.START? || c.mode.WASH? || c.mode.BADCODE?
    requires c.mode.START? ==> v.i == i && ahead' <= s.From(i)
    requires !c.mode.START? ==> i == |s.items| && ahead' <= s.tail
    ensures hist == hist' && ahead == ahead'
    ensures c.mode.WASH? ==> s.ending.EndOfBlock?
    ensures c.mode.BADCODE? ==> !s.ending.EndOfBlock?
  {
    hide Script.Valid, Script.From;
    assert ahead == v.rest[..|ahead|] && ahead' == v.rest[..|ahead|];
  }
}
