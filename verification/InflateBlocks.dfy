/**
 Whole blocks.  What deflate sends with _tr_flush_block, block after block, inflate turns back
 into the bytes: the type, the trees or the lengths, the body, and the next block.
 */
module InflateBlocks {
  import opened Options
  import opened Bits
  import opened BitOrder
  import opened Alphabet
  import opened HuffmanTheory
  import opened LengthRepair
  import opened Lz77Tokens
  import opened BlockTrees
  import opened StaticTrees
  import opened BlockWriter
  import opened BlockFlush
  import opened DeflateInit
  import opened HuftTheory
  import opened HuftBuilding
  import opened HuftTrees
  import opened HuftDecoding
  import opened InflateScript
  import opened InflateSteps
  import opened BitReading
  import opened Feeding
  import opened BodyRoundTrip
  import opened TreeReading
  import opened HeaderRoundTrip
  import opened Window
  import opened BitWriting
  import InflateCodes
  import TreeLengths

  // ----- what a part of inflate does to the window and the output

  /** The history, what was produced for the output, and what of that was delivered. */
  datatype Tape = Tape(hist: seq<byte>, produced: seq<byte>, out: seq<byte>)

  ghost function TapeOf(w: Window): Tape
    reads w
  {
    Tape(w.hist, w.produced, w.out)
  }

  lemma TapeIs(w: Window)
    ensures TapeOf(w) == Tape(w.hist, w.produced, w.out)
  {
  }

  /** What entered the history was produced for the output, what was delivered is accounted for, and the history is all it was
      to become; or else all output is full, something waits for it, and the history is the beginning of that.  availOut is the
      room in all output buffers at first, left that at the end. */
  ghost predicate Played(ok: bool, a: Tape, b: Tape, availOut: nat, left: nat, whole: seq<byte>) {
    && a.hist <= b.hist && b.produced == a.produced + b.hist[|a.hist|..]
    && a.out <= b.out && |b.out| + left == |a.out| + availOut
    && if ok then b.hist == whole else left == 0 && |b.out| < |b.produced| && b.hist <= whole
  }

  lemma PlayedNothing(a: Tape, availOut: nat)
    ensures Played(true, a, a, availOut, availOut, a.hist)
  {
    assert a.produced + a.hist[|a.hist|..] == a.produced;
  }

  /** One part after the other. */
  lemma PlayedMore(ok: bool, a: Tape, b: Tape, c: Tape, availOut: nat, between: nat, left: nat, whole: seq<byte>, more: seq<byte>)
    requires Played(true, a, b, availOut, between, whole) && Played(ok, b, c, between, left, more)
    ensures Played(ok, a, c, availOut, left, more)
  {
    assert c.hist[|a.hist|..] == b.hist[|a.hist|..] + c.hist[|b.hist|..];
  }

  /** Up to the output being full, it is the beginning of a longer whole, too. */
  lemma PlayedLess(a: Tape, b: Tape, availOut: nat, left: nat, whole: seq<byte>, longer: seq<byte>)
    requires Played(false, a, b, availOut, left, whole) && whole <= longer
    ensures Played(false, a, b, availOut, left, longer)
  {
  }

  // ----- the body of a block

  /** The decoder stands in the script of a block, with the bits to come those of the script. */
  ghost predicate Midway(d: InflateCodes.Decoder, f: Feed, w: Window, s: Script, a: Tape)
    reads d, f`pieces, f.r, w, w.window, d.r, d.w, d.w.window
  {
    && d.Valid() && f.Valid() && d.r == f.r && d.w == w && d.s == s && d.h == a.hist && d.told == a.produced && f.r.p <= |f.r.input|
    && d.v.rest == f.Ahead() && s.Valid() && InflateCodes.EndsWith(s.From(0), ByteBits(Joined(f.pieces)))
  }

  lemma MidwayParts(d: InflateCodes.Decoder, f: Feed, w: Window, s: Script, a: Tape)
    requires Midway(d, f, w, s, a)
    ensures d.Valid() && f.Valid() && d.r == f.r && d.w == w && d.s == s && d.h == a.hist && d.told == a.produced && f.r.p <= |f.r.input|
    ensures d.v.rest == f.Ahead() && f.r.Ahead() <= d.v.rest && d.Gap() == |ByteBits(Joined(f.pieces))|
    ensures s.Valid() && InflateCodes.EndsWith(s.From(0), ByteBits(Joined(f.pieces))) && f.r.Valid() && w.Valid()
  {
    d.Parts();
    hide InflateCodes.Decoder.Valid, Script.Valid, Script.From, BitReader.Valid, BitReader.Ahead, Window.Valid, ByteBits, Joined, InflateCodes.EndsWith;
  }

  lemma MidwayAgain(d: InflateCodes.Decoder, f: Feed, w: Window, s: Script, a: Tape)
    requires d.Valid() && f.r.Valid() && d.r == f.r && d.w == w && d.s == s && d.h == a.hist && d.told == a.produced && f.r.p <= |f.r.input|
    requires s.Valid() && InflateCodes.EndsWith(s.From(0), ByteBits(Joined(f.pieces)))
    requires f.r.Ahead() <= d.v.rest && |d.v.rest| - |f.r.Ahead()| == |ByteBits(Joined(f.pieces))|
    ensures Midway(d, f, w, s, a)
  {
    d.Ending();
    hide InflateCodes.Decoder.Valid, Script.Valid, Script.From, BitReader.Valid, BitReader.Ahead, ByteBits, Joined;
    SameEnd(s.From(0), d.v.rest, f.r.Ahead(), ByteBits(Joined(f.pieces)));
  }

  lemma SameEnd(all: seq<bool>, rest: seq<bool>, ahead: seq<bool>, more: seq<bool>)
    requires InflateCodes.EndsWith(all, rest) && InflateCodes.EndsWith(all, more) && ahead <= rest && |rest| == |ahead| + |more|
    ensures rest == ahead + more
  {
    assert rest[|ahead|..] == all[|all| - |more|..];
  }

  /** inflate_codes is called. */
  method CallCodes(d: InflateCodes.Decoder, f: Feed, w: Window, ghost s: Script, ghost a: Tape, availOut: nat, fast: bool)
    returns (leave: InflateCodes.Leave, left: nat)
    requires Midway(d, f, w, s, a) && |s.tail| >= 15 && d.Valid() && f.r.p <= |f.r.input| && (fast ==> d.Safe())
    modifies d`c, d`v, f.r`b, f.r`k, f.r`p, f.r`extra, w`read, w`write, w`m, w`out, w`hist, w`produced, w.window
    ensures Midway(d, f, w, s, a) && |w.out| + left == |old(w.out)| + availOut && old(w.out) <= w.out
    ensures d.Valid() && f.r.p <= |f.r.input| && (old(d.Safe()) ==> d.Safe()) && (leave.StreamEnd? ==> d.c.mode.END?)
    ensures leave.NeedsInput? ==> f.r.p == |f.r.input| && |f.r.Ahead()| + d.Begun() < 15 && |f.r.Ahead()| < d.Lookahead()
    ensures leave.NeedsInput? ==> d.c.mode.LEN? || d.c.mode.LENEXT? || d.c.mode.DIST? || d.c.mode.DISTEXT?
    ensures leave.NeedsOutput? ==> left == 0 && |w.out| < |w.produced|
    ensures leave.StreamEnd? || leave.DataError? ==>
              ExpandOn(a.hist, s.ts) == Some(w.hist) && f.r.p <= |f.r.input| && f.Ahead() == s.tail && (leave.StreamEnd? <==> s.ending.EndOfBlock?)
  {
    hide *;
    MidwayParts(d, f, w, s, a);
    leave, left := d.Process(availOut, fast);
    d.Parts();
    MidwayAgain(d, f, w, s, a);
    MidwayParts(d, f, w, s, a);
    if leave.StreamEnd? || leave.DataError? {
      InflateCodes.FromEnds(s, |s.items|);
      InflateCodes.TailEnds(s);
      InflateCodes.EndsFurther(s.From(0), s.From(|s.items|), s.tail);
      SameEnd(s.From(0), s.tail, f.r.Ahead(), ByteBits(Joined(f.pieces)));
      AheadIs(f);
    }
  }

  /** The caller comes back with the next piece. */
  method SupplyCodes(d: InflateCodes.Decoder, f: Feed, w: Window, ghost s: Script, ghost a: Tape)
    requires Midway(d, f, w, s, a) && f.r.p == |f.r.input| && f.pieces != []
    requires |f.r.Ahead()| < d.Lookahead() && d.lbits <= 9 && d.dbits <= 9 && |s.tail| >= 15
    requires d.c.mode.LEN? || d.c.mode.LENEXT? || d.c.mode.DIST? || d.c.mode.DISTEXT?
    modifies f`pieces, f.r`input, f.r`p
    ensures Midway(d, f, w, s, a) && |f.pieces| < |old(f.pieces)| && d.Valid() && f.r.p <= |f.r.input| && d.Safe()
  {
    hide *;
    MidwayParts(d, f, w, s, a);
    ghost var bits := ByteBits(Joined(f.pieces));
    AheadIs(f);
    var chunk := f.Next();
    assert f.r.Ahead() + bits == (f.r.Ahead() + ByteBits(chunk)) + ByteBits(Joined(f.pieces));
    d.Supply(chunk);
    d.Parts();
    InflateCodes.EndsAfter(ByteBits(chunk), ByteBits(Joined(f.pieces)), bits);
    InflateCodes.EndsFurther(s.From(0), bits, ByteBits(Joined(f.pieces)));
    MidwayAgain(d, f, w, s, a);
  }

  lemma AheadIs(f: Feed)
    requires f.r.p <= |f.r.input|
    ensures f.Ahead() == f.r.Ahead() + ByteBits(Joined(f.pieces))
  {
  }

  /** CODES: inflate_codes, until the block ends or the last output buffer is full.  Fifteen bits behind the block, the decoder
      never waits when all input has been supplied. */
  method ReadBody(f: Feed, w: Window, bl: nat, tl: seq<seq<Huft>>, bd: nat, td: seq<seq<Huft>>, availOut: nat, fast: bool, ghost s: Script)
    returns (ok: bool, left: nat)
    requires s.Valid() && s.ending.EndOfBlock? && tl == s.lt.tables && td == s.dt.tables && bl == s.lt.bits && bd == s.dt.bits
    requires f.Valid() && w.Valid() && ExpandOn(w.hist, s.ts).Some? && InWindow(w.hist, s.ts, w.window.Length)
    requires f.r.p <= |f.r.input| && f.Ahead() == s.From(0) && |s.tail| >= 15 && bl <= 9 && bd <= 9 && (fast ==> f.r.InHand())
    modifies f`pieces, f`rooms, f.r, w`read, w`write, w`m, w`out, w`hist, w`produced, w.window
    ensures f.Valid() && w.Valid() && f.r.p <= |f.r.input|
    ensures Played(ok, old(TapeOf(w)), TapeOf(w), availOut + old(f.Room()), left + f.Room(), ExpandOn(old(w.hist), s.ts).value) && (ok ==> f.Ahead() == s.tail)
    ensures ok && old(f.r.InHand()) ==> f.r.InHand()
  {
    hide *;
    ghost var a := TapeOf(w);
    TapeIs(w);
    AheadIs(f);
    InflateCodes.EndsAfter(f.r.Ahead(), ByteBits(Joined(f.pieces)), s.From(0));
    FeedValid(f);
    var d := new InflateCodes.Decoder(bl, bd, tl, td, f.r, w, s);
    MidwayAgain(d, f, w, s, a);
    d.SafeHere();
    var leave;
    leave, left := CallCodes(d, f, w, s, a, availOut, fast);
    while (leave.NeedsInput? && f.pieces != []) || (leave.NeedsOutput? && f.rooms != [])
      invariant Midway(d, f, w, s, a) && a.out <= w.out && |w.out| + left + f.Room() == |a.out| + availOut + old(f.Room())
      invariant d.Valid() && f.r.p <= |f.r.input| && (fast || old(f.r.InHand()) ==> d.Safe()) && (leave.StreamEnd? ==> d.c.mode.END?)
      invariant leave.NeedsInput? ==> f.r.p == |f.r.input| && |f.r.Ahead()| + d.Begun() < 15 && |f.r.Ahead()| < d.Lookahead()
      invariant leave.NeedsInput? ==> d.c.mode.LEN? || d.c.mode.LENEXT? || d.c.mode.DIST? || d.c.mode.DISTEXT?
      invariant leave.NeedsOutput? ==> left == 0 && |w.out| < |w.produced|
      invariant leave.StreamEnd? || leave.DataError? ==>
                  ExpandOn(a.hist, s.ts) == Some(w.hist) && f.r.p <= |f.r.input| && f.Ahead() == s.tail && (leave.StreamEnd? <==> s.ending.EndOfBlock?)
      decreases |f.pieces| + |f.rooms|
    {
      if leave.NeedsInput? {
        SupplyCodes(d, f, w, s, a);
      } else {
        left := f.NextRoom();
      }
      leave, left := CallCodes(d, f, w, s, a, left, fast);
    }
    MidwayParts(d, f, w, s, a);
    d.Parts();
    if leave.NeedsInput? {
      NoneLeft(f);
      NeverStarved(d);
      assert false;
    }
    ok := leave.StreamEnd?;
    if ok {
      d.SafeHere();
    }
    d.SoFar();
    if !ok {
      f.NoRoom();
    }
    PlayedAs(ok, a, w, availOut + old(f.Room()), left + f.Room(), ExpandOn(a.hist, s.ts).value);
  }

  lemma FeedValid(f: Feed)
    requires f.Valid()
    ensures f.r.Valid()
  {
  }

  lemma NoneLeft(f: Feed)
    requires f.pieces == []
    ensures |ByteBits(Joined(f.pieces))| == 0
  {
  }

  lemma PlayedAs(ok: bool, a: Tape, w: Window, availOut: nat, left: nat, whole: seq<byte>)
    requires a.hist <= w.hist && w.produced == a.produced + w.hist[|a.hist|..] && a.out <= w.out && |w.out| + left == |a.out| + availOut
    requires if ok then w.hist == whole else left == 0 && |w.out| < |w.produced| && w.hist <= whole
    ensures Played(ok, a, TapeOf(w), availOut, left, whole)
  {
  }

  lemma NeverStarved(d: InflateCodes.Decoder)
    requires d.Valid() && d.Gap() == 0 && |d.s.tail| >= 15
    requires d.c.mode.LEN? || d.c.mode.LENEXT? || d.c.mode.DIST? || d.c.mode.DISTEXT?
    ensures d.r.p <= |d.r.input| && |d.r.Ahead()| + d.Begun() >= 15
  {
    d.Parts();
    hide InflateCodes.Decoder.Valid, Script.Valid, InflateCodes.Stands, BitReader.Ahead;
    InflateCodes.NotStarved(d.s, d.c, d.v, |d.r.Ahead()|, 0, |d.s.items|, true);
  }

  lemma BlockScriptParts(lt: Table, dt: Table, ts: seq<Token>, tail: seq<bool>)
    requires Blocks.AllInRange(ts)
    ensures var s := BlockScript(lt, dt, ts, tail); s.lt == lt && s.dt == dt && s.ts == ts && s.tail == tail && s.ending.EndOfBlock?
  {
    hide ItemOf;
  }

  /** TABLE to CODES: a block with its own trees. */
  method ReadDynamic(f: Feed, w: Window, availOut: nat, fast: bool, ghost x: Trees, ghost k: Codes, ghost ts: seq<Token>, ghost after: seq<bool>)
    returns (ok: bool, left: nat)
    requires f.Valid() && w.Valid() && ExpandOn(w.hist, ts).Some? && InWindow(w.hist, ts, w.window.Length)
    requires x.Sized() && DynamicOk(x, k, ts) && f.r.p <= |f.r.input| && f.Ahead() == x.Block(ts) + after && |after| >= 15
    requires fast ==> f.r.InHand()
    modifies f`pieces, f`rooms, f.r, w`read, w`write, w`m, w`out, w`hist, w`produced, w.window
    ensures f.Valid() && w.Valid() && f.r.p <= |f.r.input|
    ensures Played(ok, old(TapeOf(w)), TapeOf(w), availOut + old(f.Room()), left + f.Room(), ExpandOn(old(w.hist), ts).value) && (ok ==> f.Ahead() == after)
    ensures ok && old(f.r.InHand()) ==> f.r.InHand()
  {
    hide *;
    ghost var rest := Blocks.BodyBits(ts, x.l, x.d) + after;
    DynamicParts(x, k, ts);
    BlockParts(x, ts, after);
    var rd;
    ghost var why;
    rd, why := ReadHeader(f, x, k, ts, rest);
    TablesServe(rd, why.lens, x, k, ts);
    DynamicBody(x, k, rd.lt, rd.dt, ts, after);
    BlockScriptParts(rd.lt, rd.dt, ts, after);
    ok, left := ReadBody(f, w, rd.bl, rd.tl, rd.bd, rd.td, availOut, fast, BlockScript(rd.lt, rd.dt, ts, after));
  }

  /** TABLE to DTREE, however the input comes. */
  method ReadHeader(f: Feed, ghost x: Trees, ghost k: Codes, ghost ts: seq<Token>, ghost rest: seq<bool>) returns (rd: TreeReader, ghost why: Why)
    requires f.Valid() && DynamicOk(x, k, ts) && x.Sized() && f.r.p <= |f.r.input| && f.Ahead() == x.Header() + rest && |rest| >= 7
    modifies f`pieces, f.r
    ensures f.Valid() && f.r.p <= |f.r.input| && f.Ahead() == rest && fresh(rd) && (old(f.r.InHand()) ==> f.r.InHand())
    ensures why.lens == SentLens(x) && Nl(rd.table) == x.lmax + 1 && rd.Built(why.lens)
  {
    hide *;
    FeedValid(f);
    DynamicParts(x, k, ts);
    f.r.HeldWithin();
    NotOver(f.r, 0);
    rd := new TreeReader(f.r);
    AheadIs(f);
    assert [] + f.r.Ahead() == f.r.Ahead();
    var leave;
    leave, why := rd.Process();
    f.r.InInput();
    HeaderGrows(rd.done, f.r.Ahead(), ByteBits(Joined(f.pieces)), x.Header() + rest);
    while leave.NeedsInput? && f.pieces != []
      invariant fresh(rd) && fresh(rd.blens) && rd.r == f.r && f.r.Valid() && f.r.p <= |f.r.input|
      invariant rd.done + (f.r.Ahead() + ByteBits(Joined(f.pieces))) == x.Header() + rest
      invariant old(f.r.InHand()) ==> |rd.done| + |f.r.Ahead()| < |x.Header()| + 8 + 8 * |f.r.input|
      invariant match leave
                case NeedsInput => rd.Valid() && rd.Short()
                case Stopped(h) => rd.Ends(h, why)
      decreases |f.pieces|
    {
      SupplyHeader(rd, f, x, k, rest);
      leave, why := rd.Process();
      f.r.InInput();
      HeaderGrows(rd.done, f.r.Ahead(), ByteBits(Joined(f.pieces)), x.Header() + rest);
    }
    if leave.NeedsInput? {
      NoneLeft(f);
      NeverWaits(rd, x, k, rest);
      assert false;
    }
    HeaderRead(rd, leave.h, why, ByteBits(Joined(f.pieces)), x, k, ts, rest);
    AheadIs(f);
    FeedHolds(f);
    f.r.HeldWithin();
    NotOver(f.r, |x.Header()|);
  }

  /** The caller comes back with the next piece. */
  method SupplyHeader(rd: TreeReader, f: Feed, ghost x: Trees, ghost k: Codes, ghost rest: seq<bool>)
    requires rd.r == f.r && rd.Valid() && f.r.p <= |f.r.input| && rd.Short() && f.pieces != [] && Sends(x, k) && x.Sized()
    requires rd.done + (f.r.Ahead() + ByteBits(Joined(f.pieces))) == x.Header() + rest
    modifies f`pieces, f.r`input, f.r`p
    ensures rd.Valid() && f.r.Valid() && f.r.p <= |f.r.input| && !rd.stage.CODES? && !rd.stage.BADB? && |f.pieces| < |old(f.pieces)|
    ensures rd.done + (f.r.Ahead() + ByteBits(Joined(f.pieces))) == x.Header() + rest
    ensures |rd.done| + |f.r.Ahead()| < |x.Header()| + 8 + 8 * |f.r.input|
  {
    hide *;
    ghost var done, ahead, bits := rd.done, f.r.Ahead(), ByteBits(Joined(f.pieces));
    StillReading(rd);
    AlmostRead(rd, x, k, rest, bits);
    var chunk := f.Next();
    rd.Supply(chunk);
    rd.Reads();
    ChunkBits(chunk);
    assert done + (ahead + bits) == done + ((ahead + ByteBits(chunk)) + ByteBits(Joined(f.pieces)));
  }

  /** The bits held from before this input, counted by the position in the stream. */
  lemma NotOver(r: BitReader, n: nat)
    requires r.Valid() && r.p <= |r.input| && |r.Ahead()| == r.k + 8 * (|r.input| - r.p)
    ensures r.InHand() <==> n + |r.Ahead()| - 8 * |r.input| < 8 + n
  {
  }

  lemma ChunkBits(chunk: seq<byte>)
    ensures |ByteBits(chunk)| == 8 * |chunk|
  {
  }

  /** When the reader of a header asks for more, what it has reaches less than seven bits beyond the header. */
  lemma AlmostRead(rd: TreeReader, x: Trees, k: Codes, rest: seq<bool>, more: seq<bool>)
    requires Sends(x, k) && x.Sized() && rd.Valid() && rd.r.p <= |rd.r.input| && rd.Short() && rd.done + (rd.r.Ahead() + more) == x.Header() + rest
    ensures |rd.done| + |rd.r.Ahead()| < |x.Header()| + 7
  {
    hide Sends, Trees.Header, Trees.Sized, TreeReader.Valid, TreeReader.Short, BitReader.Ahead;
    var n := |rd.done| + |rd.r.Ahead()| - |x.Header()|;
    if n >= 0 {
      assert rd.done + rd.r.Ahead() == (rd.done + (rd.r.Ahead() + more))[..|x.Header()| + n] == x.Header() + rest[..n];
      NeverWaits(rd, x, k, rest[..n]);
    }
  }

  lemma StillReading(rd: TreeReader)
    requires rd.r.p <= |rd.r.input| && rd.Short()
    ensures rd.r.p == |rd.r.input| && !rd.stage.CODES? && !rd.stage.BADB?
  {
    hide Wanting;
  }

  lemma HeaderGrows(done: seq<bool>, ahead: seq<bool>, more: seq<bool>, all: seq<bool>)
    requires (done + ahead) + more == all
    ensures done + (ahead + more) == all
  {
  }

  lemma FeedHolds(f: Feed)
    requires f.r.Valid()
    ensures f.Valid()
  {
  }

  lemma BlockParts(x: Trees, ts: seq<Token>, after: seq<bool>)
    requires x.Sized()
    ensures x.Block(ts) + after == x.Header() + (Blocks.BodyBits(ts, x.l, x.d) + after)
  {
    hide Trees.Header, Blocks.BodyBits;
    assert (x.Header() + Blocks.BodyBits(ts, x.l, x.d)) + after == x.Header() + (Blocks.BodyBits(ts, x.l, x.d) + after);
  }

  // ----- the fixed trees

  /** The tables that inflate_trees_fixed makes. */
  ghost predicate FixedTables(lt: Table, dt: Table) {
    && lt.Valid(LITERALS + 1, Cplens(), Cplext()) && dt.Valid(0, Cpdist(), Cpdext())
    && |lt.lens| == FIXED_CODES && (forall n :: 0 <= n < FIXED_CODES ==> lt.lens[n] == StaticLen(n))
    && |dt.lens| == D_CODES && (forall n :: 0 <= n < D_CODES ==> dt.lens[n] == 5)
    && CountedBelow(lt.lens, lt.f.c, lt.f.g) && CountedBelow(dt.lens, dt.f.c, dt.f.g)
  }

  /** inflate_trees_fixed; deflate's fixed trees show that the lengths are no more than complete. */
  method TreesFixed(ghost sl: Codebook.Code, ghost sd: Codebook.Code)
    returns (bl: nat, tl: seq<seq<Huft>>, bd: nat, td: seq<seq<Huft>>, ghost lt: Table, ghost dt: Table)
    requires FixedBooks(sl, sd)
    ensures FixedTables(lt, dt) && tl == lt.tables && bl == lt.bits <= 9 && td == dt.tables && bd == dt.bits <= 9
  {
    hide *;
    var ll, dl := FixedLens(), seq(30, n => 5);
    FixedLensAre();
    FixedSizes(ll, dl);
    FixedLits(sl, sd, ll);
    FixedDists(dl);
    TreeReader.BaseSizes();
    var res;
    res, bl, tl, lt := MakeTable(ll, LITERALS + 1, Cplens(), Cplext(), 7);
    res, bd, td, dt := MakeTable(dl, 0, Cpdist(), Cpdext(), 5);
    FixedServe(lt, ll, LITERALS + 1, Cplens(), Cplext(), 7, 9);
    FixedServe(dt, dl, 0, Cpdist(), Cpdext(), 5, 5);
    AreFixed(lt, dt, ll, dl);
  }

  /** The lengths that inflate_trees_fixed fills in. */
  function FixedLens(): (ll: seq<nat>)
    ensures |ll| == 288 && forall n :: 0 <= n < 288 ==> ll[n] == if n < 144 then 8 else if n < 256 then 9 else if n < 280 then 7 else 8
  {
    seq(144, n => 8) + seq(112, n => 9) + seq(24, n => 7) + seq(8, n => 8)
  }

  /** They are those of deflate. */
  lemma FixedLensAre()
    ensures |FixedLens()| == FIXED_CODES == 288 && D_CODES == 30 && forall n :: 0 <= n < FIXED_CODES ==> FixedLens()[n] == StaticLen(n)
  {
  }

  lemma FixedSizes(ll: seq<nat>, dl: seq<nat>)
    requires |ll| == FIXED_CODES && (forall n :: 0 <= n < FIXED_CODES ==> ll[n] == StaticLen(n))
    requires |dl| == D_CODES && (forall n :: 0 <= n < D_CODES ==> dl[n] == 5)
    ensures 1 <= |ll| <= N_MAX && (forall i :: 0 <= i < |ll| ==> 1 <= ll[i] <= 9 <= BMAX)
    ensures 1 <= |dl| <= 30 <= N_MAX && (forall i :: 0 <= i < |dl| ==> 1 <= dl[i] <= 5 <= BMAX)
    ensures |ll| - (LITERALS + 1) <= |Cplens()| && |ll| - (LITERALS + 1) <= |Cplext()| && |dl| <= |Cpdist()| && |dl| <= |Cpdext()|
  {
  }

  lemma FixedLits(sl: Codebook.Code, sd: Codebook.Code, ll: seq<nat>)
    requires FixedBooks(sl, sd) && |ll| == FIXED_CODES && (forall n :: 0 <= n < FIXED_CODES ==> ll[n] == StaticLen(n))
    ensures Symbols(ll) != {} && Kraft(Symbols(ll), ll, BMAX) <= Pow2(BMAX)
  {
    hide Ready, StaticLen, Kraft, Pow2;
    var c :| Ready(Upto(FIXED_CODES), FIXED_CODES, 9, sl.code, sl.len, c);
    assert sl.len == ll;
    LitSymbols(ll);
    ReadyTreeOk(Upto(FIXED_CODES), FIXED_CODES, 9, sl.code, sl.len, c, ll);
  }

  lemma LitSymbols(ll: seq<nat>)
    requires |ll| == FIXED_CODES && (forall n :: 0 <= n < FIXED_CODES ==> ll[n] == StaticLen(n))
    ensures Symbols(ll) == Upto(FIXED_CODES)
  {
  }

  /** Thirty codes of five bits leave two unused. */
  lemma FixedDists(dl: seq<nat>)
    requires |dl| == D_CODES && (forall n :: 0 <= n < D_CODES ==> dl[n] == 5)
    ensures Symbols(dl) != {} && Kraft(Symbols(dl), dl, BMAX) <= Pow2(BMAX)
  {
    var a := Symbols(dl);
    assert 0 in a;
    var c := seq(6, k requires 0 <= k < 6 => CountAt(a, dl, k));
    forall k | 0 <= k < 5
      ensures c[k] == 0
    {
      TreeLengths.NoneOfLength(a, dl, k);
    }
    KraftByCounts(a, dl, c, 5);
    KraftScaled(a, dl, 5, BMAX);
    SymbolsFew(dl, |dl|);
    OnlyFive(c);
    Pow2Values();
    assert Pow2(10) == 1024 && Pow2(15) == 32 * Pow2(10);
  }

  lemma OnlyFive(c: seq<nat>)
    requires |c| == 6 && forall k :: 0 <= k < 5 ==> c[k] == 0
    ensures KraftTo(c, 5, 6) == c[5] == Total(c, 6)
  {
    OnlyMax(c, 5, 5);
    NoTotal(c, 5);
    assert Pow2(0) == 1;
  }

  lemma {:induction false} NoTotal(c: seq<nat>, n: nat)
    requires n <= |c| && forall k :: 0 <= k < n ==> c[k] == 0
    ensures Total(c, n) == 0
  {
    if n > 0 {
      NoTotal(c, n - 1);
    }
  }

  lemma FixedServe(t: Table, lens: seq<nat>, s: nat, d: seq<nat>, e: seq<nat>, m: nat, most: nat)
    requires Made(t, lens, s, d, e, m) && (forall i :: 0 <= i < |lens| ==> lens[i] <= most) && ((m == 7 && most == 9) || (m == 5 && most == 5))
    ensures t.lens == lens && t.Valid(s, d, e) && CountedBelow(t.lens, t.f.c, t.f.g) && t.bits <= most
  {
    hide Tabled, CountedBelow, Counts, Table.Valid, Kraft, Symbols, Pow2;
    LongestBelow(lens, m, t.bits, t.f.g, most);
    CallersTablesWork(t, m, s, d, e);
  }

  lemma LongestBelow(lens: seq<nat>, m: nat, bits: nat, g: nat, most: nat)
    requires Sized(lens, m, bits, g) && forall i :: 0 <= i < |lens| ==> lens[i] <= most
    ensures bits <= g <= most
  {
  }

  lemma AreFixed(lt: Table, dt: Table, ll: seq<nat>, dl: seq<nat>)
    requires lt.lens == ll && lt.Valid(LITERALS + 1, Cplens(), Cplext()) && CountedBelow(lt.lens, lt.f.c, lt.f.g)
    requires dt.lens == dl && dt.Valid(0, Cpdist(), Cpdext()) && CountedBelow(dt.lens, dt.f.c, dt.f.g)
    requires |ll| == FIXED_CODES && (forall n :: 0 <= n < FIXED_CODES ==> ll[n] == StaticLen(n))
    requires |dl| == D_CODES && (forall n :: 0 <= n < D_CODES ==> dl[n] == 5)
    ensures FixedTables(lt, dt)
  {
    hide Table.Valid, CountedBelow, StaticLen, Cplens, Cplext, Cpdist, Cpdext;
  }

  /** CODES with the fixed trees. */
  method ReadFixed(f: Feed, w: Window, availOut: nat, fast: bool, ghost sl: Codebook.Code, ghost sd: Codebook.Code, ghost ts: seq<Token>,
                   ghost after: seq<bool>) returns (ok: bool, left: nat)
    requires f.Valid() && w.Valid() && ExpandOn(w.hist, ts).Some? && InWindow(w.hist, ts, w.window.Length)
    requires FixedBooks(sl, sd) && Blocks.AllInRange(ts) && |after| >= 15 && (fast ==> f.r.InHand())
    requires f.r.p <= |f.r.input| && f.Ahead() == Blocks.BodyBits(ts, sl, sd) + after
    modifies f`pieces, f`rooms, f.r, w`read, w`write, w`m, w`out, w`hist, w`produced, w.window
    ensures f.Valid() && w.Valid() && f.r.p <= |f.r.input|
    ensures Played(ok, old(TapeOf(w)), TapeOf(w), availOut + old(f.Room()), left + f.Room(), ExpandOn(old(w.hist), ts).value) && (ok ==> f.Ahead() == after)
    ensures ok && old(f.r.InHand()) ==> f.r.InHand()
  {
    hide *;
    var bl, tl, bd, td;
    ghost var lt, dt;
    bl, tl, bd, td, lt, dt := TreesFixed(sl, sd);
    FixedBody(sl, sd, lt, dt, ts, after);
    BlockScriptParts(lt, dt, ts, after);
    ok, left := ReadBody(f, w, bl, tl, bd, td, availOut, fast, BlockScript(lt, dt, ts, after));
  }

  lemma FixedBody(sl: Codebook.Code, sd: Codebook.Code, lt: Table, dt: Table, ts: seq<Token>, after: seq<bool>)
    requires FixedBooks(sl, sd) && FixedTables(lt, dt) && Blocks.AllInRange(ts)
    ensures var s := BlockScript(lt, dt, ts, after); s.Valid() && s.From(0) == Blocks.BodyBits(ts, sl, sd) + after
  {
    hide Ready, Table.Valid, CountedBelow, StaticLen, Reversed, Blocks.BodyBits, Blocks.AllInRange, BlockScript, Cplens, Cplext, Cpdist, Cpdext,
      Script.Valid, Script.From;
    var c :| Ready(Upto(FIXED_CODES), FIXED_CODES, 9, sl.code, sl.len, c);
    assert sl.len == lt.lens && sd.len == dt.lens;
    assert sl == Codebook.Code(sl.code, sl.len) && sd == Codebook.Code(sd.code, sd.len);
    StaticBody(sl.code, sl.len, c, sd.code, sd.len, lt, dt, ts, after);
  }

  // ----- stored blocks

  /** One memcpy of STORED: t bytes from the input to the window. */
  method CopyChunk(r: BitReader, w: Window, t: nat)
    requires r.Valid() && r.b == 0 && r.k == 0 && r.extra == 0 && w.Valid() && r.p + t <= |r.input| && t <= w.m
    modifies r`p, w`write, w`m, w`hist, w`produced, w.window
    ensures r.Valid() && w.Valid() && r.p == old(r.p) + t && w.hist == old(w.hist) + r.input[old(r.p)..r.p]
    ensures w.produced == old(w.produced) + r.input[old(r.p)..r.p]
    ensures r.k == 0 && r.b == 0 && r.extra == 0 && r.p <= |r.input|
    ensures 8 * t <= |old(r.Ahead())| && r.Ahead() == old(r.Ahead())[8 * t..]
    ensures ByteBits(r.input[old(r.p)..r.p]) == old(r.Ahead())[..8 * t]
  {
    hide *;
    var i: nat := 0;
    assert w.hist + r.input[r.p..r.p] == w.hist && w.produced + r.input[r.p..r.p] == w.produced;
    while i < t
      invariant i <= t && r.p == old(r.p) && r.p + t <= |r.input|
      invariant w.Valid() && w.m == old(w.m) - i && w.hist == old(w.hist) + r.input[r.p..r.p + i]
      invariant w.produced == old(w.produced) + r.input[r.p..r.p + i]
    {
      w.OutByte(r.input[r.p + i]);
      assert r.input[r.p..r.p + i + 1] == r.input[r.p..r.p + i] + [r.input[r.p + i]];
      i := i + 1;
    }
    r.Skip(t);
  }

  /** As many bytes as are to come, as are at hand, and as there is room for. */
  method CopySome(f: Feed, w: Window, todo: nat, ghost rest: seq<byte>, ghost after: seq<bool>) returns (t: nat)
    requires f.Valid() && f.r.b == 0 && f.r.k == 0 && f.r.extra == 0 && w.Valid() && w.m > 0 && f.r.p < |f.r.input|
    requires |rest| == todo > 0 && f.Ahead() == ByteBits(rest) + after
    modifies f.r`p, w`write, w`m, w`hist, w`produced, w.window
    ensures 1 <= t <= todo && w.hist == old(w.hist) + rest[..t] && w.produced == old(w.produced) + rest[..t]
    ensures f.Valid() && f.r.b == 0 && f.r.k == 0 && f.r.extra == 0 && w.Valid() && f.r.p <= |f.r.input|
    ensures f.Ahead() == ByteBits(rest[t..]) + after
  {
    hide *;
    FeedValid(f);
    t := if todo < |f.r.input| - f.r.p then todo else |f.r.input| - f.r.p;
    t := if t < w.m then t else w.m;
    ghost var ahead, p0 := f.Ahead(), f.r.p;
    Skippable(f, t);
    CopyChunk(f.r, w, t);
    FeedHolds(f);
    AheadIs(f);
    ChunkIs(rest, after, ahead, f.r.input[p0..f.r.p], t);
  }

  lemma NextChunk(data: seq<byte>, rest: seq<byte>, todo0: nat, todo: nat, t: nat, hist: seq<byte>, produced: seq<byte>)
    requires |rest| == todo <= todo0 == |data| && rest == data[todo0 - todo..] && t <= todo
    ensures rest[t..] == data[todo0 - (todo - t)..]
    ensures (hist + data[..todo0 - todo]) + rest[..t] == hist + data[..todo0 - (todo - t)]
    ensures (produced + data[..todo0 - todo]) + rest[..t] == produced + data[..todo0 - (todo - t)]
  {
    assert data[..todo0 - todo] + rest[..t] == data[..todo0 - (todo - t)];
  }

  /** STORED: the bytes of the block, as the window has room for them and as they come. */
  method CopyStored(f: Feed, w: Window, todo0: nat, availOut: nat, ghost data: seq<byte>, ghost after: seq<bool>) returns (ok: bool, left: nat)
    requires f.Valid() && f.r.b == 0 && f.r.k == 0 && f.r.extra == 0 && w.Valid() && |data| == todo0
    requires f.r.p <= |f.r.input| && f.Ahead() == ByteBits(data) + after
    modifies f`pieces, f`rooms, f.r`input, f.r`p, w`read, w`write, w`m, w`out, w`hist, w`produced, w.window
    ensures f.Valid() && w.Valid() && f.r.p <= |f.r.input| && f.r.InHand()
    ensures Played(ok, old(TapeOf(w)), TapeOf(w), availOut + old(f.Room()), left + f.Room(), old(w.hist) + data) && (ok ==> f.Ahead() == after)
  {
    hide *;
    ghost var a := TapeOf(w);
    TapeIs(w);
    var todo := todo0;
    left := availOut;
    ghost var rest := data;
    assert w.hist + [] == w.hist && w.produced + [] == w.produced;
    while todo > 0
      invariant f.Valid() && f.r.b == 0 && f.r.k == 0 && f.r.extra == 0 && w.Valid() && f.r.p <= |f.r.input|
      invariant |rest| == todo <= todo0 && f.Ahead() == ByteBits(rest) + after && rest == data[todo0 - todo..]
      invariant w.hist == old(w.hist) + data[..todo0 - todo] && w.produced == old(w.produced) + data[..todo0 - todo]
      invariant |w.out| + left + f.Room() == |old(w.out)| + availOut + old(f.Room()) && old(w.out) <= w.out
      decreases todo, |f.pieces| + |f.rooms|
    {
      if f.r.p == |f.r.input| {
        var more := f.More();
        if !more {
          InputLeft(f, rest, after);
          assert false;
        }
        continue;
      }
      ok, left := w.NeedOut(left);
      if !ok && f.rooms != [] {
        left := f.NextRoom();
        continue;
      }
      if !ok {
        f.NoRoom();
        StoredPlayed(ok, a, w, availOut + old(f.Room()), left + f.Room(), data, todo0 - todo);
        NoneHeld(f);
        return;
      }
      var t := CopySome(f, w, todo, rest, after);
      NextChunk(data, rest, todo0, todo, t, old(w.hist), old(w.produced));
      rest := rest[t..];
      todo := todo - t;
    }
    assert ByteBits(rest) + after == after by { NoBytesLeft(rest); }
    assert data[..todo0] == data;
    ok := true;
    NoneHeld(f);
    StoredPlayed(ok, a, w, availOut + old(f.Room()), left + f.Room(), data, todo0);
  }

  lemma NoneHeld(f: Feed)
    requires f.r.k == 0
    ensures f.r.InHand()
  {
  }

  /** The next t bytes at hand are the next to come. */
  lemma Skippable(f: Feed, t: nat)
    requires f.Valid() && f.r.p + t <= |f.r.input|
    ensures 8 * t <= |f.r.Ahead()| && 8 * t <= |f.Ahead()| && f.r.Ahead()[..8 * t] == f.Ahead()[..8 * t]
    ensures f.r.Ahead()[8 * t..] + ByteBits(Joined(f.pieces)) == f.Ahead()[8 * t..]
  {
    f.r.HeldWithin();
    hide ByteBits, Joined, LowBits;
    f.Front(8 * t);
  }

  lemma StoredPlayed(ok: bool, a: Tape, w: Window, availOut: nat, left: nat, data: seq<byte>, n: nat)
    requires n <= |data| && w.hist == a.hist + data[..n] && w.produced == a.produced + data[..n]
    requires a.out <= w.out && |w.out| + left == |a.out| + availOut
    requires if ok then n == |data| else left == 0 && |w.out| < |w.produced|
    ensures Played(ok, a, TapeOf(w), availOut, left, a.hist + data)
  {
    assert w.hist[|a.hist|..] == data[..n];
    assert w.hist == (a.hist + data)[..|a.hist| + n];
  }

  lemma NoBytesLeft(s: seq<byte>)
    ensures |s| == 0 ==> ByteBits(s) == []
  {
  }

  /** There is input as long as bytes are to come. */
  lemma InputLeft(f: Feed, rest: seq<byte>, after: seq<bool>)
    requires f.Valid() && f.r.k == 0 && f.r.p == |f.r.input| && f.pieces == [] && f.Ahead() == ByteBits(rest) + after
    ensures |rest| == 0
  {
    f.AllSupplied();
    f.r.HeldWithin();
    ByteBitsLength(rest);
  }

  /** The bytes copied are the next of the block. */
  lemma ChunkIs(rest: seq<byte>, after: seq<bool>, ahead: seq<bool>, chunk: seq<byte>, t: nat)
    requires ahead == ByteBits(rest) + after && t <= |rest| && |chunk| == t && 8 * t <= |ahead| && ByteBits(chunk) == ahead[..8 * t]
    ensures chunk == rest[..t] && ahead[8 * t..] == ByteBits(rest[t..]) + after
  {
    hide *;
    ByteBitsSplit(rest, t);
    ByteBitsLength(rest[..t]);
    var x, y := ByteBits(rest[..t]), ByteBits(rest[t..]);
    assert (x + y) + after == x + (y + after);
    Cut(x, y + after, 8 * t);
    SameBytes(chunk, rest[..t]);
  }

  lemma Cut(x: seq<bool>, y: seq<bool>, n: nat)
    requires |x| == n
    ensures (x + y)[..n] == x && (x + y)[n..] == y
  {
  }

  lemma ByteBitsLength(s: seq<byte>)
    ensures |ByteBits(s)| == 8 * |s|
  {
  }

  /** Bytes with the same bits are the same. */
  lemma {:induction false} SameBytes(s: seq<byte>, u: seq<byte>)
    requires ByteBits(s) == ByteBits(u)
    ensures s == u
    decreases |s|
  {
    ByteBitsLength(s);
    ByteBitsLength(u);
    if s != [] {
      ByteBitsSplit(s, 1);
      ByteBitsSplit(u, 1);
      OneByte(s[0]);
      OneByte(u[0]);
      hide ByteBits, LowBits;
      assert s[..1] == [s[0]] && u[..1] == [u[0]];
      Prefixes(LowBits(s[0], 8), ByteBits(s[1..]), LowBits(u[0], 8), ByteBits(u[1..]));
      ByteValue(s[0], u[0]);
      SameBytes(s[1..], u[1..]);
      assert s == [s[0]] + s[1..] && u == [u[0]] + u[1..];
    }
  }

  lemma ByteValue(a: byte, b: byte)
    requires LowBits(a, 8) == LowBits(b, 8)
    ensures a == b
  {
    Pow2Values();
    FromLowBits(a, 8);
    FromLowBits(b, 8);
  }

  /** The length of a stored block and its complement, as one word. */
  lemma StoredWord(n: nat, rest: seq<bool>)
    requires n < 0x10000
    ensures var bits := (LowBits(n, 16) + LowBits(0xffff - n, 16)) + rest;
            |bits| >= 32 && bits[32..] == rest && FromLow(bits[..32]) == n + (0xffff - n) * 0x10000
  {
    Pow2Values();
    assert Pow2(16) == 0x10000;
    FromLowBits(n, 16);
    FromLowBits(0xffff - n, 16);
    FromLowConcat(LowBits(n, 16), LowBits(0xffff - n, 16));
    hide LowBits, FromLow;
    var head := LowBits(n, 16) + LowBits(0xffff - n, 16);
    assert (head + rest)[..32] == head;
  }

  /** TYPE and LENS to STORED: to the next byte boundary, the length and its complement, the bytes. */
  method ReadStored(f: Feed, w: Window, availOut: nat, ghost pad: seq<bool>, ghost data: seq<byte>, ghost after: seq<bool>)
    returns (ok: bool, left: nat)
    requires f.Valid() && w.Valid() && |pad| == f.r.k % 8 && |data| < 0x10000
    requires f.r.p <= |f.r.input| && f.Ahead() == pad + (StoredBits(data) + after)
    modifies f`pieces, f`rooms, f.r, w`read, w`write, w`m, w`out, w`hist, w`produced, w.window
    ensures f.Valid() && w.Valid() && f.r.p <= |f.r.input|
    ensures Played(ok, old(TapeOf(w)), TapeOf(w), availOut + old(f.Room()), left + f.Room(), old(w.hist) + data) && (ok ==> f.Ahead() == after && f.r.InHand())
  {
    hide *;
    f.Dump(f.r.k % 8);
    Cut(pad, StoredBits(data) + after, |pad|);
    StoredParts(data, after);
    StoredWord(|data|, ByteBits(data) + after);
    var got := f.NeedWord();
    if !got {
      assert false;
    }
    f.PeekIs(32);
    var word := f.r.Peek(32);
    Complement(word, |data|);
    if 0xffff - word / 0x10000 % 0x10000 != word % 0x10000 {
      assert false;
    }
    FeedValid(f);
    f.r.PeekIs(32);
    f.Front(32);
    f.r.DropWord();
    f.r.InInput();
    FeedHolds(f);
    AheadIs(f);
    ok, left := CopyStored(f, w, word % 0x10000, availOut, data, after);
  }

  lemma StoredParts(data: seq<byte>, after: seq<bool>)
    requires |data| < 0x10000
    ensures StoredBits(data) + after == (LowBits(|data|, 16) + LowBits(0xffff - |data|, 16)) + (ByteBits(data) + after)
  {
    hide LowBits, ByteBits;
    var x, y := LowBits(|data|, 16) + LowBits(0xffff - |data|, 16), ByteBits(data);
    assert (x + y) + after == x + (y + after);
  }

  /** "invalid stored block lengths" is for other words than this. */
  lemma Complement(word: nat, n: nat)
    requires n < 0x10000 && word == n + (0xffff - n) * 0x10000
    ensures word % 0x10000 == n && 0xffff - word / 0x10000 % 0x10000 == n
  {
  }

  // ----- one block after the other

  /** A block as _tr_flush_block sends it: its kind, whether it is the last, its bytes if it is stored, its tokens, its trees. */
  datatype Part = Part(kind: Kind, eof: bool, data: Option<seq<byte>>, ts: seq<Token>, x: Trees, k: Codes)

  /** The block can be sent.  The length of a stored block has sixteen bits. */
  ghost predicate Fine(p: Part) {
    match p.kind
    case Stored => p.data.Some? && |p.data.value| < 0x10000
    case Static => Blocks.AllInRange(p.ts)
    case Dynamic => p.x.Sized() && DynamicOk(p.x, p.k, p.ts)
  }

  function TypeOf(kind: Kind): nat {
    match kind
    case Stored => STORED_BLOCK
    case Static => STATIC_TREES
    case Dynamic => DYN_TREES
  }

  /** What follows the type. */
  ghost function BodyOf(p: Part, before: seq<bool>, sl: Codebook.Code, sd: Codebook.Code): seq<bool>
    requires Fine(p)
  {
    match p.kind
    case Stored => Padding(before + TypeBits(TypeOf(p.kind), p.eof)) + StoredBits(p.data.value)
    case Static => Blocks.BodyBits(p.ts, sl, sd)
    case Dynamic => p.x.Block(p.ts)
  }

  /** What a block adds to the bits sent before. */
  ghost function PartBits(p: Part, before: seq<bool>, sl: Codebook.Code, sd: Codebook.Code): seq<bool>
    requires Fine(p)
  {
    TypeBits(TypeOf(p.kind), p.eof) + BodyOf(p, before, sl, sd)
  }

  lemma SentPart(p: Part, before: seq<bool>, sl: Codebook.Code, sd: Codebook.Code)
    requires Fine(p)
    ensures BlockSent(p.kind, before, p.data, p.eof, p.ts, sl, sd, p.x) == before + PartBits(p, before, sl, sd)
  {
    hide StoredBits, Blocks.BodyBits, Trees.Block, DynamicOk, Trees.Sized, Padding;
    var t := TypeBits(TypeOf(p.kind), p.eof);
    match p.kind
    case Stored =>
      var x, y := Padding(before + t), StoredBits(p.data.value);
      assert ((before + t) + x) + y == before + (t + (x + y));
    case Static =>
      assert (before + t) + Blocks.BodyBits(p.ts, sl, sd) == before + (t + Blocks.BodyBits(p.ts, sl, sd));
    case Dynamic =>
      assert (before + t) + p.x.Block(p.ts) == before + (t + p.x.Block(p.ts));
  }

  /** The bytes of a block, after those before it. */
  ghost function Then(h: seq<byte>, p: Part): Option<seq<byte>>
    requires Fine(p)
  {
    if p.kind.Stored? then Some(h + p.data.value) else ExpandOn(h, p.ts)
  }

  /** No token of the block reaches beyond the history or the window. */
  ghost predicate Within(p: Part, h: seq<byte>, size: nat) {
    p.kind.Stored? || InWindow(h, p.ts, size)
  }

  lemma TypeRead(kind: Kind, eof: bool, rest: seq<bool>)
    ensures var bits := TypeBits(TypeOf(kind), eof) + rest;
            && |bits| >= 3 && bits[3..] == rest && FromLow(bits[..3]) == 2 * TypeOf(kind) + (if eof then 1 else 0)
            && TypeBits(TypeOf(kind), eof) == bits[..3]
  {
    assert Pow2(3) == 8;
    FromLowBits(2 * TypeOf(kind) + (if eof then 1 else 0), 3);
    hide LowBits, FromLow;
    Cut(TypeBits(TypeOf(kind), eof), rest, 3);
  }

  /** The bits that have been read to the next byte boundary of the stream. */
  lemma PadIs(before: seq<bool>, t: seq<bool>, k: nat, left: nat)
    requires |t| == 3 && k <= left && (left - k) % 8 == 0 && (|before| + 3 + left) % 8 == 0
    ensures |Padding(before + t)| == k % 8
  {
  }

  /** TYPE, and then the block. */
  method ReadBlock(f: Feed, w: Window, availOut: nat, fast: bool, ghost p: Part, ghost before: seq<bool>, ghost after: seq<bool>,
                   ghost sl: Codebook.Code, ghost sd: Codebook.Code) returns (ok: bool, last: bool, left: nat)
    requires f.Valid() && w.Valid() && Fine(p) && FixedBooks(sl, sd) && Then(w.hist, p).Some? && Within(p, w.hist, w.window.Length)
    requires f.r.p <= |f.r.input| && f.Ahead() == PartBits(p, before, sl, sd) + after && |after| >= 15 && (|before| + |f.Ahead()|) % 8 == 0
    requires fast ==> f.r.InHand()
    modifies f`pieces, f`rooms, f.r, w`read, w`write, w`m, w`out, w`hist, w`produced, w.window
    ensures f.Valid() && w.Valid() && f.r.p <= |f.r.input|
    ensures Played(ok, old(TapeOf(w)), TapeOf(w), availOut + old(f.Room()), left + f.Room(), Then(old(w.hist), p).value) && (ok ==> last == p.eof && f.Ahead() == after)
    ensures ok && old(f.r.InHand()) ==> f.r.InHand()
  {
    hide BitReader.Valid, BitReader.Ahead, Feed.Valid, Feed.Ahead, Window.Valid, InWindow, DynamicOk, Trees.Sized, Trees.Block, Blocks.BodyBits,
      Blocks.AllInRange, StoredBits, Padding, TypeBits, FixedBooks, FromLow, ExpandOn, Played, BitReader.InHand;
    ghost var body := BodyOf(p, before, sl, sd);
    PartIs(p, before, after, sl, sd);
    TypeRead(p.kind, p.eof, body + after);
    var got := f.Need(3);
    if !got {
      assert false;
    }
    f.PeekIs(3);
    var t := f.r.Peek(3);
    last := t % 2 == 1;
    f.Dump(3);
    if t / 2 == 0 {
      HeldBits(f);
      PadIs(before, TypeBits(TypeOf(p.kind), p.eof), f.r.k, |f.Ahead()|);
      ghost var pad := Padding(before + TypeBits(TypeOf(p.kind), p.eof));
      assert (pad + StoredBits(p.data.value)) + after == pad + (StoredBits(p.data.value) + after);
      ok, left := ReadStored(f, w, availOut, pad, p.data.value, after);
    } else if t / 2 == 1 {
      ok, left := ReadFixed(f, w, availOut, fast, sl, sd, p.ts, after);
    } else if t / 2 == 2 {
      ok, left := ReadDynamic(f, w, availOut, fast, p.x, p.k, p.ts, after);
    } else {
      assert false;
    }
  }

  lemma HeldBits(f: Feed)
    requires f.Valid()
    ensures f.r.p <= |f.r.input| && f.r.k <= |f.Ahead()| && (|f.Ahead()| - f.r.k) % 8 == 0
  {
    f.r.HeldWithin();
    ByteBitsLength(Joined(f.pieces));
    hide ByteBits, LowBits, Joined;
  }

  lemma PartIs(p: Part, before: seq<bool>, after: seq<bool>, sl: Codebook.Code, sd: Codebook.Code)
    requires Fine(p)
    ensures PartBits(p, before, sl, sd) + after == TypeBits(TypeOf(p.kind), p.eof) + (BodyOf(p, before, sl, sd) + after)
    ensures |TypeBits(TypeOf(p.kind), p.eof)| == 3
  {
    hide StoredBits, Blocks.BodyBits, Trees.Block, DynamicOk, Trees.Sized, Padding, LowBits;
    var t, b := TypeBits(TypeOf(p.kind), p.eof), BodyOf(p, before, sl, sd);
    assert (t + b) + after == t + (b + after);
  }

  // ----- the whole stream

  ghost predicate AllFine(ps: seq<Part>) {
    forall i :: 0 <= i < |ps| ==> Fine(ps[i])
  }

  /** All blocks, as they are sent. */
  ghost function Written(ps: seq<Part>, sl: Codebook.Code, sd: Codebook.Code): seq<bool>
    requires AllFine(ps)
  {
    if ps == [] then []
    else
      var p := ps[|ps| - 1];
      BlockSent(p.kind, Written(ps[..|ps| - 1], sl, sd), p.data, p.eof, p.ts, sl, sd, p.x)
  }

  /** The bytes of all blocks, after those of the history. */
  ghost function Story(h: seq<byte>, ps: seq<Part>): Option<seq<byte>>
    requires AllFine(ps)
  {
    if ps == [] then Some(h)
    else
      var g := Story(h, ps[..|ps| - 1]);
      if g.None? then None else Then(g.value, ps[|ps| - 1])
  }

  /** Every block's tokens stay within the window and what came before. */
  ghost predicate AllWithin(h: seq<byte>, ps: seq<Part>, size: nat)
    requires AllFine(ps)
  {
    forall i :: 0 <= i < |ps| ==> Story(h, ps[..i]).Some? && Within(ps[i], Story(h, ps[..i]).value, size)
  }

  /** Only the last block says that it is. */
  ghost predicate EndsOnce(ps: seq<Part>) {
    ps != [] && forall i :: 0 <= i < |ps| ==> (ps[i].eof <==> i == |ps| - 1)
  }

  lemma WrittenNext(ps: seq<Part>, i: nat, sl: Codebook.Code, sd: Codebook.Code)
    requires AllFine(ps) && i < |ps|
    ensures Written(ps[..i + 1], sl, sd) == Written(ps[..i], sl, sd) + PartBits(ps[i], Written(ps[..i], sl, sd), sl, sd)
  {
    hide Fine, PartBits, BlockSent;
    assert ps[..i + 1][..i] == ps[..i] && ps[..i + 1][i] == ps[i];
    SentPart(ps[i], Written(ps[..i], sl, sd), sl, sd);
  }

  /** The first blocks come first. */
  lemma {:induction false} WrittenFirst(ps: seq<Part>, i: nat, sl: Codebook.Code, sd: Codebook.Code) returns (more: seq<bool>)
    requires AllFine(ps) && i <= |ps|
    ensures Written(ps, sl, sd) == Written(ps[..i], sl, sd) + more && (i == |ps| ==> more == [])
    decreases |ps| - i
  {
    hide Fine, PartBits, Written;
    if i == |ps| {
      more := [];
      assert ps[..i] == ps;
    } else {
      more := WrittenFirst(ps, i + 1, sl, sd);
      WrittenNext(ps, i, sl, sd);
      var a, b := Written(ps[..i], sl, sd), PartBits(ps[i], Written(ps[..i], sl, sd), sl, sd);
      assert (a + b) + more == a + (b + more);
      more := b + more;
    }
  }

  lemma StoryNext(h: seq<byte>, ps: seq<Part>, i: nat, g: seq<byte>)
    requires AllFine(ps) && i < |ps| && Story(h, ps[..i]) == Some(g)
    ensures Story(h, ps[..i + 1]) == Then(g, ps[i])
  {
    hide Fine, Then;
    assert ps[..i + 1][..i] == ps[..i] && ps[..i + 1][i] == ps[i];
  }

  /** The first blocks tell the beginning. */
  lemma {:induction false} StoryGrows(h: seq<byte>, ps: seq<Part>, i: nat)
    requires AllFine(ps) && i <= |ps| && Story(h, ps).Some?
    ensures Story(h, ps[..i]).Some? && Story(h, ps[..i]).value <= Story(h, ps).value
    decreases |ps| - i
  {
    hide Fine, Then, Story;
    if i == |ps| {
      assert ps[..i] == ps;
    } else {
      StoryGrows(h, ps, i + 1);
      StoryBefore(h, ps, i);
      ThenGrows(Story(h, ps[..i]).value, ps[i]);
    }
  }

  lemma StoryBefore(h: seq<byte>, ps: seq<Part>, i: nat)
    requires AllFine(ps) && i < |ps| && Story(h, ps[..i + 1]).Some?
    ensures Story(h, ps[..i]).Some? && Then(Story(h, ps[..i]).value, ps[i]) == Story(h, ps[..i + 1])
  {
    hide Fine, Then;
    assert ps[..i + 1][..i] == ps[..i] && ps[..i + 1][i] == ps[i];
  }

  lemma ThenGrows(h: seq<byte>, p: Part)
    requires Fine(p) && Then(h, p).Some?
    ensures h <= Then(h, p).value
  {
    hide ExpandOn, DynamicOk, Trees.Sized, Blocks.AllInRange;
    if !p.kind.Stored? {
      ExpandGrows(h, p.ts);
    }
  }

  lemma StreamStarts(h: seq<byte>, ps: seq<Part>, sl: Codebook.Code, sd: Codebook.Code)
    requires AllFine(ps) && EndsOnce(ps)
    ensures |ps| > 0 && Written(ps[..0], sl, sd) == [] && Story(h, ps[..0]) == Some(h)
  {
    hide Fine;
    assert ps[..0] == [];
  }

  lemma Aligned(before: seq<bool>, part: seq<bool>, more: seq<bool>, behind: seq<bool>, ahead: seq<bool>)
    requires before + ahead == ((before + part) + more) + behind
    ensures ahead == part + (more + behind)
  {
    assert ((before + part) + more) + behind == before + (part + (more + behind));
    SameRest(before, ahead, part + (more + behind));
  }

  lemma SameRest(x: seq<bool>, a: seq<bool>, b: seq<bool>)
    requires x + a == x + b
    ensures a == b
  {
    Cut(x, a, |x|);
    Cut(x, b, |x|);
  }

  lemma PartReady(h: seq<byte>, ps: seq<Part>, i: nat, g: seq<byte>, size: nat)
    requires AllFine(ps) && EndsOnce(ps) && AllWithin(h, ps, size) && i < |ps| && Story(h, ps[..i]) == Some(g)
    ensures Fine(ps[i]) && Within(ps[i], g, size) && (ps[i].eof <==> i == |ps| - 1)
  {
    hide Fine, Within, Story;
  }

  /** inflate_blocks, called until the last block is read, with the stream in pieces of any sizes and the output in buffers of
      any sizes: what deflate wrote comes back as the bytes it stands for, and what is behind it is left. */
  method Inflate(f: Feed, w: Window, availOut: nat, fast: bool, ghost ps: seq<Part>, ghost sl: Codebook.Code, ghost sd: Codebook.Code,
                 ghost behind: seq<bool>) returns (ok: bool, left: nat)
    requires f.Valid() && w.Valid() && f.r.p <= |f.r.input| && FixedBooks(sl, sd) && (fast ==> f.r.InHand())
    requires AllFine(ps) && EndsOnce(ps) && Story(w.hist, ps).Some? && AllWithin(w.hist, ps, w.window.Length)
    requires f.Ahead() == Written(ps, sl, sd) + behind && |behind| >= 15 && |f.Ahead()| % 8 == 0
    modifies f`pieces, f`rooms, f.r, w`read, w`write, w`m, w`out, w`hist, w`produced, w.window
    ensures f.Valid() && w.Valid() && f.r.p <= |f.r.input|
    ensures Played(ok, old(TapeOf(w)), TapeOf(w), availOut + old(f.Room()), left + f.Room(), Story(old(w.hist), ps).value) && (ok ==> f.Ahead() == behind)
  {
    hide Written, Story, Then, Fine, PartBits, Feed.Valid, Feed.Ahead, Window.Valid, FixedBooks, EndsOnce, AllWithin, Within, Played;
    ghost var a, h, i, before, room := TapeOf(w), w.hist, 0, Written(ps[..0], sl, sd), availOut + f.Room();
    PlayedNothing(a, room);
    StreamStarts(h, ps, sl, sd);
    assert [] + f.Ahead() == f.Ahead();
    left := availOut;
    var last := false;
    while !last
      invariant f.Valid() && w.Valid() && f.r.p <= |f.r.input| && (fast ==> f.r.InHand())
      invariant 0 <= i <= |ps| && (last <==> i == |ps|) && before == Written(ps[..i], sl, sd)
      invariant Story(h, ps[..i]) == Some(w.hist) && Played(true, a, TapeOf(w), room, left + f.Room(), w.hist)
      invariant before + f.Ahead() == Written(ps, sl, sd) + behind && (|before| + |f.Ahead()|) % 8 == 0
      decreases |ps| - i
    {
      ghost var more := WrittenFirst(ps, i + 1, sl, sd);
      WrittenNext(ps, i, sl, sd);
      ghost var part := PartBits(ps[i], before, sl, sd);
      Aligned(before, part, more, behind, f.Ahead());
      ghost var b, between := TapeOf(w), left + f.Room();
      PartReady(h, ps, i, b.hist, w.window.Length);
      StoryNext(h, ps, i, b.hist);
      StoryGrows(h, ps, i + 1);
      ok, last, left := ReadBlock(f, w, left, fast, ps[i], before, more + behind, sl, sd);
      PlayedMore(ok, a, b, TapeOf(w), room, between, left + f.Room(), b.hist, Then(b.hist, ps[i]).value);
      if !ok {
        PlayedLess(a, TapeOf(w), room, left + f.Room(), Then(b.hist, ps[i]).value, Story(h, ps).value);
        return;
      }
      TapeIs(w);
      assert (before + part) + (more + behind) == ((before + part) + more) + behind;
      i, before := i + 1, before + part;
    }
    assert ps[..i] == ps;
    assert before + f.Ahead() == before + behind;
    SameRest(before, f.Ahead(), behind);
    ok := true;
  }
}
