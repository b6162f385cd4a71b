/**
 Deflate followed by inflate is the identity: the blocks that _tr_flush_block sends are read back
 by inflate_blocks as what their tokens stand for, and that is the input of the matcher.
 */
module DeflateInflate {
  import opened Options
  import opened Bits
  import opened BitWriting
  import opened BitReading
  import opened Feeding
  import opened Lz77Chains
  import opened Lz77Tokens
  import opened BlockFlush
  import opened BlockWriter
  import opened DeflateInit
  import opened Window
  import opened InflateBlocks
  import Lz77
  import Lz77Search

  // ----- tokens over several blocks

  /** The tokens of all blocks. */
  ghost function AllTokens(ps: seq<Part>): seq<Token> {
    if ps == [] then [] else AllTokens(ps[..|ps| - 1]) + ps[|ps| - 1].ts
  }

  /** The bytes of a stored block are those that its tokens stand for. */
  ghost predicate Honest(h: seq<byte>, ps: seq<Part>)
    requires AllFine(ps)
  {
    forall i :: 0 <= i < |ps| && ps[i].kind.Stored? && Story(h, ps[..i]).Some? ==>
      ExpandOn(Story(h, ps[..i]).value, ps[i].ts) == Some(Story(h, ps[..i]).value + ps[i].data.value)
  }

  lemma FrontHonest(h: seq<byte>, ps: seq<Part>)
    requires AllFine(ps) && Honest(h, ps) && ps != []
    ensures AllFine(ps[..|ps| - 1]) && Honest(h, ps[..|ps| - 1])
  {
    hide Fine, Story, ExpandOn;
    var front := ps[..|ps| - 1];
    forall i | 0 <= i < |front|
      ensures front[..i] == ps[..i] && front[i] == ps[i]
    {
    }
  }

  /** No token reaches back further. */
  ghost predicate Reach(ts: seq<Token>, size: nat) {
    forall i :: 0 <= i < |ts| ==> ts[i].dist <= size
  }

  /** The blocks tell what their tokens stand for, and no token of theirs reaches too far. */
  lemma {:induction false} BlocksTell(h: seq<byte>, ps: seq<Part>, size: nat)
    requires AllFine(ps) && Honest(h, ps) && ExpandOn(h, AllTokens(ps)).Some? && Reach(AllTokens(ps), size)
    ensures Story(h, ps) == ExpandOn(h, AllTokens(ps)) && AllWithin(h, ps, size)
    decreases |ps|
  {
    if ps != [] {
      hide *;
      var front, p := ps[..|ps| - 1], ps[|ps| - 1];
      FrontHonest(h, ps);
      TokensSplit(ps, size);
      ExpandConcat(h, AllTokens(front), p.ts);
      BlocksTell(h, front, size);
      var g := Story(h, front).value;
      LastTells(h, ps, g, size);
      WithinNext(h, ps, size);
    } else {
      NoBlocks(h, size);
    }
  }

  lemma NoBlocks(h: seq<byte>, size: nat)
    ensures AllFine([]) && Story(h, []) == Some(h) == ExpandOn(h, AllTokens([])) && AllWithin(h, [], size)
  {
  }

  lemma TokensSplit(ps: seq<Part>, size: nat)
    requires ps != [] && Reach(AllTokens(ps), size)
    ensures var a, b := AllTokens(ps[..|ps| - 1]), ps[|ps| - 1].ts; AllTokens(ps) == a + b && Reach(a, size) && Reach(b, size)
  {
    var a, b := AllTokens(ps[..|ps| - 1]), ps[|ps| - 1].ts;
    assert AllTokens(ps) == a + b;
    hide *;
    ReachSplit(a, b, size);
  }

  lemma ReachSplit(a: seq<Token>, b: seq<Token>, size: nat)
    requires Reach(a + b, size)
    ensures Reach(a, size) && Reach(b, size)
  {
    forall i | 0 <= i < |a|
      ensures a[i].dist <= size
    {
      assert (a + b)[i] == a[i];
    }
    forall i | 0 <= i < |b|
      ensures b[i].dist <= size
    {
      assert (a + b)[|a| + i] == b[i];
    }
  }

  lemma LastTells(h: seq<byte>, ps: seq<Part>, g: seq<byte>, size: nat)
    requires AllFine(ps) && Honest(h, ps) && ps != [] && Story(h, ps[..|ps| - 1]) == Some(g)
    requires ExpandOn(g, ps[|ps| - 1].ts).Some? && Reach(ps[|ps| - 1].ts, size)
    ensures Story(h, ps) == ExpandOn(g, ps[|ps| - 1].ts) && Within(ps[|ps| - 1], g, size)
  {
    hide ExpandOn, DynamicOk, Blocks.AllInRange, Trees.Sized;
  }

  lemma WithinNext(h: seq<byte>, ps: seq<Part>, size: nat)
    requires AllFine(ps) && ps != [] && AllWithin(h, ps[..|ps| - 1], size) && Story(h, ps[..|ps| - 1]).Some?
    requires Within(ps[|ps| - 1], Story(h, ps[..|ps| - 1]).value, size)
    ensures AllWithin(h, ps, size)
  {
    hide Fine, Within, Story;
    var front := ps[..|ps| - 1];
    forall i | 0 <= i < |ps|
      ensures Story(h, ps[..i]).Some? && Within(ps[i], Story(h, ps[..i]).value, size)
    {
      if i < |front| {
        assert ps[..i] == front[..i] && front[i] == ps[i];
      }
    }
  }

  // ----- the sender, block after block

  /** What _tr_flush_block has sent of a stream so far. */
  ghost predicate SentSoFar(ps: seq<Part>, bits: seq<bool>, sl: Codebook.Code, sd: Codebook.Code) {
    AllFine(ps) && (forall i :: 0 <= i < |ps| ==> !ps[i].eof) && bits == Written(ps, sl, sd)
  }

  /** _tr_flush_block sends one more block of the stream. */
  method FlushBlock(d: Deflater, buf: Option<seq<byte>>, storedLen: nat, eof: bool, ghost ps: seq<Part>) returns (ghost p: Part)
    requires d.Valid() && (buf.Some? ==> |buf.value| == storedLen < 0x10000) && (d.level == 0 ==> buf.Some?)
    requires SentSoFar(ps, d.w.Bits(), d.StaticLit(), d.StaticDist())
    modifies d, d.w, d.s, d.s.heap, d.s.depth, d.s.blCount
    modifies d.lt`maxCode, d.lt.fc, d.lt.dl, d.dt`maxCode, d.dt.fc, d.dt.dl, d.bt`maxCode, d.bt.fc, d.bt.dl
    ensures d.StaticLit() == old(d.StaticLit()) && d.StaticDist() == old(d.StaticDist())
    ensures p.eof == eof && p.ts == old(d.Block()) && p.data == buf && Fine(p)
    ensures AllFine(ps + [p]) && d.w.Bits() == Ended(Written(ps + [p], d.StaticLit(), d.StaticDist()), eof)
    ensures !eof ==> d.Valid() && d.Block() == [] && SentSoFar(ps + [p], d.w.Bits(), d.StaticLit(), d.StaticDist())
    ensures eof ==> d.w.biValid == 0
  {
    hide Deflater.Valid, BitWriter.Bits, BitWriter.Valid, DynamicOk, Trees.Sized, Trees.Block, Blocks.BodyBits, Blocks.AllInRange, StoredBits, Written,
      BlockSent, Ended, Deflater.Fixed, Deflater.Block;
    d.ValidParts();
    ghost var before := d.w.Bits();
    var total, kind;
    ghost var x, k;
    total, kind, x, k := d.TrFlushBlock(buf, storedLen, eof);
    p := Part(kind, eof, buf, old(d.Block()), x, k);
    OneMoreWritten(ps, p, d.StaticLit(), d.StaticDist());
    if !eof {
      NotEnded(Written(ps + [p], d.StaticLit(), d.StaticDist()));
    }
  }

  lemma NotEnded(bits: seq<bool>)
    ensures Ended(bits, false) == bits
  {
  }

  lemma OneMoreWritten(ps: seq<Part>, p: Part, sl: Codebook.Code, sd: Codebook.Code)
    requires AllFine(ps) && Fine(p)
    ensures AllFine(ps + [p]) && (p.kind.Stored? ==> p.data.Some?) && (p.kind.Dynamic? ==> p.x.Sized())
    ensures Written(ps + [p], sl, sd) == BlockSent(p.kind, Written(ps, sl, sd), p.data, p.eof, p.ts, sl, sd, p.x)
  {
    hide DynamicOk, Trees.Sized, BlockSent, Blocks.AllInRange;
    assert (ps + [p])[..|ps|] == ps;
  }

  // ----- and back

  /** The bytes of the last block's buffer, if there is one, are what its tokens stand for. */
  ghost predicate HonestLast(h: seq<byte>, ps: seq<Part>, buf: Option<seq<byte>>, ts: seq<Token>)
    requires AllFine(ps)
  {
    buf.Some? && Story(h, ps).Some? ==> ExpandOn(Story(h, ps).value, ts) == Some(Story(h, ps).value + buf.value)
  }

  lemma HonestMore(h: seq<byte>, ps: seq<Part>, p: Part)
    requires AllFine(ps + [p]) && AllFine(ps) && Honest(h, ps) && HonestLast(h, ps, p.data, p.ts) && Fine(p)
    ensures Honest(h, ps + [p])
  {
    hide Story, ExpandOn, DynamicOk, Blocks.AllInRange, Trees.Sized;
    var all := ps + [p];
    forall i | 0 <= i < |all|
      ensures all[..i] == if i < |ps| then ps[..i] else ps
      ensures i < |ps| ==> all[i] == ps[i]
    {
    }
  }

  lemma TokensMore(ps: seq<Part>, p: Part)
    ensures AllTokens(ps + [p]) == AllTokens(ps) + p.ts
  {
    assert (ps + [p])[..|ps|] == ps;
  }

  /** The bytes sent, read as bits, with whatever is behind them. */
  lemma BytesSent(pending: seq<byte>, bits: seq<bool>, written: seq<bool>, tail: seq<byte>)
    requires ByteBits(pending) == bits == Ended(written, true)
    ensures ByteBits(pending + tail) == written + (Padding(written) + ByteBits(tail))
    ensures |ByteBits(pending + tail)| == 8 * |pending + tail| && |ByteBits(tail)| == 8 * |tail|
  {
    ByteBitsConcat(pending, tail);
    hide ByteBits;
    assert (written + Padding(written)) + ByteBits(tail) == written + (Padding(written) + ByteBits(tail));
  }

  /** No bits pending: all bits are in whole bytes. */
  lemma AllInBytes(w: BitWriter)
    requires w.biValid == 0
    ensures w.Bits() == ByteBits(w.pending)
  {
    NoMore(w.biBuf, w.biValid, w.pending);
  }

  /** With the last block the stream is whole. */
  lemma StreamWhole(ps: seq<Part>, p: Part, bits: seq<bool>, sl: Codebook.Code, sd: Codebook.Code)
    requires SentSoFar(ps, bits, sl, sd) && p.eof
    ensures AllFine(ps) && EndsOnce(ps + [p])
  {
    hide Fine, Written;
  }

  lemma TokensSendable(m: Lz77.Matcher)
    requires m.Valid() && Expand(m.tokens) == Some(m.supplied)
    ensures Sendable(m.tokens, m.maxDist) && 1 <= m.maxDist <= 32768 && InView(m.tokens, m.bases, 2 * m.wSize) && 2 * m.wSize <= 0x10000
  {
    hide m.Carried, m.Hashed, m.Aligned, Lz77.Shows, Expand, Pow2, InView;
    Lz77.WSizeBounds(m.cf);
  }

  /** As much of the bytes as there is room for. */
  function Fitting(s: seq<byte>, room: nat): seq<byte> {
    if |s| <= room then s else s[..room]
  }

  /** The receiver: the bytes of a whole stream, and what is behind it, in pieces of any sizes, into a new window, with output
      buffers of any sizes.  All of what the stream tells comes out if and only if there is room for it in all of them; otherwise
      as much as fits. */
  method ReadAll(pieces: seq<seq<byte>>, size: nat, availOut: nat, rooms: seq<nat>, fast: bool, ghost ps: seq<Part>, ghost sl: Codebook.Code, ghost sd: Codebook.Code,
                 ghost behind: seq<bool>) returns (ok: bool, out: seq<byte>, left: nat)
    requires FixedBooks(sl, sd) && AllFine(ps) && EndsOnce(ps) && size >= 1 && Story([], ps).Some? && AllWithin([], ps, size)
    requires ByteBits(Joined(pieces)) == Written(ps, sl, sd) + behind && |behind| >= 15
    ensures ok <==> |Story([], ps).value| <= availOut + Roomy(rooms)
    ensures out == Fitting(Story([], ps).value, availOut + Roomy(rooms)) && |out| + left == availOut + Roomy(rooms)
  {
    hide *;
    ByteBitsLength(Joined(pieces));
    var f := new Feed(pieces, rooms);
    var w := new Window(size);
    ghost var a := TapeOf(w);
    TapeIs(w);
    ok, left := Inflate(f, w, availOut, fast, ps, sl, sd, behind);
    ghost var b := TapeOf(w);
    TapeIs(w);
    if ok {
      ghost var between := left + f.Room();
      ok, left := Delivered(f, w, left);
      AllDelivered(ok, a, b, w, availOut + Roomy(rooms), between, left + f.Room(), Story([], ps).value);
    } else {
      NotDelivered(a, b, w, availOut + Roomy(rooms), left + f.Room(), Story([], ps).value);
    }
    out, left := w.out, left + f.Room();
  }

  /** DRY: the rest of the output, as long as buffers come. */
  method Delivered(f: Feed, w: Window, availOut: nat) returns (ok: bool, left: nat)
    requires w.Valid()
    modifies f`rooms, w`read, w`write, w`m, w`out
    ensures w.Valid() && old(w.out) <= w.out && |w.out| + left + f.Room() == |old(w.out)| + availOut + old(f.Room())
    ensures if ok then w.out == w.produced else left + f.Room() == 0 && |w.out| < |w.produced|
  {
    hide *;
    left := w.Flush(availOut);
    ok := w.read == w.write;
    while !ok && f.rooms != []
      invariant w.Valid() && old(w.out) <= w.out && |w.out| + left + f.Room() == |old(w.out)| + availOut + old(f.Room())
      invariant ok == (w.read == w.write) && w.read < w.window.Length && (!ok ==> left == 0)
      decreases |f.rooms|
    {
      left := f.NextRoom();
      left := w.Flush(left);
      ok := w.read == w.write;
    }
    if ok {
      w.Emptied();
    } else {
      w.Waits();
      f.NoRoom();
    }
  }

  lemma AllDelivered(ok: bool, a: Tape, b: Tape, w: Window, availOut: nat, between: nat, left: nat, whole: seq<byte>)
    requires a == Tape([], [], []) && Played(true, a, b, availOut, between, whole)
    requires w.Valid() && w.hist == b.hist && w.produced == b.produced && |w.out| + left == |b.out| + between
    requires if ok then w.out == w.produced else left == 0 && |w.out| < |w.produced|
    ensures ok <==> |whole| <= availOut
    ensures w.out == Fitting(whole, availOut) && |w.out| + left == availOut
  {
    OutFirst(w);
    hide w.Valid;
    assert w.produced == whole;
  }

  lemma NotDelivered(a: Tape, b: Tape, w: Window, availOut: nat, left: nat, whole: seq<byte>)
    requires a == Tape([], [], []) && Played(false, a, b, availOut, left, whole) && w.Valid() && b == Tape(w.hist, w.produced, w.out)
    ensures |whole| > availOut && w.out == Fitting(whole, availOut) && |w.out| + left == availOut
  {
    OutFirst(w);
    hide w.Valid;
    assert w.produced == b.hist == whole[..|b.hist|];
  }

  lemma OutFirst(w: Window)
    requires w.Valid()
    ensures w.out <= w.produced
  {
    hide Remembered;
  }

  // ----- the tokens of a whole input, in blocks

  /** The bytes that a token stands for. */
  function Worth(t: Token): (n: nat)
    ensures n >= 1
  {
    if t.dist == 0 then 1 else t.lc + MIN_MATCH
  }

  lemma OneMore(h: seq<byte>, ts: seq<Token>, t: Token)
    requires ExpandOn(h, ts + [t]).Some?
    ensures ExpandOn(h, ts).Some? && |ExpandOn(h, ts + [t]).value| == |ExpandOn(h, ts).value| + Worth(t)
    ensures t.dist == 0 ==> t.lc < 256
  {
    assert (ts + [t])[..|ts|] == ts;
  }

  /** The tokens up to the next one stand for the input up to there. */
  lemma NextStands(ts: seq<Token>, input: seq<byte>, i: nat, at: nat)
    requires Expand(ts) == Some(input) && i < |ts| && at <= |input| && Expand(ts[..i]) == Some(input[..at])
    ensures at + Worth(ts[i]) <= |input| && Expand(ts[..i + 1]) == Some(input[..at + Worth(ts[i])])
    ensures ts[i].dist == 0 ==> ts[i].lc < 256
  {
    hide ExpandOn, Worth;
    assert ts == ts[..i + 1] + ts[i + 1..] && ts[..i + 1] == ts[..i] + [ts[i]];
    ExpandConcat([], ts[..i + 1], ts[i + 1..]);
    OneMore([], ts[..i], ts[i]);
    var x := Expand(ts[..i + 1]).value;
    ExpandGrows(x, ts[i + 1..]);
    assert x == input[..|x|];
  }

  /** The state between two tokens: i of them are tallied, those of the blocks ps are sent. */
  ghost predicate Midway(ts: seq<Token>, input: seq<byte>, i: nat, at: nat, blockStart: nat, ps: seq<Part>, block: seq<Token>) {
    && i <= |ts| && blockStart <= at <= |input| && Expand(ts[..i]) == Some(input[..at])
    && AllFine(ps) && Honest([], ps) && AllTokens(ps) + block == ts[..i] && Expand(AllTokens(ps)) == Some(input[..blockStart])
  }

  lemma MidwayStart(ts: seq<Token>, input: seq<byte>)
    ensures Midway(ts, input, 0, 0, 0, [], [])
  {
    assert ts[..0] == [] && input[..0] == [];
  }

  /** One more token is tallied. */
  lemma MidwayTally(ts: seq<Token>, input: seq<byte>, i: nat, at: nat, blockStart: nat, ps: seq<Part>, block: seq<Token>)
    requires Midway(ts, input, i, at, blockStart, ps, block) && i < |ts| && Expand(ts) == Some(input)
    ensures Midway(ts, input, i + 1, at + Worth(ts[i]), blockStart, ps, block + [ts[i]])
  {
    hide Honest, ExpandOn, AllTokens, Fine, Worth;
    NextStands(ts, input, i, at);
    assert AllTokens(ps) + (block + [ts[i]]) == (AllTokens(ps) + block) + [ts[i]] == ts[..i + 1];
  }

  /** The window still holds the bytes that the tokens of the block stand for. */
  lemma MidwayBuffer(ts: seq<Token>, input: seq<byte>, i: nat, at: nat, blockStart: nat, ps: seq<Part>, block: seq<Token>,
                     buf: Option<seq<byte>>, size: nat)
    requires Midway(ts, input, i, at, blockStart, ps, block) && Reach(ts, size)
    requires buf.Some? ==> buf.value == input[blockStart..at]
    ensures AllFine(ps) && HonestLast([], ps, buf, block)
  {
    hide Honest, ExpandOn, AllTokens, Fine, Reach, Story;
    assert ts == (AllTokens(ps) + block) + ts[i..];
    ReachSplit(AllTokens(ps) + block, ts[i..], size);
    ReachSplit(AllTokens(ps), block, size);
    BlocksTell([], ps, size);
    ExpandConcat([], AllTokens(ps), block);
    assert input[..at] == input[..blockStart] + input[blockStart..at];
  }

  /** A block is sent. */
  lemma MidwayFlush(ts: seq<Token>, input: seq<byte>, i: nat, at: nat, blockStart: nat, ps: seq<Part>, p: Part)
    requires Midway(ts, input, i, at, blockStart, ps, p.ts) && Fine(p) && AllFine(ps + [p]) && HonestLast([], ps, p.data, p.ts)
    ensures Midway(ts, input, i, at, at, ps + [p], [])
  {
    hide Honest, HonestLast, ExpandOn, AllTokens, Fine;
    HonestMore([], ps, p);
    TokensMore(ps, p);
    assert AllTokens(ps + [p]) + [] == ts[..i];
  }

  /** FLUSH_BLOCK_ONLY: the bytes of the block go with it unless its start has left the window, which began at base: then block_start
      is negative in the source. */
  method FlushTokens(d: Deflater, input: seq<byte>, at: nat, blockStart: nat, base: nat, eof: bool, ghost ts: seq<Token>, ghost i: nat,
                     ghost ps: seq<Part>, ghost size: nat) returns (ghost p: Part)
    requires d.Valid() && d.level > 0 && SentSoFar(ps, d.w.Bits(), d.StaticLit(), d.StaticDist())
    requires Midway(ts, input, i, at, blockStart, ps, d.Block()) && Reach(ts, size) && at < base + 0x10000
    modifies d, d.w, d.s, d.s.heap, d.s.depth, d.s.blCount
    modifies d.lt`maxCode, d.lt.fc, d.lt.dl, d.dt`maxCode, d.dt.fc, d.dt.dl, d.bt`maxCode, d.bt.fc, d.bt.dl
    ensures d.StaticLit() == old(d.StaticLit()) && d.StaticDist() == old(d.StaticDist())
    ensures p.eof == eof && Midway(ts, input, i, at, at, ps + [p], []) && (p.data.Some? <==> base <= blockStart)
    ensures AllFine(ps + [p]) && d.w.Bits() == Ended(Written(ps + [p], d.StaticLit(), d.StaticDist()), eof)
    ensures !eof ==> d.Valid() && d.Block() == [] && SentSoFar(ps + [p], d.w.Bits(), d.StaticLit(), d.StaticDist())
    ensures eof ==> d.w.biValid == 0
  {
    hide *;
    RoomLeft(d);
    MidwayBounds(ts, input, i, at, blockStart, ps, d.Block());
    var buf := None;
    if blockStart >= base {
      buf := Some(input[blockStart..at]);
    }
    MidwayBuffer(ts, input, i, at, blockStart, ps, d.Block(), buf, size);
    p := FlushBlock(d, buf, at - blockStart, eof, ps);
    MidwayFlush(ts, input, i, at, blockStart, ps, p);
  }

  lemma MidwayBounds(ts: seq<Token>, input: seq<byte>, i: nat, at: nat, blockStart: nat, ps: seq<Part>, block: seq<Token>)
    requires Midway(ts, input, i, at, blockStart, ps, block)
    ensures i <= |ts| && blockStart <= at <= |input|
  {
  }

  lemma InRangeSent(ts: seq<Token>, maxDist: nat, size: nat)
    requires Sendable(ts, maxDist) && maxDist <= 32768 && maxDist <= size
    ensures Reach(ts, size) && forall i :: 0 <= i < |ts| ==> Blocks.InRange(ts[i])
  {
  }

  lemma RoomLeft(d: Deflater)
    requires d.Valid()
    ensures d.lastLit <= d.dBuf.Length == d.lBuf.Length && |d.Block()| == d.lastLit
  {
    hide Blocks.AllInRange, d.w.Valid, d.w.Bits;
  }

  lemma NothingSent(sl: Codebook.Code, sd: Codebook.Code)
    ensures SentSoFar([], [], sl, sd)
  {
  }

  /** The end: all tokens are in the blocks, and the last of these ends the stream. */
  lemma MidwayEnd(ts: seq<Token>, input: seq<byte>, at: nat, ps: seq<Part>, size: nat)
    requires Midway(ts, input, |ts|, at, at, ps, []) && Expand(ts) == Some(input) && Reach(ts, size)
    ensures AllFine(ps) && Story([], ps) == Some(input) && AllWithin([], ps, size)
  {
    hide Honest, ExpandOn, AllTokens, Fine, Reach, Story, AllWithin;
    assert AllTokens(ps) + [] == ts[..|ts|] == ts && AllTokens(ps) == ts;
    BlocksTell([], ps, size);
  }

  /** The window is at most 64K, and the next token of the matcher ends within it. */
  lemma ViewBounds(ts: seq<Token>, bases: seq<nat>, span: nat, input: seq<byte>, i: nat, at: nat, blockStart: nat, ps: seq<Part>,
                   block: seq<Token>)
    requires InView(ts, bases, span) && span <= 0x10000 && 0 < i && Midway(ts, input, i, at, blockStart, ps, block)
    ensures |bases| == |ts| && i <= |ts| && at < bases[i - 1] + 0x10000
  {
    hide ExpandOn, Honest, AllTokens, Fine;
    assert ts[..i - 1 + 1] == ts[..i];
  }

  /** Every token is tallied; a block ends when the buffer is full, when the caller likes, and at the end.  Each of `bases` tells
      where the window began when its token was sent, base where it begins at the end. */
  method SendAll(d: Deflater, ts: seq<Token>, bases: seq<nat>, base: nat, input: seq<byte>, ghost maxDist: nat, ghost size: nat,
                 ghost span: nat) returns (ghost ps: seq<Part>)
    requires d.Valid() && d.Block() == [] && d.w.Bits() == [] && d.level > 0 && d.lBuf.Length >= 2
    requires Expand(ts) == Some(input) && Sendable(ts, maxDist) && maxDist <= 32768 && maxDist <= size
    requires InView(ts, bases, span) && span <= 0x10000 && |input| < base + 0x10000
    modifies d, d.w, d.s, d.s.heap, d.s.depth, d.s.blCount, d.dBuf, d.lBuf
    modifies d.lt`maxCode, d.lt.fc, d.lt.dl, d.dt`maxCode, d.dt.fc, d.dt.dl, d.bt`maxCode, d.bt.fc, d.bt.dl
    ensures d.StaticLit() == old(d.StaticLit()) && d.StaticDist() == old(d.StaticDist())
    ensures AllFine(ps) && EndsOnce(ps) && Story([], ps) == Some(input) && AllWithin([], ps, size)
    ensures d.w.Bits() == Ended(Written(ps, d.StaticLit(), d.StaticDist()), true) && d.w.biValid == 0
  {
    hide *;
    ghost var sl, sd := d.StaticLit(), d.StaticDist();
    var i: nat, at: nat, blockStart: nat := 0, 0, 0;
    ps := [];
    InRangeSent(ts, maxDist, size);
    MidwayStart(ts, input);
    NothingSent(sl, sd);
    RoomLeft(d);
    while i < |ts|
      invariant d.Valid() && d.StaticLit() == sl && d.StaticDist() == sd && i <= |ts|
      invariant d.lastLit <= d.dBuf.Length == d.lBuf.Length && |d.Block()| == d.lastLit
      invariant i < |ts| ==> d.lastLit < d.lBuf.Length - 1
      invariant SentSoFar(ps, d.w.Bits(), sl, sd) && Midway(ts, input, i, at, blockStart, ps, d.Block())
    {
      MidwayTally(ts, input, i, at, blockStart, ps, d.Block());
      var full := d.TrTally(ts[i].dist, ts[i].lc);
      at := at + Worth(ts[i]);
      i := i + 1;
      RoomLeft(d);
      var bflush := *;
      if (full && i < |ts|) || bflush {
        ViewBounds(ts, bases, span, input, i, at, blockStart, ps, d.Block());
        ghost var p := FlushTokens(d, input, at, blockStart, bases[i - 1], false, ts, i, ps, size);
        ps := ps + [p];
        blockStart := at;
        RoomLeft(d);
      }
    }
    ghost var before := d.w.Bits();
    MidwayBounds(ts, input, i, at, blockStart, ps, d.Block());
    ghost var last := FlushTokens(d, input, at, blockStart, base, true, ts, i, ps, size);
    StreamWhole(ps, last, before, sl, sd);
    ps := ps + [last];
    MidwayEnd(ts, input, at, ps, size);
  }

  /** The whole way.  The matcher has made tokens of all its input; they are sent in blocks, and inflate reads the stream:
      what comes out is the input, as far as there is room for it.  Two bytes behind the stream, inflate never waits for more
      input. */
  method Identity(m: Lz77.Matcher, input: seq<byte>, d: Deflater, tail: seq<byte>, sizes: seq<nat>, size: nat,
                  availOut: nat, rooms: seq<nat>, fast: bool)
    returns (ok: bool, out: seq<byte>, left: nat)
    requires m.Valid() && m.supplied == input && Expand(m.tokens) == Some(input) && |input| < m.base + 2 * m.wSize
    requires d.Valid() && d.Block() == [] && d.w.Bits() == [] && d.level > 0 && d.lBuf.Length >= 2
    requires FixedBooks(d.StaticLit(), d.StaticDist()) && m.maxDist <= size && |tail| >= 2
    modifies d, d.w, d.s, d.s.heap, d.s.depth, d.s.blCount, d.dBuf, d.lBuf
    modifies d.lt`maxCode, d.lt.fc, d.lt.dl, d.dt`maxCode, d.dt.fc, d.dt.dl, d.bt`maxCode, d.bt.fc, d.bt.dl
    ensures ok <==> |input| <= availOut + Roomy(rooms)
    ensures out == Fitting(input, availOut + Roomy(rooms)) && |out| + left == availOut + Roomy(rooms)
  {
    hide *;
    TokensSendable(m);
    ghost var sl, sd := d.StaticLit(), d.StaticDist();
    ghost var ps := SendAll(d, m.tokens, m.bases, m.base, input, m.maxDist, size, 2 * m.wSize);
    AllInBytes(d.w);
    BytesSent(d.w.pending, d.w.Bits(), Written(ps, sl, sd), tail);
    ChoppedJoins(d.w.pending + tail, sizes);
    ok, out, left := ReadAll(Chopped(d.w.pending + tail, sizes), size, availOut, rooms, fast, ps, sl, sd, Padding(Written(ps, sl, sd)) + ByteBits(tail));
  }

  // ----- from nothing

  /** The settings of a compressor: deflateInit2_ and the tuning parameters of its level. */
  datatype Settings = Settings(wBits: nat, hashBits: nat, good: nat, lazy: nat, nice: nat, chain: nat, insert: nat,
                               strategy: Lz77Search.Strategy, litBufsize: nat, level: nat, slow: bool) {
    ghost predicate Valid() {
      Config(wBits, hashBits).Valid() && chain >= 4 && 2 <= litBufsize <= MAX_LIT_BUFSIZE && level > 0
    }
  }

  /** A new matcher is given the input piece by piece, and told at the end that this is all, as often as it runs out of room. */
  method Matched(pieces: seq<seq<byte>>, c: Settings) returns (m: Lz77.Matcher, input: seq<byte>)
    requires c.Valid()
    ensures fresh(m) && m.Valid() && m.supplied == input == Joined(pieces) && m.maxDist < Pow2(c.wBits)
    ensures Expand(m.tokens) == Some(input) && |input| < m.base + 2 * m.wSize
  {
    hide *;
    SettingsValid(c);
    m := new Lz77.Matcher(c.wBits, c.hashBits, c.good, c.lazy, c.nice, c.chain, c.insert, c.strategy);
    MatcherStarts(m);
    MatcherReach(m);
    input := [];
    var state := Lz77.NeedMore;
    var i := 0;
    while i < |pieces|
      invariant i <= |pieces| && fresh(m) && fresh(m.window) && fresh(m.prev) && fresh(m.head) && m.Valid()
      invariant m.supplied == input == Joined(pieces[..i])
      invariant if c.slow then m.SlowReady() else m.FastReady()
    {
      JoinedNext(pieces, i);
      input := input + pieces[i];
      m.Supply(pieces[i]);
      state := Deflate(m, c.slow, Lz77.NoFlush);
      i := i + 1;
    }
    assert pieces[..i] == pieces;
    state := Deflate(m, c.slow, Lz77.Finish);
    while state == Lz77.NeedMore
      invariant fresh(m) && fresh(m.window) && fresh(m.prev) && fresh(m.head) && m.Valid() && m.supplied == input
      invariant m.Pos() <= |input| && (state != Lz77.NeedMore ==> Expand(m.tokens) == Some(input) && |input| < m.base + 2 * m.wSize)
      invariant if c.slow then m.SlowReady() else m.FastReady()
      decreases |input| - m.Pos(), state == Lz77.NeedMore
    {
      state := Deflate(m, c.slow, Lz77.Finish);
    }
  }

  /** The matcher of the level at work. */
  method Deflate(m: Lz77.Matcher, slow: bool, flush: Lz77.Flush) returns (state: Lz77.BlockState)
    requires m.Valid() && if slow then m.SlowReady() else m.FastReady()
    modifies m, m.window, m.prev, m.head
    ensures m.Valid() && m.supplied == old(m.supplied) && if slow then m.SlowReady() else m.FastReady()
    ensures flush != Lz77.NoFlush && state != Lz77.NeedMore ==>
              Expand(m.tokens) == Some(m.supplied) && |m.supplied| < m.base + 2 * m.wSize
    ensures old(m.Pos()) <= m.Pos() <= |m.supplied| && (flush == Lz77.Finish && state == Lz77.NeedMore ==> m.Pos() > old(m.Pos()))
  {
    hide *;
    if slow {
      state := m.DeflateSlow(flush);
    } else {
      state := m.DeflateFast(flush);
    }
  }

  lemma SettingsValid(c: Settings)
    requires c.Valid()
    ensures Config(c.wBits, c.hashBits).Valid() && c.chain >= 4 && 2 <= c.litBufsize <= MAX_LIT_BUFSIZE && c.level > 0
    ensures Joined([]) == []
  {
  }

  lemma MatcherStarts(m: Lz77.Matcher)
    requires !m.matchAvailable && m.matchLength == MIN_MATCH - 1 && m.prevLength == 2
    ensures m.SlowReady() && m.FastReady()
  {
  }

  lemma MatcherReach(m: Lz77.Matcher)
    requires m.Valid()
    ensures m.maxDist < Pow2(m.cf.wBits)
  {
    hide m.Carried, m.Hashed, m.Aligned, m.Sent, Lz77.Shows, Pow2;
  }

  /** Deflate, then inflate, starting from nothing, with input in pieces of any size: what comes out is the input, as far as
      there is room for it. */
  method RoundTrip(pieces: seq<seq<byte>>, c: Settings, tail: seq<byte>, sizes: seq<nat>, size: nat, availOut: nat, rooms: seq<nat>, fast: bool)
    returns (ok: bool, out: seq<byte>, left: nat)
    requires c.Valid() && size >= Pow2(c.wBits) && |tail| >= 2
    ensures ok <==> |Joined(pieces)| <= availOut + Roomy(rooms)
    ensures out == Fitting(Joined(pieces), availOut + Roomy(rooms)) && |out| + left == availOut + Roomy(rooms)
  {
    hide *;
    SettingsValid(c);
    var m, input := Matched(pieces, c);
    var d := TrInit(c.litBufsize, c.level);
    ok, out, left := Identity(m, input, d, tail, sizes, size, availOut, rooms, fast);
  }
}
