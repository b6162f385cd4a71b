/**
 The string matchers of Deflate: fill_window, longest_match, deflate_fast and deflate_slow.
 The window, the hash heads and the chains are updated in place; the ghost field `input`
 is everything read so far, and the tokens handed to the coder always expand to exactly
 the part of it that has been consumed.
 */
module Lz77 {
  import opened Bits
  import opened Lz77Chains
  import opened Lz77Search
  import opened Lz77Tokens
  import opened Options
  import opened RollingHash

  const MIN_LOOKAHEAD: nat := MAX_MATCH + MIN_MATCH + 1
  const TOO_FAR: nat := 4096

  datatype Flush = NoFlush | SyncFlush | Finish
  datatype BlockState = NeedMore | BlockDone | FinishStarted | FinishDone

  /** The window shows the input from base on. */
  ghost predicate Shows(window: seq<byte>, input: seq<byte>, base: nat, n: nat) {
    && n <= |window| && base + n == |input|
    && forall i :: 0 <= i < n ==> window[i] == input[base + i]
  }

  /** A match found at position p is worth n bytes at distance dist. */
  ghost predicate Found(input: seq<byte>, p: nat, dist: int, n: nat, maxDist: nat) {
    n <= MAX_MATCH && 1 <= dist <= maxDist && Repeats(input, p, dist, n)
  }

  class Matcher {
    const cf: Config
    const wSize: nat
    const maxDist: nat
    const window: array<byte>
    const prev: array<nat>
    const head: array<nat>

    // tuning parameters of the compression level
    const goodMatch: nat
    const maxLazy: nat
    const niceMatch: nat
    const maxChain: nat
    const maxInsert: nat
    const strategy: Strategy

    var availIn: seq<byte>  // input not yet read
    var strstart: nat
    var lookahead: nat
    var matchStart: int  // unsigned in the source, where only differences from it are used
    var matchLength: nat
    var prevLength: nat
    var prevMatch: int
    var matchAvailable: bool
    var insH: nat
    var tokens: seq<Token>  // d_buf and l_buf, over all blocks
    var base: nat           // how far the window has slid; block_start in the source counts from there
    var bases: seq<nat>     // where it was when each token was sent

    ghost var input: seq<byte>
    ghost var ins: set<nat>
    ghost var missed: set<nat>     // positions whose strings were not inserted
    ghost var whys: seq<Why>       // why each token was sent
    ghost var look: Look           // the look at the position before, while its byte waits
    ghost var supplied: seq<byte>  // everything the caller has handed over

    ghost function Pos(): nat
      reads `base, `strstart
    {
      base + strstart
    }

    ghost predicate Sizes()
    {
      && cf.Valid() && wSize == cf.WSize() && wSize >= 512 && maxDist == wSize - MIN_LOOKAHEAD
      && window.Length == 2 * wSize && prev.Length == wSize && head.Length == Pow2(cf.hashBits)
      && prev != head && maxChain >= 4
    }

    /** The buffers agree with the input; strings before `top` may have been inserted. */
    ghost predicate Buffers(top: nat)
      reads `base, `strstart, `input, `ins, `missed, window, prev, head
    {
      && Sizes() && base <= |input| && Accounted(ins, missed, top) && (base > 0 ==> strstart >= maxDist)
      && Shows(window[..], input, base, |input| - base)
      && Tables(cf, head[..], prev[..], input, base, ins, strstart, top)
    }

    ghost predicate Aligned()
      reads `base, `strstart, `input, `lookahead
    {
      |input| == Pos() + lookahead
    }

    /** The rolling hash holds the first two bytes of the string at position p. */
    ghost predicate Hashed(p: nat)
      reads `insH, `input
    {
      p + 2 < |input| ==> Primed(insH, input[p], input[p + 1], cf.HashShift(), cf.hashBits)
    }

    ghost function Tuned(): Tuning {
      Tuning(cf, maxDist, goodMatch, maxLazy, niceMatch, maxChain, maxInsert, strategy)
    }

    /** The tokens expand to the first n bytes of the input, each ended within the window, and each is explained. */
    ghost predicate Sent(n: nat)
      reads `tokens, `bases, `input, `whys, `missed
    {
      && n <= |input| && Expand(tokens) == Some(input[..n]) && Sendable(tokens, maxDist) && InView(tokens, bases, 2 * wSize)
      && Explained(Tuned(), input, missed, tokens, whys)
    }

    /** l is an honest look at position p that made n of it, with which the lazy matcher goes on. */
    ghost predicate Looked(l: Look, p: int, n: nat)
      reads `input, `missed, `tokens, `whys
    {
      && l.p == p && l.n == n && Honest(Tuned(), input, missed, l, true)
      && |whys| == |tokens| && GoesOn(tokens, whys, l)
    }

    /** A match of at least MIN_MATCH carried over from the previous position is real. */
    ghost predicate Carried()
      reads `matchLength, `matchAvailable, `matchStart, `base, `strstart, `input, `look, `missed, `tokens, `whys
    {
      && matchLength <= MAX_MATCH
      && (matchLength >= MIN_MATCH ==>
            matchAvailable && Pos() >= 1 && Found(input, Pos() - 1, strstart - 1 - matchStart, matchLength, maxDist))
      && if matchAvailable then Looked(look, Pos() - 1, matchLength) else Fresh(tokens, whys)
    }

    ghost predicate Consistent()
      reads this, window, prev, head
    {
      && Buffers(Pos()) && Aligned() && Hashed(Pos()) && Carried()
      && (matchAvailable ==> strstart >= 1)
      && Sent(if matchAvailable then Pos() - 1 else Pos())
    }

    ghost predicate Valid()
      reads this, window, prev, head
    {
      Consistent() && input + availIn == supplied
    }

    /** deflateInit2_ and lm_init; freshly allocated memory is taken to be zero. */
    constructor (wBits: nat, hashBits: nat, good: nat, lazy: nat, nice: nat, chain: nat, insert: nat, strategy: Strategy)
      requires Config(wBits, hashBits).Valid() && chain >= 4
      ensures Valid() && cf == Config(wBits, hashBits) && fresh(window) && fresh(prev) && fresh(head)
      ensures supplied == [] && tokens == [] && !matchAvailable && matchLength == MIN_MATCH - 1 && prevLength == 2
    {
      WSizeBounds(Config(wBits, hashBits));
      cf := Config(wBits, hashBits);
      wSize := Pow2(wBits);
      maxDist := Pow2(wBits) - MIN_LOOKAHEAD;
      window := new byte[2 * Pow2(wBits)](_ => 0);
      prev := new nat[Pow2(wBits)](_ => 0);
      head := new nat[Pow2(hashBits)](_ => 0);
      goodMatch, maxLazy, niceMatch, maxChain, maxInsert := good, lazy, nice, chain, insert;
      this.strategy := strategy;
      availIn, strstart, lookahead, matchStart := [], 0, 0, 0;
      matchLength, prevLength, prevMatch, matchAvailable, insH := MIN_MATCH - 1, MIN_MATCH - 1, 0, false, 0;
      input, base, ins, tokens, bases, supplied := [], 0, {}, [], [], [];
      missed, whys := {}, [];
    }

    // ----- filling the window

    /** Move the upper half of the window to the lower half, and every table entry with it. */
    method Slide()
      requires Buffers(Pos()) && Aligned() && strstart >= wSize + maxDist
      modifies this`strstart, this`matchStart, this`base, window, prev, head
      ensures Buffers(Pos()) && Aligned() && Pos() == old(Pos()) && strstart == old(strstart) - wSize
      ensures matchStart == old(matchStart) - wSize
    {
      hide *;
      ghost var w, h, p, b, n := window[..], head[..], prev[..], base, strstart;
      BuffersParts(Pos());
      SlideKeepsTables(cf, h, p, input, base, ins, strstart, Pos());
      CopyDown(window, wSize);
      SlideTable(head, wSize);
      SlideTable(prev, wSize);
      matchStart := matchStart - wSize;
      strstart := strstart - wSize;
      base := base + wSize;
      SlideWhole(w, b, n);
    }

    lemma BuffersParts(top: nat)
      requires Buffers(top) && Aligned()
      ensures Sizes() && base <= |input| && Accounted(ins, missed, top) && |input| == base + strstart + lookahead && Pos() == base + strstart
      ensures base > 0 ==> strstart >= maxDist
      ensures Shows(window[..], input, base, |input| - base) && Tables(cf, head[..], prev[..], input, base, ins, strstart, top)
      ensures cf.Valid() && wSize == cf.WSize() && window.Length == 2 * wSize && prev != head && |input| - base <= 2 * wSize
    {
      hide Tables;
    }

    lemma SlideWhole(w: seq<byte>, b: nat, n: nat)
      requires Sizes() && base == b + wSize && n == strstart + wSize && strstart >= maxDist && |input| == b + n + lookahead
      requires Accounted(ins, missed, b + n) && Shows(w, input, b, |input| - b) && |w| == window.Length
      requires forall k :: 0 <= k < wSize ==> window[k] == w[wSize + k]
      requires Tables(cf, head[..], prev[..], input, base, ins, strstart, b + n)
      ensures Buffers(Pos()) && Aligned() && Pos() == b + n
    {
      hide Tables, Shows, Pow2, Config.WSize, Config.Valid;
      ShowsAfterSlide(w, window[..], input, b, n + lookahead, wSize);
    }

    static method CopyDown(window: array<byte>, size: nat)
      requires window.Length == 2 * size
      modifies window
      ensures forall k :: 0 <= k < size ==> window[k] == old(window[size + k])
    {
      var i := 0;
      while i < size
        invariant 0 <= i <= size
        invariant forall k :: 0 <= k < i ==> window[k] == old(window[size + k])
        invariant forall k :: size <= k < 2 * size ==> window[k] == old(window[k])
      {
        window[i] := window[size + i];
        i := i + 1;
      }
    }

    static method SlideTable(a: array<nat>, w: nat)
      modifies a
      ensures a[..] == Slid(old(a[..]), w)
    {
      ghost var s := a[..];
      var n := a.Length;
      while n != 0
        invariant 0 <= n <= a.Length
        invariant forall i :: 0 <= i < n ==> a[i] == s[i]
        invariant forall i :: n <= i < a.Length ==> a[i] == if s[i] >= w then s[i] - w else 0
      {
        n := n - 1;
        var m := a[n];
        a[n] := if m >= w then m - w else 0;
      }
    }

    /** read_buf: copy as much input as fits behind the lookahead. */
    method ReadBuf(size: nat) returns (n: nat)
      requires Buffers(Pos()) && Aligned() && strstart + lookahead + size <= 2 * wSize
      modifies this`availIn, this`lookahead, this`input, window
      ensures Buffers(Pos()) && Aligned() && n == (if |old(availIn)| < size then |old(availIn)| else size)
      ensures lookahead == old(lookahead) + n && availIn == old(availIn)[n..]
      ensures input == old(input) + old(availIn)[..n]
    {
      hide *;
      BuffersParts(Pos());
      n := if |availIn| < size then |availIn| else size;
      ghost var w := window[..];
      ghost var more, before := availIn[..n], input;
      TablesGrow(cf, head[..], prev[..], input, base, ins, strstart, Pos(), more, strstart, Pos());
      var at := strstart + lookahead;
      var i := 0;
      while i < n
        invariant 0 <= i <= n
        invariant forall k :: 0 <= k < at ==> window[k] == w[k]
        invariant forall k :: 0 <= k < i ==> window[at + k] == availIn[k]
        modifies window
      {
        window[at + i] := availIn[i];
        i := i + 1;
      }
      availIn := availIn[n..];
      lookahead := lookahead + n;
      input := input + more;
      ReadWhole(w, before, more);
    }

    lemma ReadWhole(w: seq<byte>, before: seq<byte>, more: seq<byte>)
      requires Sizes() && base <= |before| && input == before + more && |input| == base + strstart + lookahead
      requires base > 0 ==> strstart >= maxDist
      requires Accounted(ins, missed, Pos()) && Shows(w, before, base, |before| - base) && |w| == window.Length
      requires |input| - base <= |w|
      requires forall k :: 0 <= k < |before| - base ==> window[k] == w[k]
      requires forall k :: 0 <= k < |more| ==> window[|before| - base + k] == more[k]
      requires Tables(cf, head[..], prev[..], input, base, ins, strstart, Pos())
      ensures Buffers(Pos()) && Aligned()
    {
      hide Tables, Shows, Pow2, Config.WSize, Config.Valid;
      ShowsMore(w, window[..], before, base, |before| - base, more);
    }

    /** One read of fill_window, after which the hash is set up afresh for the current string. */
    method Refill(more: nat)
      requires Valid() && strstart + lookahead + more <= 2 * wSize
      modifies this`availIn, this`lookahead, this`input, this`insH, window
      ensures Valid() && supplied == old(supplied) && lookahead >= old(lookahead)
      ensures |availIn| < |old(availIn)| || more == 0 || old(availIn) == []
      ensures strstart + lookahead <= 2 * wSize
    {
      hide *;
      ValidParts();
      ghost var before, came, done := input, availIn, if matchAvailable then Pos() - 1 else Pos();
      SentParts(done);
      CarriedParts();
      var n := ReadBuf(more);
      SentGrows(done, before, came[..n]);
      CarriedGrows(before, came[..n]);
      assert before + came == (before + came[..n]) + came[n..];
      if lookahead >= MIN_MATCH {
        TwoThere();
        insH := Update(window[strstart], window[strstart + 1], cf.HashShift(), cf.hashBits);
      }
      HashedNow();
      ValidWhole();
    }

    lemma ValidParts()
      requires Valid()
      ensures Buffers(Pos()) && Aligned() && Hashed(Pos()) && Carried() && (matchAvailable ==> strstart >= 1)
      ensures Sent(if matchAvailable then Pos() - 1 else Pos())
      ensures input + availIn == supplied && |input| == Pos() + lookahead && (matchAvailable ==> Pos() >= 1)
    {
      hide Buffers, Hashed, Carried, Sent;
    }

    lemma ValidWhole()
      requires Buffers(Pos()) && Aligned() && Hashed(Pos()) && Carried() && (matchAvailable ==> strstart >= 1)
      requires Sent(if matchAvailable then Pos() - 1 else Pos())
      requires input + availIn == supplied
      ensures Valid()
    {
      hide Buffers, Aligned, Hashed, Carried, Sent;
    }

    lemma SentGrows(n: nat, before: seq<byte>, more: seq<byte>)
      requires n <= |before| && Expand(tokens) == Some(before[..n]) && Sendable(tokens, maxDist) && InView(tokens, bases, 2 * wSize)
      requires Explained(Tuned(), before, missed, tokens, whys) && input == before + more
      ensures Sent(n)
    {
      hide *;
      assert input[..n] == before[..n];
      ExplainedGrows(Tuned(), before, missed, tokens, whys, more, missed);
      SentWhole(n);
    }

    lemma CarriedParts()
      requires Carried() && (matchAvailable ==> strstart >= 1)
      ensures matchLength <= MAX_MATCH && (matchLength >= MIN_MATCH ==> matchAvailable)
      ensures matchLength >= MIN_MATCH ==> Found(input, Pos() - 1, strstart - 1 - matchStart, matchLength, maxDist)
      ensures matchAvailable ==> look.p == Pos() - 1 && look.n == matchLength && Honest(Tuned(), input, missed, look, true)
                                 && |whys| == |tokens| && GoesOn(tokens, whys, look)
      ensures !matchAvailable ==> Fresh(tokens, whys)
    {
      hide Found, Honest, GoesOn, Fresh;
    }

    lemma CarriedGrows(before: seq<byte>, more: seq<byte>)
      requires matchLength <= MAX_MATCH && (matchLength >= MIN_MATCH ==> matchAvailable) && (matchAvailable ==> strstart >= 1)
      requires matchLength >= MIN_MATCH ==> Found(before, Pos() - 1, strstart - 1 - matchStart, matchLength, maxDist)
      requires matchAvailable ==> look.p == Pos() - 1 && look.n == matchLength && Honest(Tuned(), before, missed, look, true)
                                  && |whys| == |tokens| && GoesOn(tokens, whys, look)
      requires !matchAvailable ==> Fresh(tokens, whys)
      requires input == before + more
      ensures Carried()
    {
      hide Found, Honest, GoesOn, Fresh;
      if matchLength >= MIN_MATCH {
        FoundGrows(before, Pos() - 1, strstart - 1 - matchStart, matchLength, maxDist, more);
      }
      if matchAvailable {
        HonestGrows(Tuned(), before, missed, look, true, more, missed);
      }
    }

    lemma TwoThere()
      requires Buffers(Pos()) && Aligned() && lookahead >= MIN_MATCH
      ensures strstart + 1 < window.Length
    {
      hide Tables;
      ShowsTwo(window[..], input, base, strstart, strstart + lookahead);
    }

    lemma HashedNow()
      requires Buffers(Pos()) && Aligned() && strstart + lookahead <= 2 * wSize
      requires lookahead >= MIN_MATCH ==> insH == Update(window[strstart], window[strstart + 1], cf.HashShift(), cf.hashBits)
      ensures Hashed(Pos())
    {
      hide Tables, Primed;
      if lookahead >= MIN_MATCH {
        ShowsTwo(window[..], input, base, strstart, strstart + lookahead);
        PrimedByTwo(window[strstart], window[strstart + 1], cf.HashShift(), cf.hashBits);
      }
    }

    lemma WindowRoom()
      requires Buffers(Pos()) && Aligned()
      ensures strstart + lookahead <= 2 * wSize && wSize >= 512 && maxDist == wSize - 262 && MIN_LOOKAHEAD == 262
    {
      hide Tables;
      ShowsLength(window[..], input, base, strstart + lookahead);
    }

    lemma CarriedSlid(before: nat)
      requires matchLength <= MAX_MATCH && (matchLength >= MIN_MATCH ==> matchAvailable) && (matchAvailable ==> strstart >= 1)
      requires matchLength >= MIN_MATCH ==> Found(input, Pos() - 1, strstart - 1 - matchStart, matchLength, maxDist)
      requires matchAvailable ==> look.p == Pos() - 1 && look.n == matchLength && Honest(Tuned(), input, missed, look, true)
                                  && |whys| == |tokens| && GoesOn(tokens, whys, look)
      requires !matchAvailable ==> Fresh(tokens, whys)
      ensures Carried()
    {
      hide Found, Honest, GoesOn, Fresh;
    }

    /** fill_window */
    method FillWindow()
      requires Valid() && lookahead < MIN_LOOKAHEAD
      modifies this`strstart, this`matchStart, this`base, this`availIn, this`lookahead, this`input, this`insH,
               window, prev, head
      ensures Valid() && strstart <= 2 * wSize - MIN_LOOKAHEAD
      ensures lookahead >= MIN_LOOKAHEAD || availIn == []
      ensures supplied == old(supplied) && Pos() == old(Pos()) && lookahead >= old(lookahead)
    {
      hide Buffers, Aligned, Hashed, Carried, Sent, Consistent, Valid;
      while true
        invariant Valid() && lookahead < MIN_LOOKAHEAD
        invariant supplied == old(supplied) && Pos() == old(Pos()) && lookahead >= old(lookahead)
        decreases |availIn|
      {
        ValidParts();
        WindowRoom();
        var more := 2 * wSize - lookahead - strstart;
        if strstart >= wSize + maxDist {
          ghost var before := strstart;
          CarriedParts();
          Slide();
          more := more + wSize;
          CarriedSlid(before);
          ValidWhole();
        }
        if |availIn| == 0 {
          return;
        }
        Refill(more);
        if lookahead >= MIN_LOOKAHEAD || |availIn| == 0 {
          return;
        }
      }
    }

    // ----- the hash chains

    /** INSERT_STRING at the current position. */
    method InsertString() returns (hashHead: nat)
      requires Buffers(Pos()) && Hashed(Pos()) && Pos() + 2 < |input|
      modifies this`insH, this`ins, prev, head
      ensures Buffers(Pos() + 1) && Hashed(Pos() + 1) && ins == old(ins) + {Pos()} && Known(input, ins)
      ensures Linked(cf, input, base, ins, hashHead, HashAt(cf, input, Pos()), Pos())
    {
      hide Tables, Pow2, Shows, HashAt, Linked, Update, Primed, Hash3;
      ghost var p, w, h0, p0 := Pos(), window[..], head[..], prev[..];
      InsertKeepsTables(cf, h0, p0, input, base, ins, strstart);
      ShowsTwo(w, input, base, strstart, |input| - base);
      StringHash(cf, input, p, insH);
      insH := Update(insH, window[strstart + 2], cf.HashShift(), cf.hashBits);
      hashHead := head[insH];
      prev[strstart % wSize] := hashHead;
      head[insH] := strstart;
      ins := ins + {p};
      assert head[..] == h0[insH := strstart] && prev[..] == p0[strstart % wSize := hashHead];
      TablesInserted(cf, head[..], prev[..], input, base, ins, strstart, p + 1);
    }

    // ----- longest_match

    /** What longest_match may assume of a candidate: with three bytes of lookahead it is on the string's chain. */
    ghost predicate Candidate(cur: nat)
      reads `base, `strstart, `input, `ins, `lookahead
    {
      && cur <= strstart
      && (lookahead >= MIN_MATCH && Pos() + 2 < |input| ==>
            && base + cur in ins && base + cur < Pos() && base + cur + 2 < |input|
            && HashAt(cf, input, base + cur) == HashAt(cf, input, Pos()))
    }

    /** The comparison loop: the first two bytes are known to be equal, the third is not looked at. */
    method ScanMatch(cur: nat) returns (len: nat)
      requires Sizes() && cur <= strstart && strstart + MAX_MATCH < window.Length
      requires window[cur] == window[strstart] && window[cur + 1] == window[strstart + 1]
      ensures MIN_MATCH <= len <= MAX_MATCH
      ensures AgreesButThird(window[..], strstart, strstart - cur, len)
      ensures len < MAX_MATCH ==> window[strstart + len] != window[cur + len]
    {
      hide Config.Valid, Config.WSize, Pow2;
      len := 3;
      while len < MAX_MATCH && window[strstart + len] == window[cur + len]
        invariant 3 <= len <= MAX_MATCH
        invariant AgreesButThird(window[..], strstart, strstart - cur, len)
      {
        len := len + 1;
      }
    }

    /** The bytes checked before the comparison loop; 0 if the match cannot become longer than bestLen. */
    method TryMatch(cur: nat, bestLen: nat, ghost top: nat) returns (n: nat)
      requires Buffers(top) && Aligned() && strstart + MIN_LOOKAHEAD <= 2 * wSize
      requires 1 <= bestLen <= MAX_MATCH && Candidate(cur) && strstart - cur <= maxDist
      ensures n <= MAX_MATCH
      ensures n > 0 && lookahead >= MIN_MATCH ==>
                Found(input, Pos(), strstart - cur, if n <= lookahead then n else lookahead, maxDist)
      ensures AtMost(input, base + cur, Pos(), if n > bestLen then n else bestLen)
    {
      hide Tables, Pow2, Shows, HashAt, Config.WSize, Found, Repeats, AgreesButThird, Same, AtMost;
      if && window[cur + bestLen] == window[strstart + bestLen]
         && window[cur + bestLen - 1] == window[strstart + bestLen - 1]
         && window[cur] == window[strstart]
         && window[cur + 1] == window[strstart + 1]
      {
        n := ScanMatch(cur);
        DiffersAt(window[..], input, base, cur, strstart, strstart + lookahead, n);
        AtMostMore(input, base + cur, Pos(), n, if n > bestLen then n else bestLen);
        if lookahead >= MIN_MATCH {
          MatchFound(cf, window[..], input, base, ins, strstart, cur, lookahead, n, maxDist);
        }
      } else {
        DiffersWithin(window[..], input, base, cur, strstart, strstart + lookahead, bestLen);
        n := 0;
      }
    }

    /** v is the head of the chain of the string at strstart, unless too little of that is known. */
    ghost predicate AtHead(v: nat)
      reads `base, `strstart, `input, `ins, `lookahead
    {
      lookahead >= MIN_MATCH ==>
        Pos() + 2 < |input| && Known(input, ins) && Linked(cf, input, base, ins, v, HashAt(cf, input, Pos()), Pos())
    }

    /** The start of the part of the window that matches may come from. */
    function Limit(): nat
      reads `strstart
    {
      if strstart > maxDist then strstart - maxDist else 0
    }

    /** All but the strings at cur and before it have been looked at, and that many links are left. */
    ghost predicate Looking(cur: nat, chainLength: nat, chain: nat, bestLen: nat)
      reads `base, `strstart, `input, `ins, `lookahead
    {
      lookahead >= MIN_MATCH ==>
        && Pos() + 2 < |input| && Known(input, ins) && Beaten(input, ins, Pos(), base + cur, bestLen)
        && |Newer(cf, input, ins, base + cur, Pos())| + chainLength == chain
    }

    /** The loop of longest_match: along the chain, down to the limit, for so many links, or until a match is nice enough. */
    method FollowMatches(hashHead: nat, chain: nat, nice: nat, ghost top: nat) returns (bestLen: nat)
      requires Buffers(top) && Aligned() && strstart + MIN_LOOKAHEAD <= 2 * wSize && chain >= 1
      requires lookahead >= 1 && 1 <= prevLength <= MAX_MATCH && hashHead != 0 && AtHead(hashHead)
      requires Candidate(hashHead) && strstart - hashHead <= maxDist
      modifies this`matchStart
      ensures prevLength <= bestLen <= MAX_MATCH
      ensures bestLen > prevLength && lookahead >= MIN_MATCH ==>
                Found(input, Pos(), strstart - matchStart, if bestLen <= lookahead then bestLen else lookahead, maxDist)
      ensures lookahead >= MIN_MATCH ==> Thorough(cf, input, ins, Pos(), base + Limit(), chain, nice, bestLen)
      ensures AtMost(input, base + hashHead, Pos(), bestLen) || nice <= bestLen
    {
      hide Tables, Pow2, Shows, HashAt, Config.Valid, Config.WSize, Found, Repeats, Linked, Beaten, Newer, Thorough, AtMost, Same, Known,
        Candidate, Looking, AtHead, Buffers, Aligned;
      WindowSize(top);
      HeadKnown(hashHead);
      var chainLength := chain;
      var curMatch: nat := hashHead;
      bestLen := prevLength;
      var limit := if strstart > maxDist then strstart - maxDist else 0;
      LookFirst(hashHead, chain, bestLen);
      while true
        invariant chainLength >= 1 && Candidate(curMatch) && limit <= curMatch && curMatch != 0
        invariant prevLength <= bestLen <= MAX_MATCH
        invariant bestLen > prevLength && lookahead >= MIN_MATCH ==>
                    Found(input, Pos(), strstart - matchStart, if bestLen <= lookahead then bestLen else lookahead, maxDist)
        invariant Looking(curMatch, chainLength, chain, bestLen)
        invariant curMatch == hashHead || AtMost(input, base + hashHead, Pos(), bestLen)
        decreases chainLength
      {
        var n := TryMatch(curMatch, bestLen, top);
        ghost var before := bestLen;
        if n > bestLen {
          matchStart := curMatch;
          bestLen := n;
          if n >= nice {
            LookNice(chain, nice, bestLen);
            return;
          }
        }
        if curMatch != hashHead {
          AtMostMore(input, base + hashHead, Pos(), before, bestLen);
        }
        NextCandidate(curMatch, limit, top);
        LookOn(curMatch, prev[curMatch % wSize], chainLength, chain, before, bestLen);
        curMatch := prev[curMatch % wSize];
        if curMatch <= limit {
          LookLimit(curMatch, chainLength - 1, chain, nice, bestLen);
          return;
        }
        chainLength := chainLength - 1;
        if chainLength == 0 {
          LookUsed(curMatch, chain, nice, bestLen);
          return;
        }
      }
    }

    lemma HeadKnown(v: nat)
      requires AtHead(v)
      ensures lookahead >= MIN_MATCH ==> Known(input, ins) && Pos() + 2 < |input|
    {
    }

    /** longest_match: a result above prev_length is a real match at match_start.  The string at hash_head, and the last
        max_chain strings with the same hash within reach, a quarter of them if prev_length is good, have no longer match, unless
        the result is nice enough or all that is ahead. */
    method LongestMatch(hashHead: nat, ghost top: nat) returns (len: nat)
      requires Buffers(top) && Aligned() && strstart + MIN_LOOKAHEAD <= 2 * wSize
      requires lookahead >= 1 && 1 <= prevLength <= MAX_MATCH && hashHead != 0 && AtHead(hashHead)
      requires Candidate(hashHead) && strstart - hashHead <= maxDist
      modifies this`matchStart
      ensures 1 <= len <= lookahead && len <= MAX_MATCH
      ensures len > prevLength && len >= MIN_MATCH ==> Found(input, Pos(), strstart - matchStart, len, maxDist)
      ensures lookahead >= MIN_MATCH ==>
                Thorough(cf, input, ins, Pos(), base + (if strstart > maxDist then strstart - maxDist else 0),
                         if prevLength >= goodMatch then maxChain / 4 else maxChain,
                         if niceMatch > lookahead then lookahead else niceMatch, len)
      ensures AtMost(input, base + hashHead, Pos(), len) || len >= niceMatch || len == lookahead
    {
      hide Tables, Pow2, Shows, HashAt, Config.Valid, Config.WSize, Found, Repeats, Linked, Beaten, Newer, Thorough, AtMost, Same, Known,
        Candidate, Looking, AtHead, Buffers;
      WindowSize(top);
      HeadKnown(hashHead);
      var chainLength := maxChain;
      if prevLength >= goodMatch {
        chainLength := chainLength / 4;
      }
      var nice := if niceMatch > lookahead then lookahead else niceMatch;
      var bestLen := FollowMatches(hashHead, chainLength, nice, top);
      len := if bestLen <= lookahead then bestLen else lookahead;
      LookClipped(hashHead, chainLength, nice, bestLen);
    }

    lemma LookFirst(v: nat, chain: nat, n: nat)
      requires AtHead(v)
      ensures Looking(v, chain, chain, n)
    {
      if lookahead >= MIN_MATCH {
        HeadFirst(cf, input, base, ins, v, Pos(), n);
      }
    }

    lemma LookOn(cur: nat, next: nat, chainLength: nat, chain: nat, n: nat, n': nat)
      requires Looking(cur, chainLength, chain, n) && Candidate(cur) && Aligned() && n <= n' && cur != 0 && chainLength >= 1
      requires lookahead >= MIN_MATCH ==> Known(input, ins) && Linked(cf, input, base, ins, next, HashAt(cf, input, Pos()), base + cur)
      requires AtMost(input, base + cur, Pos(), n')
      ensures Looking(next, chainLength - 1, chain, n')
    {
      hide HashAt, Beaten, Newer, AtMost;
      if lookahead >= MIN_MATCH {
        assert next < cur;
        OneLink(cf, input, base, ins, base + cur, next, Pos(), n, n');
      }
    }

    lemma LookNice(chain: nat, nice: nat, n: nat)
      requires nice <= n && (lookahead >= MIN_MATCH ==> Known(input, ins) && Pos() + 2 < |input|)
      ensures lookahead >= MIN_MATCH ==> Thorough(cf, input, ins, Pos(), base + Limit(), chain, nice, n)
    {
      if lookahead >= MIN_MATCH {
        NiceFound(cf, input, ins, Pos(), base + Limit(), chain, nice, n);
      }
    }

    lemma LookLimit(cur: nat, chainLength: nat, chain: nat, nice: nat, n: nat)
      requires cur <= Limit() && Looking(cur, chainLength, chain, n)
      ensures lookahead >= MIN_MATCH ==>
                Known(input, ins) && Pos() + 2 < |input| && Thorough(cf, input, ins, Pos(), base + Limit(), chain, nice, n)
    {
      if lookahead >= MIN_MATCH {
        LimitReached(cf, input, ins, Pos(), base + cur, base + Limit(), chain, nice, n);
      }
    }

    lemma LookUsed(cur: nat, chain: nat, nice: nat, n: nat)
      requires Looking(cur, 0, chain, n)
      ensures lookahead >= MIN_MATCH ==>
                Known(input, ins) && Pos() + 2 < |input| && Thorough(cf, input, ins, Pos(), base + Limit(), chain, nice, n)
    {
      if lookahead >= MIN_MATCH {
        ChainUsed(cf, input, ins, Pos(), base + cur, base + Limit(), chain, nice, n);
      }
    }

    lemma LookClipped(v: nat, chain: nat, nice: nat, n: nat)
      requires Aligned() && nice <= lookahead && (AtMost(input, base + v, Pos(), n) || nice <= n)
      requires lookahead >= MIN_MATCH ==>
                 Known(input, ins) && Pos() + 2 < |input| && Thorough(cf, input, ins, Pos(), base + Limit(), chain, nice, n)
      ensures var len := if n <= lookahead then n else lookahead;
              && (lookahead >= MIN_MATCH ==> Thorough(cf, input, ins, Pos(), base + Limit(), chain, nice, len))
              && (AtMost(input, base + v, Pos(), len) || nice <= len)
    {
      hide Thorough, AtMost;
      if lookahead >= MIN_MATCH {
        Clipped(cf, input, ins, Pos(), base + Limit(), chain, nice, n, lookahead);
      }
      if AtMost(input, base + v, Pos(), n) {
        ClippedOne(input, base + v, Pos(), n, lookahead);
      }
    }

    /** The next entry of the chain, if it is above the limit, is a candidate again. */
    lemma NextCandidate(cur: nat, limit: nat, top: nat)
      requires Buffers(top) && Aligned() && Candidate(cur)
      requires limit <= cur && limit == if strstart > maxDist then strstart - maxDist else 0
      ensures cur % wSize < prev.Length
      ensures prev[cur % wSize] > limit ==> Candidate(prev[cur % wSize])
      ensures lookahead >= MIN_MATCH ==> Pos() + 2 < |input| && Known(input, ins)
                                         && Linked(cf, input, base, ins, prev[cur % wSize], HashAt(cf, input, Pos()), base + cur)
    {
      hide Tables, Shows, Pow2, HashAt, NoneSince, Config.Valid;
      WindowSize(top);
      PrevBelow(cf, head[..], prev[..], input, base, ins, strstart, top, cur % wSize);
      if lookahead >= MIN_MATCH {
        TablesInserted(cf, head[..], prev[..], input, base, ins, strstart, top);
        FollowChain(cf, head[..], prev[..], input, base, ins, strstart, top, cur);
      }
    }

    lemma WindowSize(top: nat)
      requires Buffers(top)
      ensures cf.WSize() == wSize == prev.Length >= 512 && maxChain >= 4 && maxDist == wSize - MIN_LOOKAHEAD
    {
      hide Tables, Shows;
    }

    /** The head of a freshly found chain is a candidate; so is anything when less than a string remains. */
    lemma ChainStarts(hashHead: nat)
      requires Aligned() && hashHead != 0 && hashHead <= strstart
      requires forall p :: p in ins ==> p + 2 < |input|
      requires lookahead >= MIN_MATCH ==> Linked(cf, input, base, ins, hashHead, HashAt(cf, input, Pos()), Pos())
      ensures Candidate(hashHead)
    {
    }

    /** The state of the buffers one position on, once the string at strstart has been dealt with. */
    method Step()
      requires Buffers(Pos() + 1)
      modifies this`strstart
      ensures Buffers(Pos()) && strstart == old(strstart) + 1 && Pos() == old(Pos()) + 1
    {
      TablesGrow(cf, head[..], prev[..], input, base, ins, strstart, Pos() + 1, [], strstart + 1, Pos() + 1);
      assert input + [] == input;
      hide Tables, Shows, Pow2, Config.Valid, Config.WSize;
      strstart := strstart + 1;
    }

    /** Insert the string at strstart if its bytes are known, else leave the tables alone and keep hash_head. */
    method InsertIfKnown(hashHead0: nat, known: bool) returns (hashHead: nat)
      requires Buffers(Pos()) && Hashed(Pos()) && known == (Pos() + 2 < |input|)
      modifies this`insH, this`ins, this`missed, prev, head
      ensures Buffers(Pos() + 1) && Hashed(Pos() + 1) && (!known ==> hashHead == hashHead0)
      ensures if known then ins == old(ins) + {Pos()} && missed == old(missed) else ins == old(ins) && missed == old(missed) + {Pos()}
    {
      hide Tables, Shows, Pow2, Config.Valid, Config.WSize, Primed;
      hashHead := hashHead0;
      if known {
        hashHead := InsertString();
      } else {
        TablesGrow(cf, head[..], prev[..], input, base, ins, strstart, Pos(), [], strstart, Pos() + 1);
        assert input + [] == input;
        missed := missed + {Pos()};
      }
    }

    /** _tr_tally for the byte at window index i; whether to flush the block is left open. */
    method TallyLiteral(i: nat, ghost y: Why) returns (bflush: bool)
      requires Buffers(Pos()) && base + i < |input| && Sent(base + i) && i + 1 < 2 * wSize
      requires Explains(Tuned(), input, missed, Token(0, input[base + i]), y) && y.here.p == base + i
      requires |whys| == |tokens| && (!y.Greedy? ==> GoesOn(tokens, whys, y.here))
      modifies this`tokens, this`bases, this`whys
      ensures Sent(base + i + 1) && tokens == old(tokens) + [Token(0, input[base + i])] && whys == old(whys) + [y]
    {
      hide *;
      ByteThere(i);
      ghost var t, x := Token(0, input[base + i]), input[..base + i];
      SentParts(base + i);
      LiteralExtends(tokens, input, base + i);
      SendableExtends(tokens, maxDist, t);
      ViewExtends(tokens, bases, 2 * wSize, t, base, input[..base + i + 1]);
      ExplainedMore(Tuned(), input, missed, tokens, whys, t, y);
      tokens, bases := tokens + [Token(0, window[i])], bases + [base];
      whys := whys + [y];
      bflush := *;
      SentWhole(base + i + 1);
    }

    lemma ByteThere(i: nat)
      requires Buffers(Pos()) && base + i < |input|
      ensures i < window.Length && window[i] == input[base + i] <= MAX_MATCH - MIN_MATCH
    {
      hide Tables;
      ShowsOne(window[..], input, base, i, |input| - base);
    }

    /** _tr_tally for a match of n bytes found at position p. */
    method TallyMatch(dist: nat, n: nat, ghost p: nat, ghost y: Why) returns (bflush: bool)
      requires Sent(p) && n >= MIN_MATCH && Found(input, p, dist, n, maxDist) && p + n < base + 2 * wSize
      requires Explains(Tuned(), input, missed, Token(dist, n - MIN_MATCH), y) && y.here.p == p
      requires |whys| == |tokens| && (!y.Greedy? ==> GoesOn(tokens, whys, y.here))
      modifies this`tokens, this`bases, this`whys
      ensures Sent(p + n) && tokens == old(tokens) + [Token(dist, n - MIN_MATCH)] && whys == old(whys) + [y]
    {
      FoundParts(input, p, dist, n, maxDist);
      hide *;
      ghost var t := Token(dist, n - MIN_MATCH);
      SentParts(p);
      MatchExtends(tokens, input, p, dist, n);
      SendableExtends(tokens, maxDist, t);
      ViewExtends(tokens, bases, 2 * wSize, t, base, input[..p + n]);
      ExplainedMore(Tuned(), input, missed, tokens, whys, t, y);
      tokens, bases := tokens + [Token(dist, n - MIN_MATCH)], bases + [base];
      whys := whys + [y];
      bflush := *;
      SentWhole(p + n);
    }

    lemma SentParts(n: nat)
      requires Sent(n)
      ensures n <= |input| && Expand(tokens) == Some(input[..n]) && Sendable(tokens, maxDist) && InView(tokens, bases, 2 * wSize)
      ensures Explained(Tuned(), input, missed, tokens, whys) && |whys| == |tokens|
    {
      hide ExpandOn, Sendable, InView, Explains;
    }

    lemma SentWhole(n: nat)
      requires n <= |input| && Expand(tokens) == Some(input[..n]) && Sendable(tokens, maxDist) && InView(tokens, bases, 2 * wSize)
      requires Explained(Tuned(), input, missed, tokens, whys)
      ensures Sent(n)
    {
      hide ExpandOn, Sendable, InView, Explained;
    }

    /** More strings missed leave the explanations true. */
    lemma MoreMissed(n: nat, before: set<nat>)
      requires n <= |input| && Expand(tokens) == Some(input[..n]) && Sendable(tokens, maxDist) && InView(tokens, bases, 2 * wSize)
      requires Explained(Tuned(), input, before, tokens, whys) && before <= missed
      ensures Sent(n)
    {
      hide *;
      ExplainedGrows(Tuned(), input, before, tokens, whys, [], missed);
      assert input + [] == input;
      SentWhole(n);
    }

    lemma StillLooked(l: Look, p: int, n: nat, before: set<nat>)
      requires l.p == p && l.n == n && Honest(Tuned(), input, before, l, true) && |whys| == |tokens| && GoesOn(tokens, whys, l)
      requires before <= missed
      ensures Looked(l, p, n)
    {
      hide Honest, GoesOn;
      HonestGrows(Tuned(), input, before, l, true, [], missed);
      assert input + [] == input;
    }

    /** The room left before strstart: with enough lookahead the window is not nearly full. */
    lemma RoomLeft()
      requires Valid() && lookahead >= MIN_LOOKAHEAD
      ensures strstart + MIN_LOOKAHEAD <= 2 * wSize && lookahead >= 1
    {
    }

    /** Insert the current string; near the end of the input hash_head keeps its last value. */
    method InsertOrKeep(hashHead0: nat) returns (hashHead: nat)
      requires Buffers(Pos()) && Aligned() && Hashed(Pos())
      modifies this`insH, this`ins, this`missed, prev, head
      ensures Buffers(Pos() + 1) && Hashed(Pos() + 1) && AtHead(hashHead)
      ensures hashHead != 0 && hashHead <= strstart ==> Candidate(hashHead)
      ensures if lookahead >= MIN_MATCH then ins == old(ins) + {Pos()} && missed == old(missed)
              else ins == old(ins) && missed == old(missed) + {Pos()}
    {
      hide Tables, Shows, Pow2, Config.Valid, Config.WSize, Primed, Linked, Candidate, HashAt;
      hashHead := hashHead0;
      if lookahead >= MIN_MATCH {
        hashHead := InsertString();
      } else {
        // too little input for a hash: hash_head keeps its value
        hashHead := InsertIfKnown(hashHead, false);
      }
      TablesInserted(cf, head[..], prev[..], input, base, ins, strstart, Pos() + 1);
      if hashHead != 0 && hashHead <= strstart {
        ChainStarts(hashHead);
      }
    }

    // ----- what was looked for

    /** The look at strstart, when `found` has been found and n is made of it. */
    ghost function LookNow(found: nat, n: nat): Look
      reads `base, `strstart, `input, `ins, `prevLength, `matchStart
    {
      Look(Pos(), |input|, ins, prevLength, found, strstart - matchStart, n)
    }

    /** n is what the strategy and the matcher make of a thorough search that found so much. */
    ghost predicate Judged(found: nat, n: nat, lazy: bool)
      reads `base, `strstart, `lookahead, `input, `ins, `prevLength, `matchStart
    {
      if strategy.HuffmanOnly? || lookahead < MIN_MATCH || (lazy && prevLength >= maxLazy) then n < MIN_MATCH
      else
        && Known(input, ins) && Pos() + 2 < |input|
        && Thorough(cf, input, ins, Pos(), base + Limit(), if prevLength >= goodMatch then maxChain / 4 else maxChain,
                    if niceMatch > lookahead then lookahead else niceMatch, found)
        && (found >= MIN_MATCH && found > prevLength ==> Found(input, Pos(), strstart - matchStart, found, maxDist))
        && n == if lazy && found <= 5 && (strategy.Filtered? || (found == 3 && strstart - matchStart > 4096)) then 2 else found
    }

    lemma HonestNow(found: nat, n: nat, lazy: bool)
      requires Aligned() && lookahead >= 1 && Accounted(ins, missed, Pos() + 1) && (base > 0 ==> strstart >= maxDist)
      requires Judged(found, n, lazy)
      ensures Honest(Tuned(), input, missed, LookNow(found, n), lazy)
    {
      hide Thorough, Found, Same;
      assert input[..|input|] == input;
      if found >= MIN_MATCH && found > prevLength && Found(input, Pos(), strstart - matchStart, found, maxDist) {
        FoundSame(input, Pos(), strstart - matchStart, found, maxDist);
      }
    }

    /** Without a head within reach there is nothing to search; nor is there after a match that the lazy matcher does not improve. */
    lemma NoHead(v: nat, n: nat, lazy: bool)
      requires AtHead(v) && Aligned() && n < MIN_MATCH && (lazy ==> n == 2)
      requires v == 0 || v > strstart || strstart - v > maxDist || (lazy && prevLength >= maxLazy)
      ensures Judged(n, n, lazy)
    {
      if lookahead >= MIN_MATCH && (v == 0 || v > strstart || strstart - v > maxDist) {
        HeadFirst(cf, input, base, ins, v, Pos(), n);
        hide Beaten, Newer, Thorough, HashAt, NoneSince;
        LimitReached(cf, input, ins, Pos(), base + v, base + Limit(), if prevLength >= goodMatch then maxChain / 4 else maxChain,
                     if niceMatch > lookahead then lookahead else niceMatch, n);
      }
    }

    lemma AllAccounted(top: nat)
      requires Buffers(top)
      ensures Accounted(ins, missed, top) && (base > 0 ==> strstart >= maxDist)
    {
      hide Tables, Shows;
    }

    // ----- deflate_fast

    /** What deflate_fast finds on entry and leaves on return. */
    ghost predicate FastReady()
      reads `matchAvailable, `matchLength, `prevLength
    {
      !matchAvailable && matchLength < MIN_MATCH && prevLength == MIN_MATCH - 1
    }

    /** The match branch of deflate_fast: send the match, then insert the strings it covers or skip them. */
    method FastMatch(hashHead0: nat, ghost l: Look) returns (bflush: bool, hashHead: nat)
      requires Buffers(Pos() + 1) && Aligned() && Hashed(Pos() + 1) && Sent(Pos())
      requires strstart + MIN_LOOKAHEAD <= 2 * wSize && !matchAvailable && prevLength == MIN_MATCH - 1
      requires MIN_MATCH <= matchLength <= lookahead
      requires Found(input, Pos(), strstart - matchStart, matchLength, maxDist)
      requires Honest(Tuned(), input, missed, l, false) && l.p == Pos() && l.n == matchLength
      modifies this`tokens, this`bases, this`whys, this`strstart, this`lookahead, this`matchLength, this`insH, this`ins, this`missed,
               prev, head
      ensures Consistent() && FastReady() && Pos() > old(Pos())
      ensures whys == old(whys) + [Greedy(l)]
      ensures missed == old(missed) + if l.n <= maxInsert && old(Pos()) + l.n + MIN_MATCH <= |input| then {}
                                      else Between(old(Pos()), old(Pos()) + l.n)
    {
      hide *;
      FoundAhead();
      ghost var p, e, before := Pos(), Pos() + matchLength, missed;
      SentParts(p);
      GreedyMatch(Tuned(), input, missed, Token(strstart - matchStart, matchLength - MIN_MATCH), l);
      bflush := TallyMatch(strstart - matchStart, matchLength, p, Greedy(l));
      SentParts(e);
      MatchFresh(tokens, whys);
      lookahead := lookahead - matchLength;
      hashHead := hashHead0;
      if matchLength <= maxInsert && lookahead >= MIN_MATCH {
        hashHead := InsertMatched(hashHead, e);
        assert before + {} == before;
      } else {
        SkipTo(matchLength);
        matchLength := 0;
        Reprime();
      }
      MoreMissed(e, before);
      FastConsistent();
    }

    lemma FoundAhead()
      requires Aligned() && MIN_MATCH <= matchLength <= lookahead && Found(input, Pos(), strstart - matchStart, matchLength, maxDist)
      requires strstart + MIN_LOOKAHEAD <= 2 * wSize
      ensures 1 <= strstart - matchStart <= maxDist && 3 <= matchLength <= 258 && MIN_MATCH == 3 && Pos() + matchLength < base + 2 * wSize
      ensures strstart + matchLength + 1 < 2 * wSize && |input| == Pos() + lookahead && Pos() == base + strstart
    {
      hide Repeats;
    }

    lemma FastConsistent()
      requires Buffers(Pos()) && |input| == Pos() + lookahead && Hashed(Pos()) && Sent(Pos())
      requires !matchAvailable && matchLength < MIN_MATCH && Fresh(tokens, whys) && prevLength == MIN_MATCH - 1
      ensures Consistent() && FastReady()
    {
      hide Buffers, Hashed, Sent, Fresh;
    }

    /** Insert the strings at the positions that the match covers; hash_head is the chain of the last one. */
    method InsertMatched(hashHead0: nat, ghost e: nat) returns (hashHead: nat)
      requires Buffers(Pos() + 1) && Hashed(Pos() + 1)
      requires matchLength >= 1 && e == Pos() + matchLength && |input| == e + lookahead && lookahead >= MIN_MATCH
      modifies this`strstart, this`matchLength, this`insH, this`ins, this`missed, prev, head
      ensures Buffers(Pos()) && Hashed(Pos()) && Pos() == e && matchLength == 0 && missed == old(missed)
    {
      hide Buffers, Hashed;
      matchLength := matchLength - 1;
      hashHead := hashHead0;
      while matchLength != 0
        invariant Buffers(Pos() + 1) && Hashed(Pos() + 1) && missed == old(missed)
        invariant Pos() + 1 + matchLength == e && |input| == e + lookahead
      {
        Step();
        hashHead := InsertIfKnown(hashHead, true);
        matchLength := matchLength - 1;
      }
      Step();
    }

    /** Set up the hash afresh for the string at strstart; it is garbage, and unused, near the end. */
    method Reprime()
      requires Buffers(Pos()) && strstart + 1 < 2 * wSize
      modifies this`insH
      ensures Hashed(Pos())
    {
      hide Tables, Pow2, Config.Valid, Config.WSize, Primed;
      insH := Update(window[strstart], window[strstart + 1], cf.HashShift(), cf.hashBits);
      if Pos() + 2 < |input| {
        ShowsTwo(window[..], input, base, strstart, |input| - base);
      }
      PrimedByTwo(window[strstart], window[strstart + 1], cf.HashShift(), cf.hashBits);
    }

    /** Move on without inserting. */
    method SkipTo(n: nat)
      requires Buffers(Pos() + 1) && n >= 1
      modifies this`strstart, this`missed
      ensures Buffers(Pos()) && strstart == old(strstart) + n && Pos() == old(Pos()) + n && missed == old(missed) + Between(old(Pos()), Pos())
    {
      TablesGrow(cf, head[..], prev[..], input, base, ins, strstart, Pos() + 1, [], strstart + n, Pos() + n);
      assert input + [] == input;
      hide Tables, Shows, Pow2, Config.Valid, Config.WSize;
      missed := missed + Between(Pos(), Pos() + n);
      strstart := strstart + n;
    }

    method FastSearch(hashHead: nat)
      requires Buffers(Pos() + 1) && Aligned() && strstart + MIN_LOOKAHEAD <= 2 * wSize
      requires lookahead >= 1 && prevLength == MIN_MATCH - 1 && matchLength < MIN_MATCH
      requires hashHead != 0 && AtHead(hashHead) && Candidate(hashHead) && strstart - hashHead <= maxDist
      modifies this`matchStart, this`matchLength
      ensures matchLength >= MIN_MATCH ==>
                matchLength <= lookahead && Found(input, Pos(), strstart - matchStart, matchLength, maxDist)
      ensures matchLength <= 258
      ensures Judged(matchLength, matchLength, false)
    {
      hide Buffers, Aligned, AtHead, Candidate, Linked, HashAt, Thorough, Found, AtMost, Known;
      HeadKnown(hashHead);
      if strategy != HuffmanOnly {
        matchLength := LongestMatch(hashHead, Pos() + 1);
      }
    }

    /** Insert the current string and look for a match; hashHead keeps its last value near the end of the input. */
    method FastFind(hashHead0: nat) returns (hashHead: nat, ghost l: Look)
      requires Valid() && FastReady() && lookahead >= 1 && strstart + MIN_LOOKAHEAD <= 2 * wSize
      modifies this`insH, this`ins, this`missed, this`matchStart, this`matchLength, prev, head
      ensures Buffers(Pos() + 1) && Hashed(Pos() + 1) && Sent(Pos()) && Fresh(tokens, whys)
      ensures matchLength >= MIN_MATCH ==>
                matchLength <= lookahead && Found(input, Pos(), strstart - matchStart, matchLength, maxDist)
      ensures Honest(Tuned(), input, missed, l, false) && l.p == Pos() && l.n == matchLength && l.prevLen == 2 && l.n <= 258
      ensures missed == old(missed) + if lookahead >= MIN_MATCH then {} else {Pos()}
    {
      hide Buffers, Hashed, Sent, Found, Honest, Explains, Fresh, Consistent, GoesOn, ExpandOn, InView, Sendable, Explained, Tuned,
        MissedLate, Looked, Searched, AtHead, Candidate, Thorough, LookNow, Known, AtMost, Judged, Accounted;
      FastParts();
      ghost var before := missed;
      SentParts(Pos());
      hashHead := InsertOrKeep(hashHead0);
      MoreMissed(Pos(), before);
      AllAccounted(Pos() + 1);
      HeadKnown(hashHead);
      if hashHead != 0 && hashHead <= strstart && strstart - hashHead <= maxDist {
        FastSearch(hashHead);
      } else {
        NoHead(hashHead, matchLength, false);
      }
      HonestNow(matchLength, matchLength, false);
      l := LookNow(matchLength, matchLength);
      LookNowIs(matchLength, matchLength);
    }

    lemma LookNowIs(found: nat, n: nat)
      ensures var l := LookNow(found, n); l.p == Pos() && l.n == n && l.prevLen == prevLength && MIN_MATCH - 1 == 2
    {
    }

    /** No match: send the byte at strstart as a literal. */
    method FastLiteral(ghost l: Look) returns (bflush: bool)
      requires Buffers(Pos() + 1) && Aligned() && Hashed(Pos() + 1) && Sent(Pos())
      requires !matchAvailable && matchLength < MIN_MATCH && prevLength == MIN_MATCH - 1 && lookahead >= 1
      requires strstart + MIN_LOOKAHEAD <= 2 * wSize
      requires Honest(Tuned(), input, missed, l, false) && l.p == Pos() && l.n == matchLength
      modifies this`tokens, this`bases, this`whys, this`strstart, this`lookahead
      ensures Consistent() && FastReady() && Pos() > old(Pos())
      ensures whys == old(whys) + [Greedy(l)]
    {
      hide *;
      OneAhead();
      SentParts(Pos());
      GreedyLiteral(Tuned(), input, missed, input[Pos()], l);
      Step();
      bflush := TallyLiteral(strstart - 1, Greedy(l));
      LiteralFresh(old(tokens), old(whys), input[Pos() - 1], l);
      lookahead := lookahead - 1;
      FastConsistent();
    }

    lemma OneAhead()
      requires Aligned() && lookahead >= 1 && strstart + MIN_LOOKAHEAD <= 2 * wSize
      ensures Pos() < |input| == Pos() + lookahead && Pos() == base + strstart && strstart + 1 < 2 * wSize
    {
    }

    /** Send the match that was found, or a byte. */
    method FastEmit(hashHead0: nat, ghost l: Look) returns (bflush: bool, hashHead: nat)
      requires Buffers(Pos() + 1) && Aligned() && Hashed(Pos() + 1) && Sent(Pos())
      requires strstart + MIN_LOOKAHEAD <= 2 * wSize && !matchAvailable && prevLength == MIN_MATCH - 1 && lookahead >= 1
      requires matchLength >= MIN_MATCH ==>
                 matchLength <= lookahead && Found(input, Pos(), strstart - matchStart, matchLength, maxDist)
      requires Honest(Tuned(), input, missed, l, false) && l.p == Pos() && l.n == matchLength
      modifies this`tokens, this`bases, this`whys, this`strstart, this`lookahead, this`matchLength, this`insH, this`ins, this`missed,
               prev, head
      ensures Consistent() && FastReady() && Pos() > old(Pos())
      ensures whys == old(whys) + [Greedy(l)]
      ensures missed == old(missed) + if l.n < MIN_MATCH || (l.n <= maxInsert && old(Pos()) + l.n + MIN_MATCH <= |input|) then {}
                                      else Between(old(Pos()), old(Pos()) + l.n)
    {
      hide *;
      hashHead := hashHead0;
      if matchLength >= MIN_MATCH {
        bflush, hashHead := FastMatch(hashHead, l);
      } else {
        bflush := FastLiteral(l);
        assert missed + {} == missed;
      }
    }

    lemma FastParts()
      requires Valid() && FastReady()
      ensures Aligned() && Sent(Pos()) && Fresh(tokens, whys) && Buffers(Pos()) && Hashed(Pos())
      ensures !matchAvailable && matchLength < MIN_MATCH && prevLength == MIN_MATCH - 1 == 2
    {
      hide Sent, Fresh, Buffers, Hashed;
    }

    /** What has been read ahead; all there is unless the lookahead is long enough. */
    lemma ReadAhead()
      requires Valid() && (lookahead >= MIN_LOOKAHEAD || availIn == [])
      ensures |input| == Pos() + lookahead && (lookahead >= 262 || Pos() + lookahead == |supplied|) && MIN_LOOKAHEAD == 262
      ensures input + availIn == supplied
    {
      hide Buffers, Hashed, Sent, Carried;
    }

    lemma ConsistentValid()
      requires Consistent() && input + availIn == supplied
      ensures Valid()
    {
      hide Consistent;
    }

    /** One round of deflate_fast. */
    method FastRound(hashHead0: nat) returns (bflush: bool, hashHead: nat)
      requires Valid() && FastReady() && lookahead >= 1 && strstart + MIN_LOOKAHEAD <= 2 * wSize
      requires lookahead >= MIN_LOOKAHEAD || availIn == []
      modifies this`tokens, this`bases, this`whys, this`strstart, this`lookahead, this`matchStart, this`matchLength, this`insH,
               this`ins, this`missed, prev, head
      ensures Valid() && FastReady() && Pos() > old(Pos())
      ensures |whys| == |old(whys)| + 1 && old(whys) <= whys && whys[|old(whys)|].Greedy?
      ensures MissedInside(old(missed), missed, whys, |old(whys)|, maxInsert, |supplied|)
    {
      hide *;
      ReadAhead();
      FastParts();
      ghost var p, ahead, l := Pos(), lookahead, look;
      hashHead, l := FastFind(hashHead0);
      ghost var found := missed;
      bflush, hashHead := FastEmit(hashHead, l);
      GreedyRound(old(missed), found, missed, old(whys), l, p, ahead, maxInsert, |supplied|);
      ConsistentValid();
    }

    /** deflate_fast: what is sent is what a thorough search found, and the only strings that it does not find are at the end of the
        input or inside a match that is too long to insert. */
    method DeflateFast(flush: Flush) returns (state: BlockState)
      requires Valid() && FastReady()
      modifies this, window, prev, head
      ensures Valid() && FastReady() && supplied == old(supplied) && old(Pos()) <= Pos() <= |supplied|
      ensures flush != NoFlush && state != NeedMore ==> Expand(tokens) == Some(supplied) && |supplied| < base + 2 * wSize
      ensures flush == NoFlush ==> state == NeedMore
      ensures flush == Finish && state == NeedMore ==> Pos() > old(Pos())
      ensures old(whys) <= whys && forall i :: |old(whys)| <= i < |whys| ==> whys[i].Greedy?
      ensures MissedInside(old(missed), missed, whys, |old(whys)|, maxInsert, |supplied|)
    {
      hide *;
      var hashHead := 0;
      PosBounded();
      NoneInside(missed, whys, maxInsert, |supplied|);
      while true
        invariant Valid() && FastReady() && supplied == old(supplied) && old(Pos()) <= Pos() <= |supplied|
        invariant old(whys) <= whys && forall i :: |old(whys)| <= i < |whys| ==> whys[i].Greedy?
        invariant MissedInside(old(missed), missed, whys, |old(whys)|, maxInsert, |supplied|)
        decreases |supplied| - Pos()
      {
        if lookahead < MIN_LOOKAHEAD {
          FillWindow();
          if lookahead < MIN_LOOKAHEAD && flush == NoFlush {
            return NeedMore;
          }
          if lookahead == 0 {
            break;
          }
        } else {
          RoomLeft();
        }
        ghost var before, sent := missed, whys;
        var bflush;
        bflush, hashHead := FastRound(hashHead);
        InsideMore(old(missed), before, missed, sent, whys, |old(whys)|, maxInsert, |supplied|);
        PosBounded();
        if bflush {
          if * {
            return NeedMore;
          }
        }
      }
      FastParts();
      AllSent();
      if * {
        return if flush == Finish then FinishStarted else NeedMore;
      }
      return if flush == Finish then FinishDone else BlockDone;
    }

    // ----- deflate_slow

    /** What deflate_slow finds on entry and leaves on return. */
    ghost predicate SlowReady()
      reads `matchLength
    {
      matchLength >= 1
    }

    /** After the search l: the match set aside, and a better one if the search found it, are real. */
    ghost predicate Searched(l: Look)
      reads this, window, prev, head
    {
      && Buffers(Pos() + 1) && Aligned() && Hashed(Pos() + 1) && lookahead >= 1 && strstart + MIN_LOOKAHEAD <= 2 * wSize
      && 1 <= matchLength <= MAX_MATCH && (matchAvailable ==> strstart >= 1)
      && Sent(if matchAvailable then Pos() - 1 else Pos())
      && (prevLength >= MIN_MATCH ==>
            matchAvailable && Found(input, Pos() - 1, strstart - 1 - prevMatch, prevLength, maxDist))
      && (matchLength >= MIN_MATCH && matchLength > prevLength ==>
            Found(input, Pos(), strstart - matchStart, matchLength, maxDist))
      && Honest(Tuned(), input, missed, l, true) && l.p == Pos() && l.n == matchLength && l.prevLen == prevLength
      && if matchAvailable then Looked(look, Pos() - 1, prevLength) else Fresh(tokens, whys)
    }

    /** Insert the current string, set the match of the previous position aside and look for a better one. */
    method SlowFind(hashHead0: nat) returns (hashHead: nat, ghost l: Look)
      requires Valid() && SlowReady() && lookahead >= 1 && strstart + MIN_LOOKAHEAD <= 2 * wSize
      modifies this`insH, this`ins, this`missed, this`matchStart, this`matchLength, this`prevLength, this`prevMatch, prev, head
      ensures Searched(l) && missed == old(missed) + if lookahead >= MIN_MATCH then {} else {Pos()}
    {
      hide *;
      SlowParts();
      hashHead := SlowInsert(hashHead0);
      prevLength, prevMatch := matchLength, matchStart;
      matchLength := MIN_MATCH - 1;
      l := SlowLook(hashHead);
      SearchedWhole(l);
    }

    /** Look for a match where one may be found, and may be wanted. */
    method SlowLook(hashHead: nat) returns (ghost l: Look)
      requires Buffers(Pos() + 1) && Aligned() && strstart + MIN_LOOKAHEAD <= 2 * wSize
      requires lookahead >= 1 && 1 <= prevLength <= MAX_MATCH && matchLength == MIN_MATCH - 1
      requires AtHead(hashHead) && (hashHead != 0 && hashHead <= strstart ==> Candidate(hashHead))
      modifies this`matchStart, this`matchLength
      ensures 1 <= matchLength <= MAX_MATCH
      ensures matchLength >= MIN_MATCH && matchLength > prevLength ==>
                Found(input, Pos(), strstart - matchStart, matchLength, maxDist)
      ensures Honest(Tuned(), input, missed, l, true) && l.p == Pos() && l.n == matchLength && l.prevLen == prevLength
    {
      hide Buffers, Aligned, AtHead, Candidate, Found, Judged, Honest, Accounted, Tuned;
      AllAccounted(Pos() + 1);
      ghost var found := 2;
      if hashHead != 0 && prevLength < maxLazy && hashHead <= strstart && strstart - hashHead <= maxDist {
        found := SlowSearch(hashHead);
      } else {
        NoHead(hashHead, 2, true);
      }
      HonestNow(found, matchLength, true);
      l := LookNow(found, matchLength);
    }

    /** The insertion leaves what has been sent, and the look at the position before, explained. */
    method SlowInsert(hashHead0: nat) returns (hashHead: nat)
      requires Valid() && SlowReady() && lookahead >= 1
      modifies this`insH, this`ins, this`missed, prev, head
      ensures Buffers(Pos() + 1) && Hashed(Pos() + 1) && AtHead(hashHead)
      ensures hashHead != 0 && hashHead <= strstart ==> Candidate(hashHead)
      ensures missed == old(missed) + if lookahead >= MIN_MATCH then {} else {Pos()}
      ensures Sent(if matchAvailable then Pos() - 1 else Pos())
      ensures if matchAvailable then Looked(look, Pos() - 1, matchLength) else Fresh(tokens, whys)
    {
      hide *;
      SlowParts();
      ghost var before, done := missed, if matchAvailable then Pos() - 1 else Pos();
      SentParts(done);
      hashHead := InsertOrKeep(hashHead0);
      MoreMissed(done, before);
      if matchAvailable {
        StillLooked(look, Pos() - 1, matchLength, before);
      }
    }

    lemma SlowParts()
      requires Valid() && SlowReady()
      ensures Buffers(Pos()) && Aligned() && Hashed(Pos()) && (matchAvailable ==> strstart >= 1)
      ensures Sent(if matchAvailable then Pos() - 1 else Pos())
      ensures 1 <= matchLength <= MAX_MATCH == 258 && MIN_MATCH == 3
      ensures matchLength >= MIN_MATCH ==>
                matchAvailable && Found(input, Pos() - 1, strstart - 1 - matchStart, matchLength, maxDist)
      ensures if matchAvailable then Looked(look, Pos() - 1, matchLength) else Fresh(tokens, whys)
      ensures matchAvailable ==> look.p == Pos() - 1 && look.n == matchLength && Honest(Tuned(), input, missed, look, true)
                                 && |whys| == |tokens| && GoesOn(tokens, whys, look)
    {
      hide Sent, Fresh, Buffers, Hashed, Found, Honest, GoesOn;
    }

    lemma SearchedWhole(l: Look)
      requires Buffers(Pos() + 1) && Aligned() && Hashed(Pos() + 1) && lookahead >= 1 && strstart + MIN_LOOKAHEAD <= 2 * wSize
      requires 1 <= matchLength <= MAX_MATCH && (matchAvailable ==> strstart >= 1)
      requires Sent(if matchAvailable then Pos() - 1 else Pos())
      requires prevLength >= MIN_MATCH ==>
                 matchAvailable && Found(input, Pos() - 1, strstart - 1 - prevMatch, prevLength, maxDist)
      requires matchLength >= MIN_MATCH && matchLength > prevLength ==>
                 Found(input, Pos(), strstart - matchStart, matchLength, maxDist)
      requires Honest(Tuned(), input, missed, l, true) && l.p == Pos() && l.n == matchLength && l.prevLen == prevLength
      requires if matchAvailable then Looked(look, Pos() - 1, prevLength) else Fresh(tokens, whys)
      ensures Searched(l)
    {
      hide Buffers, Aligned, Hashed, Sent, Found, Honest, Looked, Fresh;
    }

    lemma SearchedParts(l: Look)
      requires Searched(l)
      ensures Buffers(Pos() + 1) && Aligned() && Hashed(Pos() + 1) && lookahead >= 1 && strstart + MIN_LOOKAHEAD <= 2 * wSize
      ensures 1 <= matchLength <= MAX_MATCH == 258 && (matchAvailable ==> strstart >= 1) && MIN_MATCH == 3
      ensures Sent(if matchAvailable then Pos() - 1 else Pos())
      ensures prevLength >= MIN_MATCH ==>
                && matchAvailable && Found(input, Pos() - 1, strstart - 1 - prevMatch, prevLength, maxDist)
                && 1 <= strstart - 1 - prevMatch <= maxDist && prevLength <= 258 && Pos() - 1 + prevLength <= |input|
      ensures matchLength >= MIN_MATCH && matchLength > prevLength ==>
                Found(input, Pos(), strstart - matchStart, matchLength, maxDist)
      ensures Honest(Tuned(), input, missed, l, true) && l.p == Pos() && l.n == matchLength && l.prevLen == prevLength
      ensures if matchAvailable then Looked(look, Pos() - 1, prevLength) else Fresh(tokens, whys)
      ensures matchAvailable ==> look.p == Pos() - 1 && look.n == prevLength && Honest(Tuned(), input, missed, look, true)
                                 && |whys| == |tokens| && GoesOn(tokens, whys, look)
      ensures |input| == Pos() + lookahead && Pos() == base + strstart && MIN_LOOKAHEAD == 262 && |whys| == |tokens|
    {
      hide Buffers, Hashed, Sent, Honest, GoesOn, Repeats, Found;
      if prevLength >= MIN_MATCH {
        FoundBounds(input, Pos() - 1, strstart - 1 - prevMatch, prevLength, maxDist);
      }
      SentParts(if matchAvailable then Pos() - 1 else Pos());
    }

    /** Look for a match at the current position, and drop a short one that is too far to pay. */
    method SlowSearch(hashHead: nat) returns (ghost found: nat)
      requires Buffers(Pos() + 1) && Aligned() && strstart + MIN_LOOKAHEAD <= 2 * wSize
      requires lookahead >= 1 && 1 <= prevLength <= MAX_MATCH && prevLength < maxLazy && matchLength == MIN_MATCH - 1
      requires hashHead != 0 && AtHead(hashHead) && Candidate(hashHead) && strstart - hashHead <= maxDist
      modifies this`matchStart, this`matchLength
      ensures 1 <= matchLength <= MAX_MATCH
      ensures matchLength >= MIN_MATCH && matchLength > prevLength ==>
                Found(input, Pos(), strstart - matchStart, matchLength, maxDist)
      ensures Judged(found, matchLength, true)
    {
      hide Buffers, Aligned, AtHead, Candidate, Linked, HashAt, Thorough, Found, AtMost, Known;
      HeadKnown(hashHead);
      if strategy != HuffmanOnly {
        matchLength := LongestMatch(hashHead, Pos() + 1);
      }
      found := matchLength;
      if matchLength <= 5
         && (strategy == Filtered || (matchLength == MIN_MATCH && strstart - matchStart > TOO_FAR))
      {
        matchLength := MIN_MATCH - 1;
      }
    }

    /** Send the match of the previous position and insert the strings that it covers. */
    method SlowMatch(hashHead0: nat, ghost l: Look) returns (bflush: bool, hashHead: nat)
      requires Searched(l) && prevLength >= MIN_MATCH && matchLength <= prevLength
      modifies this`tokens, this`bases, this`whys, this`strstart, this`lookahead, this`prevLength, this`matchAvailable, this`matchLength,
               this`insH, this`ins, this`missed, prev, head
      ensures Consistent() && SlowReady() && old(Pos()) < Pos() <= old(Pos()) + 257
      ensures whys == old(whys) + [Lazy(old(look), l)] && MissedLate(old(missed), missed, |input|, Pos())
    {
      hide *;
      SearchedParts(l);
      var maxInsert: int := strstart + lookahead - MIN_MATCH;
      ghost var p, e, before := Pos() - 1, Pos() - 1 + prevLength, missed;
      LazyMatch(Tuned(), input, missed, Token(strstart - 1 - prevMatch, prevLength - MIN_MATCH), look, l);
      bflush := TallyMatch(strstart - 1 - prevMatch, prevLength, p, Lazy(look, l));
      SentParts(e);
      MatchFresh(tokens, whys);
      lookahead := lookahead - (prevLength - 1);
      prevLength := prevLength - 2;
      hashHead := InsertCovered(hashHead0, maxInsert, e);
      matchAvailable := false;
      matchLength := MIN_MATCH - 1;
      LateSuperset(before, missed, |input|, e);
      Step();
      MoreMissed(e, before);
      SlowConsistent();
    }

    lemma SlowConsistent()
      requires Buffers(Pos()) && |input| == Pos() + lookahead && Hashed(Pos()) && Sent(Pos())
      requires !matchAvailable && matchLength == 2 && Fresh(tokens, whys)
      ensures Consistent() && SlowReady()
    {
      hide Buffers, Hashed, Sent, Fresh;
    }

    /** Insert the remaining strings that the match covers, as far as their bytes are known. */
    method InsertCovered(hashHead0: nat, maxInsert: int, ghost e: nat) returns (hashHead: nat)
      requires Buffers(Pos() + 1) && Hashed(Pos() + 1)
      requires prevLength >= 1 && e == Pos() + 1 + prevLength && |input| == e + lookahead
      requires base + maxInsert == |input| - MIN_MATCH
      modifies this`strstart, this`prevLength, this`insH, this`ins, this`missed, prev, head
      ensures Buffers(Pos() + 1) && Hashed(Pos() + 1) && Pos() + 1 == e && prevLength == 0
      ensures MissedLate(old(missed), missed, |input|, e)
    {
      hide Buffers, Hashed;
      hashHead := hashHead0;
      while prevLength != 0
        invariant Buffers(Pos() + 1) && Hashed(Pos() + 1) && MissedLate(old(missed), missed, |input|, Pos() + 1)
        invariant Pos() + 1 + prevLength == e && |input| == e + lookahead
      {
        Step();
        hashHead := InsertIfKnown(hashHead, strstart <= maxInsert);
        prevLength := prevLength - 1;
      }
    }

    /** Without a better match before it: the previous byte, if one waits, is a literal; the current one waits. */
    method SlowLiteral(ghost l: Look)
      requires Searched(l) && (prevLength < MIN_MATCH || matchLength > prevLength)
      modifies this`tokens, this`bases, this`whys, this`look, this`strstart, this`lookahead, this`matchAvailable
      ensures Consistent() && SlowReady() && Pos() == old(Pos()) + 1
      ensures whys == old(whys) + if old(matchAvailable) then [Lazy(old(look), l)] else []
    {
      hide *;
      SearchedParts(l);
      Step();
      if matchAvailable {
        OneBehind();
        LazyLiteral(Tuned(), input, missed, input[Pos() - 2], look, l);
        var _ := TallyLiteral(strstart - 2, Lazy(look, l));
        GoesOnNext(old(tokens), old(whys), input[Pos() - 2], look, l);
      } else {
        GoesOnFresh(tokens, whys, l);
        assert whys + [] == whys;
        matchAvailable := true;
      }
      look := l;
      lookahead := lookahead - 1;
      WaitsConsistent();
    }

    lemma OneBehind()
      requires Pos() <= |input| + 1 && 2 <= strstart <= 2 * wSize
      ensures Pos() - 2 < |input| && strstart - 1 < 2 * wSize
    {
    }

    lemma WaitsConsistent()
      requires Buffers(Pos()) && |input| == Pos() + lookahead && Hashed(Pos()) && matchAvailable && strstart >= 1 && Sent(Pos() - 1)
      requires 1 <= matchLength <= MAX_MATCH
      requires matchLength >= MIN_MATCH ==> Found(input, Pos() - 1, strstart - 1 - matchStart, matchLength, maxDist)
      requires look.p == Pos() - 1 && look.n == matchLength && Honest(Tuned(), input, missed, look, true)
      requires |whys| == |tokens| && GoesOn(tokens, whys, look)
      ensures Consistent() && SlowReady()
    {
      hide Buffers, Hashed, Sent, Found, Honest, GoesOn;
    }

    /** One round of deflate_slow after the search. */
    method SlowEmit(hashHead0: nat, ghost l: Look) returns (bflush: bool, hashHead: nat)
      requires Searched(l)
      modifies this`tokens, this`bases, this`whys, this`look, this`strstart, this`lookahead, this`prevLength, this`matchAvailable,
               this`matchLength, this`insH, this`ins, this`missed, prev, head
      ensures Consistent() && SlowReady() && old(Pos()) < Pos() <= old(Pos()) + 257
      ensures whys == old(whys) + if old(matchAvailable) then [Lazy(old(look), l)] else []
      ensures MissedLate(old(missed), missed, |input|, Pos())
    {
      hide *;
      SearchedParts(l);
      hashHead := hashHead0;
      if prevLength >= MIN_MATCH && matchLength <= prevLength {
        bflush, hashHead := SlowMatch(hashHead, l);
      } else {
        SlowLiteral(l);
        bflush := *;
        NoneMissed(missed, |input|, Pos());
      }
    }

    /** At the end of the input: send the byte that still waits. */
    method SlowTail()
      requires Valid() && SlowReady() && lookahead == 0 && strstart + MIN_LOOKAHEAD <= 2 * wSize
      modifies this`tokens, this`bases, this`whys, this`matchAvailable
      ensures Valid() && !matchAvailable && whys == old(whys) + if old(matchAvailable) then [End(look)] else []
    {
      hide *;
      SlowParts();
      TailParts();
      if matchAvailable {
        EndLiteral(Tuned(), input, missed, input[Pos() - 1], look);
        var _ := TallyLiteral(strstart - 1, End(look));
        EndFresh(old(tokens), old(whys), input[Pos() - 1], look);
        matchAvailable := false;
        TailValid();
      } else {
        assert whys + [] == whys;
      }
    }

    lemma TailParts()
      requires Valid() && lookahead == 0 && strstart + MIN_LOOKAHEAD <= 2 * wSize
      ensures |input| == Pos() == base + strstart && input + availIn == supplied && strstart < 2 * wSize && matchLength < MIN_MATCH
    {
      hide Buffers, Hashed, Sent, Fresh, Looked;
    }

    lemma TailValid()
      requires Buffers(Pos()) && Aligned() && Hashed(Pos()) && Sent(Pos()) && input + availIn == supplied
      requires !matchAvailable && matchLength < MIN_MATCH && Fresh(tokens, whys)
      ensures Valid()
    {
      hide Buffers, Hashed, Sent, Fresh, Aligned;
    }

    /** One round of deflate_slow. */
    method SlowRound(hashHead0: nat) returns (bflush: bool, hashHead: nat)
      requires Valid() && SlowReady() && lookahead >= 1 && strstart + MIN_LOOKAHEAD <= 2 * wSize
      requires lookahead >= MIN_LOOKAHEAD || availIn == []
      modifies this`tokens, this`bases, this`whys, this`look, this`strstart, this`lookahead, this`prevLength, this`prevMatch,
               this`matchStart, this`matchAvailable, this`matchLength, this`insH, this`ins, this`missed, prev, head
      ensures Valid() && SlowReady() && Pos() > old(Pos())
      ensures old(whys) <= whys && forall i :: |old(whys)| <= i < |whys| ==> !whys[i].Greedy?
      ensures MissedLate(old(missed), missed, |supplied|, Pos()) && (old(lookahead) >= MIN_LOOKAHEAD ==> missed == old(missed))
    {
      hide *;
      ReadAhead();
      ghost var p, ahead, l := Pos(), lookahead, look;
      hashHead, l := SlowFind(hashHead0);
      ghost var found := missed;
      bflush, hashHead := SlowEmit(hashHead, l);
      LateRound(old(missed), found, missed, p, ahead, |supplied|, Pos());
      ConsistentValid();
    }

    /** deflate_slow */
    method DeflateSlow(flush: Flush) returns (state: BlockState)
      requires Valid() && SlowReady()
      modifies this, window, prev, head
      ensures Valid() && SlowReady() && supplied == old(supplied) && old(Pos()) <= Pos() <= |supplied|
      ensures flush != NoFlush && state != NeedMore ==> Expand(tokens) == Some(supplied) && |supplied| < base + 2 * wSize
      ensures flush == NoFlush ==> state == NeedMore
      ensures flush == Finish && state == NeedMore ==> Pos() > old(Pos())
      ensures old(whys) <= whys && forall i :: |old(whys)| <= i < |whys| ==> !whys[i].Greedy?
      ensures MissedLate(old(missed), missed, |supplied|, Pos()) && (flush == NoFlush ==> missed == old(missed))
    {
      hide *;
      var hashHead := 0;
      PosBounded();
      NoneMissed(missed, |supplied|, Pos());
      while true
        invariant Valid() && SlowReady() && supplied == old(supplied) && old(Pos()) <= Pos() <= |supplied|
        invariant old(whys) <= whys && forall i :: |old(whys)| <= i < |whys| ==> !whys[i].Greedy?
        invariant MissedLate(old(missed), missed, |supplied|, Pos()) && (flush == NoFlush ==> missed == old(missed))
        decreases |supplied| - Pos()
      {
        if lookahead < MIN_LOOKAHEAD {
          FillWindow();
          if lookahead < MIN_LOOKAHEAD && flush == NoFlush {
            return NeedMore;
          }
          if lookahead == 0 {
            break;
          }
        } else {
          RoomLeft();
        }
        ghost var before, p := missed, Pos();
        var bflush;
        bflush, hashHead := SlowRound(hashHead);
        LateMore(old(missed), before, missed, |supplied|, p, Pos());
        PosBounded();
        if bflush {
          if * {
            return NeedMore;
          }
        }
      }
      SlowTail();
      AllSent();
      if * {
        return if flush == Finish then FinishStarted else NeedMore;
      }
      return if flush == Finish then FinishDone else BlockDone;
    }

    lemma PosBounded()
      requires Valid()
      ensures Pos() <= |supplied|
    {
    }

    /** With nothing read ahead and nothing waiting, the tokens expand to the whole input read. */
    lemma AllSent()
      requires Valid() && lookahead == 0 && !matchAvailable && strstart + MIN_LOOKAHEAD <= 2 * wSize
      ensures Expand(tokens) == Some(input) && (availIn == [] ==> input == supplied) && |input| < base + 2 * wSize
    {
      assert input[..Pos()] == input;
      assert availIn == [] ==> input + availIn == input;
    }

    /** The caller hands over the next piece of input. */
    method Supply(more: seq<byte>)
      requires Valid()
      modifies this`availIn, this`supplied
      ensures Valid() && supplied == old(supplied) + more
      ensures availIn == old(availIn) + more
    {
      hide Tables, Shows, Pow2, Config.Valid, Config.WSize, Primed, Found, Repeats, Expand, Sendable, InView, Explained;
      assert input + (availIn + more) == (input + availIn) + more;
      availIn := availIn + more;
      supplied := supplied + more;
    }
  }

  lemma SameShown(w: seq<byte>, input: seq<byte>, base: nat, cur: nat, strstart: nat, n: nat, m: nat, i: nat)
    requires Shows(w, input, base, n) && Same(input, base + cur, base + strstart, m) && i < m
    ensures strstart + i < |w| && cur < strstart && w[cur + i] == w[strstart + i]
  {
    assert input[base + cur..base + cur + m][i] == input[base + strstart..base + strstart + m][i];
  }

  /** Where the comparison ends, so does every match. */
  lemma DiffersAt(w: seq<byte>, input: seq<byte>, base: nat, cur: nat, strstart: nat, n: nat, len: nat)
    requires Shows(w, input, base, n) && cur <= strstart && strstart + MAX_MATCH < |w| && len <= MAX_MATCH
    requires len < MAX_MATCH ==> w[strstart + len] != w[cur + len]
    ensures AtMost(input, base + cur, base + strstart, len)
  {
    hide Shows;
    var q, p := base + cur, base + strstart;
    forall m: nat | Same(input, q, p, m)
      ensures m <= len
    {
      if m > len {
        SameShown(w, input, base, cur, strstart, n, m, len);
        assert false;
      }
    }
  }

  /** Where the first check fails, no match is longer than the best so far. */
  lemma DiffersWithin(w: seq<byte>, input: seq<byte>, base: nat, cur: nat, strstart: nat, n: nat, best: nat)
    requires Shows(w, input, base, n) && cur <= strstart && strstart + MAX_MATCH < |w| && 1 <= best <= MAX_MATCH
    requires || w[cur + best] != w[strstart + best] || w[cur + best - 1] != w[strstart + best - 1]
             || w[cur] != w[strstart] || w[cur + 1] != w[strstart + 1]
    ensures AtMost(input, base + cur, base + strstart, best)
  {
    hide Shows;
    var q, p := base + cur, base + strstart;
    forall m: nat | Same(input, q, p, m)
      ensures m <= best
    {
      if m > best {
        SameShown(w, input, base, cur, strstart, n, m, best);
        SameShown(w, input, base, cur, strstart, n, m, best - 1);
        SameShown(w, input, base, cur, strstart, n, m, 0);
        SameShown(w, input, base, cur, strstart, n, m, 1);
        assert false;
      }
    }
  }

  lemma PrevBelow(cf: Config, head: seq<nat>, prev: seq<nat>, input: seq<byte>, base: nat, ins: set<nat>,
                  strstart: nat, top: nat, i: nat)
    requires Tables(cf, head, prev, input, base, ins, strstart, top) && i < |prev|
    ensures prev[i] <= strstart
  {
  }

  lemma TablesInserted(cf: Config, head: seq<nat>, prev: seq<nat>, input: seq<byte>, base: nat, ins: set<nat>,
                       strstart: nat, top: nat)
    requires Tables(cf, head, prev, input, base, ins, strstart, top)
    ensures forall p :: p in ins ==> p + 2 < |input|
  {
  }

  lemma FoundParts(input: seq<byte>, p: nat, dist: int, n: nat, maxDist: nat)
    requires Found(input, p, dist, n, maxDist)
    ensures n <= MAX_MATCH && 1 <= dist <= maxDist && Repeats(input, p, dist, n) && MAX_MATCH == 258 && MIN_MATCH == 3
  {
    hide Repeats;
  }

  lemma FoundSame(input: seq<byte>, p: nat, dist: int, n: nat, maxDist: nat)
    requires Found(input, p, dist, n, maxDist) && n >= MIN_MATCH
    ensures 1 <= dist <= p && Same(input, p - dist, p, n)
  {
    var a, b := input[p - dist..p - dist + n], input[p..p + n];
    forall i | 0 <= i < n
      ensures a[i] == b[i]
    {
      assert input[p + i] == input[p + i - dist];
    }
    assert a == b;
  }

  lemma FoundBounds(input: seq<byte>, p: nat, dist: int, n: nat, maxDist: nat)
    requires Found(input, p, dist, n, maxDist)
    ensures 1 <= dist <= maxDist && dist <= p && p + n <= |input| && n <= MAX_MATCH
  {
  }

  lemma ShowsOne(w: seq<byte>, input: seq<byte>, base: nat, i: nat, n: nat)
    requires Shows(w, input, base, n) && i < n
    ensures i < |w| && base + i < |input| && w[i] == input[base + i]
  {
  }

  /** Equal bytes in the window, with the third forced by the hash, are a match in the input. */
  lemma MatchFound(cf: Config, w: seq<byte>, input: seq<byte>, base: nat, ins: set<nat>, strstart: nat, cur: nat,
                   lookahead: nat, n: nat, maxDist: nat)
    requires cf.Valid() && base + strstart + lookahead == |input| && lookahead >= MIN_MATCH
    requires Shows(w, input, base, strstart + lookahead) && strstart + MAX_MATCH < |w|
    requires cur < strstart && strstart - cur <= maxDist && MIN_MATCH <= n <= MAX_MATCH
    requires HashAt(cf, input, base + cur) == HashAt(cf, input, base + strstart)
    requires AgreesButThird(w, strstart, strstart - cur, n)
    ensures Found(input, base + strstart, strstart - cur, if n <= lookahead then n else lookahead, maxDist)
  {
    var p, d := base + strstart, strstart - cur;
    var m := if n <= lookahead then n else lookahead;
    ShowsTwo(w, input, base, strstart, strstart + lookahead);
    ShowsTwo(w, input, base, cur, strstart + lookahead);
    assert w[strstart] == w[strstart - d] && w[strstart + 1] == w[strstart + 1 - d];
    ThirdByteEqual(input[p], input[p + 1], input[p + 2], input[base + cur + 2], cf.HashShift(), cf.hashBits);
    hide HashAt, Config.Valid;
    forall j | p <= j < p + m
      ensures input[j] == input[j - d]
    {
      var k := j - base;
      assert w[k] == input[base + k] && w[k - d] == input[base + (k - d)];
    }
  }

  /** The n bytes at s repeat those d earlier, except perhaps the third. */
  ghost predicate AgreesButThird(w: seq<byte>, s: nat, d: nat, n: nat)
    requires d <= s && s + n <= |w|
  {
    forall k :: s <= k < s + n && k != s + 2 ==> w[k] == w[k - d]
  }

  /** Updating a primed hash with the third byte gives the hash of the string, primed for the next one. */
  lemma StringHash(cf: Config, input: seq<byte>, p: nat, h: nat)
    requires cf.Valid() && p + 2 < |input| && Primed(h, input[p], input[p + 1], cf.HashShift(), cf.hashBits)
    ensures Update(h, input[p + 2], cf.HashShift(), cf.hashBits) == HashAt(cf, input, p) < Pow2(cf.hashBits)
    ensures Primed(HashAt(cf, input, p), input[p + 1], input[p + 2], cf.HashShift(), cf.hashBits)
  {
    PrimedByUpdate(h, input[p], input[p + 1], input[p + 2], cf.HashShift(), cf.hashBits);
  }

  lemma WSizeBounds(cf: Config)
    requires cf.Valid()
    ensures 512 <= cf.WSize() <= 32768
  {
    Pow2Values();
    Pow2Monotone(9, cf.wBits);
    Pow2Monotone(cf.wBits, 15);
  }

  lemma ShowsLength(w: seq<byte>, input: seq<byte>, base: nat, n: nat)
    requires Shows(w, input, base, n)
    ensures n <= |w| && base + n == |input|
  {
  }

  lemma ShowsTwo(w: seq<byte>, input: seq<byte>, base: nat, i: nat, n: nat)
    requires Shows(w, input, base, n) && i + 2 < n
    ensures base + i + 2 < |input| && i + 2 < |w|
    ensures w[i] == input[base + i] && w[i + 1] == input[base + i + 1] && w[i + 2] == input[base + i + 2]
  {
    assert w[i + 1] == input[base + (i + 1)] && w[i + 2] == input[base + (i + 2)];
  }

  lemma FoundGrows(input: seq<byte>, p: nat, dist: int, n: nat, maxDist: nat, more: seq<byte>)
    requires Found(input, p, dist, n, maxDist)
    ensures Found(input + more, p, dist, n, maxDist)
  {
  }

  lemma ShowsAfterSlide(w: seq<byte>, w': seq<byte>, input: seq<byte>, base: nat, n: nat, size: nat)
    requires Shows(w, input, base, n) && |w| == |w'| == 2 * size <= n + size
    requires forall k :: 0 <= k < size ==> w'[k] == w[size + k]
    ensures Shows(w', input, base + size, n - size)
  {
    forall i | 0 <= i < n - size
      ensures w'[i] == input[base + size + i]
    {
      assert w[size + i] == input[base + (size + i)];
    }
  }

  lemma ShowsMore(w: seq<byte>, w': seq<byte>, input: seq<byte>, base: nat, n: nat, more: seq<byte>)
    requires Shows(w, input, base, n) && |w| == |w'| && n + |more| <= |w|
    requires forall k :: 0 <= k < n ==> w'[k] == w[k]
    requires forall k :: 0 <= k < |more| ==> w'[n + k] == more[k]
    ensures Shows(w', input + more, base, n + |more|)
  {
    forall i | 0 <= i < n + |more|
      ensures w'[i] == (input + more)[base + i]
    {
      if i >= n {
        assert w'[n + (i - n)] == more[i - n];
      }
    }
  }
}
