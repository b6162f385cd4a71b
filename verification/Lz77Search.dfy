/**
 What a search along a hash chain has looked at.  The chain of a string holds the strings
 inserted before it with the same hash, latest first, so that a search of so many links has
 seen so many of them and nothing else can repeat three bytes.
 */
module Lz77Search {
  import opened Bits
  import opened Lz77Chains
  import opened Lz77Tokens
  import opened RollingHash

  /** Every inserted string has three bytes. */
  ghost predicate Known(input: seq<byte>, ins: set<nat>) {
    forall p :: p in ins ==> p + 2 < |input|
  }

  /** The strings between q and p with the hash of that at p. */
  ghost function Newer(cf: Config, input: seq<byte>, ins: set<nat>, q: nat, p: nat): set<nat>
    requires Known(input, ins) && p + 2 < |input|
  {
    set r | r in ins && q < r < p && HashAt(cf, input, r) == HashAt(cf, input, p)
  }

  /** The m bytes at q come again at p: a match that could be sent. */
  ghost predicate Same(input: seq<byte>, q: nat, p: nat, m: nat) {
    MIN_MATCH <= m <= MAX_MATCH && q < p && p + m <= |input| && input[q..q + m] == input[p..p + m]
  }

  /** The string at q comes again at p for no more than n bytes. */
  ghost predicate AtMost(input: seq<byte>, q: nat, p: nat, n: nat) {
    forall m: nat :: Same(input, q, p, m) ==> m <= n
  }

  lemma AtMostMore(input: seq<byte>, q: nat, p: nat, n: nat, n': nat)
    requires AtMost(input, q, p, n) && n <= n'
    ensures AtMost(input, q, p, n')
  {
  }

  /** No inserted string after low and before p is repeated at p for more than n bytes, from three on. */
  ghost predicate Beaten(input: seq<byte>, ins: set<nat>, p: nat, low: nat, n: nat) {
    forall q, m: nat :: q in ins && low < q && Same(input, q, p, m) ==> m <= n
  }

  /** A search for the string at p that found n bytes: of the last `chain` strings inserted after low with the same hash, none
      is repeated for more bytes, unless n is nice enough to stop. */
  ghost predicate Thorough(cf: Config, input: seq<byte>, ins: set<nat>, p: nat, low: nat, chain: nat, nice: nat, n: nat)
    requires Known(input, ins) && p + 2 < |input|
  {
    nice <= n || forall q, m: nat :: q in ins && low < q && Same(input, q, p, m) && |Newer(cf, input, ins, q, p)| < chain ==> m <= n
  }

  lemma SameHash(cf: Config, input: seq<byte>, q: nat, p: nat, m: nat)
    requires Same(input, q, p, m)
    ensures q + 2 < |input| && p + 2 < |input| && HashAt(cf, input, q) == HashAt(cf, input, p)
  {
    var a, b := input[q..q + m], input[p..p + m];
    assert a[0] == b[0] && a[1] == b[1] && a[2] == b[2];
  }

  lemma Before(input: seq<byte>, q: nat, p: nat, m: nat)
    requires Same(input, q, p, m)
    ensures q < p
  {
  }

  /** Nothing lies between p and the head of its chain. */
  lemma HeadFirst(cf: Config, input: seq<byte>, base: nat, ins: set<nat>, v: nat, p: nat, n: nat)
    requires Known(input, ins) && p + 2 < |input| && Linked(cf, input, base, ins, v, HashAt(cf, input, p), p)
    ensures Beaten(input, ins, p, base + v, n) && |Newer(cf, input, ins, base + v, p)| == 0
  {
    hide HashAt, Same;
    forall q, m: nat | q in ins && base + v < q
      ensures !Same(input, q, p, m)
    {
      if Same(input, q, p, m) {
        SameHash(cf, input, q, p, m);
        Before(input, q, p, m);
        assert false;
      }
    }
    assert Newer(cf, input, ins, base + v, p) == {};
  }

  /** One link on: the string at `at` has been compared, and none lies between it and the next of the chain. */
  lemma OneLink(cf: Config, input: seq<byte>, base: nat, ins: set<nat>, at: nat, next: nat, p: nat, n: nat, n': nat)
    requires Known(input, ins) && p + 2 < |input| && at in ins && at < p && base + next <= at && n <= n'
    requires HashAt(cf, input, at) == HashAt(cf, input, p) && Linked(cf, input, base, ins, next, HashAt(cf, input, p), at)
    requires Beaten(input, ins, p, at, n)
    requires AtMost(input, at, p, n')
    ensures Beaten(input, ins, p, base + next, n')
    ensures base + next < at ==> |Newer(cf, input, ins, base + next, p)| == |Newer(cf, input, ins, at, p)| + 1
  {
    hide HashAt, Same;
    var low := base + next;
    forall q, m: nat | q in ins && low < q && Same(input, q, p, m)
      ensures m <= n'
    {
      SameHash(cf, input, q, p, m);
      Before(input, q, p, m);
      if q < at {
        assert false;
      }
    }
    if low < at {
      assert Newer(cf, input, ins, low, p) == Newer(cf, input, ins, at, p) + {at};
    }
  }

  /** The chain has been followed down to the limit. */
  lemma LimitReached(cf: Config, input: seq<byte>, ins: set<nat>, p: nat, at: nat, low: nat, chain: nat, nice: nat, n: nat)
    requires Known(input, ins) && p + 2 < |input| && at <= low && Beaten(input, ins, p, at, n)
    ensures Thorough(cf, input, ins, p, low, chain, nice, n)
  {
    hide HashAt, Same, Newer;
  }

  /** As many links as allowed have been followed. */
  lemma ChainUsed(cf: Config, input: seq<byte>, ins: set<nat>, p: nat, at: nat, low: nat, chain: nat, nice: nat, n: nat)
    requires Known(input, ins) && p + 2 < |input| && Beaten(input, ins, p, at, n) && |Newer(cf, input, ins, at, p)| >= chain
    ensures Thorough(cf, input, ins, p, low, chain, nice, n)
  {
    hide HashAt, Same;
    forall q, m: nat | q in ins && low < q && Same(input, q, p, m)
                  && |Newer(cf, input, ins, q, p)| < chain
      ensures m <= n
    {
      Before(input, q, p, m);
      if q <= at {
        Fewer(Newer(cf, input, ins, at, p), Newer(cf, input, ins, q, p));
        assert false;
      }
    }
  }

  lemma {:induction false} Fewer(a: set<nat>, b: set<nat>)
    requires a <= b
    ensures |a| <= |b|
  {
    assert a + (b - a) == b;
  }

  /** Nothing matches beyond the end of the input. */
  lemma Clipped(cf: Config, input: seq<byte>, ins: set<nat>, p: nat, low: nat, chain: nat, nice: nat, n: nat, lookahead: nat)
    requires Known(input, ins) && p + 2 < |input| == p + lookahead && nice <= lookahead && Thorough(cf, input, ins, p, low, chain, nice, n)
    ensures Thorough(cf, input, ins, p, low, chain, nice, if n <= lookahead then n else lookahead)
  {
    hide HashAt, Newer;
  }

  lemma ClippedOne(input: seq<byte>, q: nat, p: nat, n: nat, lookahead: nat)
    requires |input| == p + lookahead && AtMost(input, q, p, n)
    ensures AtMost(input, q, p, if n <= lookahead then n else lookahead)
  {
  }

  /** A match nice enough ends the search. */
  lemma NiceFound(cf: Config, input: seq<byte>, ins: set<nat>, p: nat, low: nat, chain: nat, nice: nat, n: nat)
    requires Known(input, ins) && p + 2 < |input| && nice <= n
    ensures Thorough(cf, input, ins, p, low, chain, nice, n)
  {
  }

  // ----- why a token was sent

  datatype Strategy = DefaultStrategy | Filtered | HuffmanOnly

  /** What a compressor is set up with. */
  datatype Tuning = Tuning(cf: Config, maxDist: nat, good: nat, lazy: nat, nice: nat, chain: nat, insert: nat, strategy: Strategy)

  /** A look for a match at position p: how much of the input has been read, the strings inserted, the length of the match at the
      position before, the result of the search and its distance, and what is made of it. */
  datatype Look = Look(p: nat, seen: nat, ins: set<nat>, prevLen: nat, found: nat, dist: int, n: nat)

  /** The positions between p and e. */
  ghost function Between(p: nat, e: nat): (r: set<nat>)
    ensures forall q :: q in r <==> p < q < e
  {
    if e <= p + 1 then {} else Between(p, e - 1) + {e - 1}
  }

  /** Every string before position top has been inserted or missed. */
  ghost predicate Accounted(ins: set<nat>, missed: set<nat>, top: nat) {
    forall q: nat :: q < top ==> q in ins || q in missed
  }

  /** Nothing is searched for where the strategy, the end of the input or a good match before forbids it; otherwise the search
      is thorough, among all strings before but the missed ones, and only the lazy matcher drops short matches, if they are
      filtered or too far. */
  ghost predicate Honest(t: Tuning, input: seq<byte>, missed: set<nat>, l: Look, lazy: bool) {
    && l.p < l.seen <= |input| && Accounted(l.ins, missed, l.p)
    && if t.strategy.HuffmanOnly? || l.seen < l.p + MIN_MATCH || (lazy && l.prevLen >= t.lazy) then l.n < MIN_MATCH
       else
         && Known(input[..l.seen], l.ins)
         && Thorough(t.cf, input[..l.seen], l.ins, l.p, if l.p > t.maxDist then l.p - t.maxDist else 0,
                     if l.prevLen >= t.good then t.chain / 4 else t.chain, if t.nice > l.seen - l.p then l.seen - l.p else t.nice, l.found)
         && (l.found >= MIN_MATCH && l.found > l.prevLen ==> 1 <= l.dist <= l.p && Same(input[..l.seen], l.p - l.dist, l.p, l.found))
         && l.n == if lazy && l.found <= 5 && (t.strategy.Filtered? || (l.found == 3 && l.dist > 4096)) then 2 else l.found
  }

  /** The look at the position of a token and, for the lazy matcher, that at the next; or there is no next. */
  datatype Why = Greedy(here: Look) | Lazy(here: Look, next: Look) | End(here: Look)

  /** A literal is sent where nothing was found, or something longer at the next position; a match is what was found. */
  ghost predicate Explains(t: Tuning, input: seq<byte>, missed: set<nat>, tok: Token, y: Why) {
    match y
    case Greedy(l) => Honest(t, input, missed, l, false) && if tok.dist == 0 then l.n < MIN_MATCH else l.n == tok.lc + MIN_MATCH
    case Lazy(l, m) =>
      && Honest(t, input, missed, l, true) && Honest(t, input, missed, m, true) && m.p == l.p + 1 && m.prevLen == l.n
      && if tok.dist == 0 then l.n < MIN_MATCH || m.n > l.n else l.n == tok.lc + MIN_MATCH && m.n <= l.n
    case End(l) => Honest(t, input, missed, l, true) && tok.dist == 0 && l.n < MIN_MATCH
  }

  /** The lazy matcher goes on from the look at the position after a literal, and from nothing after a match. */
  ghost predicate GoesOn(ts: seq<Token>, ys: seq<Why>, l: Look)
    requires |ys| == |ts|
  {
    if ts != [] && ts[|ts| - 1].dist == 0 && ys[|ys| - 1].Lazy? then l == ys[|ys| - 1].next else l.prevLen < MIN_MATCH
  }

  /** No look is pending. */
  ghost predicate Fresh(ts: seq<Token>, ys: seq<Why>) {
    |ys| == |ts| && (ts == [] || ts[|ts| - 1].dist > 0 || !ys[|ys| - 1].Lazy?)
  }

  /** Every token is explained, at the position where it begins. */
  ghost predicate Explained(t: Tuning, input: seq<byte>, missed: set<nat>, ts: seq<Token>, ys: seq<Why>) {
    && |ys| == |ts|
    && forall i :: 0 <= i < |ts| ==>
         && Explains(t, input, missed, ts[i], ys[i]) && Expand(ts[..i]).Some? && |Expand(ts[..i]).value| == ys[i].here.p
         && (!ys[i].Greedy? ==> GoesOn(ts[..i], ys[..i], ys[i].here))
  }

  lemma HonestGrows(t: Tuning, input: seq<byte>, missed: set<nat>, l: Look, lazy: bool, more: seq<byte>, missed': set<nat>)
    requires Honest(t, input, missed, l, lazy) && missed <= missed'
    ensures Honest(t, input + more, missed', l, lazy)
  {
    hide Thorough, Same, Known;
    assert (input + more)[..l.seen] == input[..l.seen];
  }

  lemma ExplainsGrows(t: Tuning, input: seq<byte>, missed: set<nat>, tok: Token, y: Why, more: seq<byte>, missed': set<nat>)
    requires Explains(t, input, missed, tok, y) && missed <= missed'
    ensures Explains(t, input + more, missed', tok, y)
  {
    hide Honest;
    match y
    case Greedy(l) => HonestGrows(t, input, missed, l, false, more, missed');
    case Lazy(l, m) =>
      HonestGrows(t, input, missed, l, true, more, missed');
      HonestGrows(t, input, missed, m, true, more, missed');
    case End(l) => HonestGrows(t, input, missed, l, true, more, missed');
  }

  lemma ExplainedGrows(t: Tuning, input: seq<byte>, missed: set<nat>, ts: seq<Token>, ys: seq<Why>, more: seq<byte>, missed': set<nat>)
    requires Explained(t, input, missed, ts, ys) && missed <= missed'
    ensures Explained(t, input + more, missed', ts, ys)
  {
    hide Explains, GoesOn, ExpandOn;
    forall i | 0 <= i < |ts|
      ensures Explains(t, input + more, missed', ts[i], ys[i])
    {
      ExplainsGrows(t, input, missed, ts[i], ys[i], more, missed');
    }
  }

  lemma ExplainedMore(t: Tuning, input: seq<byte>, missed: set<nat>, ts: seq<Token>, ys: seq<Why>, tok: Token, y: Why)
    requires Explained(t, input, missed, ts, ys) && Explains(t, input, missed, tok, y)
    requires Expand(ts).Some? && |Expand(ts).value| == y.here.p && (!y.Greedy? ==> GoesOn(ts, ys, y.here))
    ensures Explained(t, input, missed, ts + [tok], ys + [y])
  {
    hide Explains, GoesOn, ExpandOn;
    var us, zs := ts + [tok], ys + [y];
    forall i | 0 <= i < |us|
      ensures us[..i] == if i < |ts| then ts[..i] else ts
      ensures zs[..i] == if i < |ys| then ys[..i] else ys
    {
    }
  }

  lemma GreedyMatch(t: Tuning, input: seq<byte>, missed: set<nat>, tok: Token, l: Look)
    requires Honest(t, input, missed, l, false) && tok.dist > 0 && l.n == tok.lc + MIN_MATCH
    ensures Explains(t, input, missed, tok, Greedy(l)) && Greedy(l).here == l && Greedy(l).Greedy?
  {
    hide Honest;
  }

  lemma GreedyLiteral(t: Tuning, input: seq<byte>, missed: set<nat>, b: byte, l: Look)
    requires Honest(t, input, missed, l, false) && l.n < MIN_MATCH
    ensures Explains(t, input, missed, Token(0, b), Greedy(l)) && Greedy(l).here == l && Greedy(l).Greedy?
  {
    hide Honest;
  }

  lemma MatchFresh(ts: seq<Token>, ys: seq<Why>)
    requires |ys| == |ts| > 0 && ts[|ts| - 1].dist > 0
    ensures Fresh(ts, ys)
  {
  }

  lemma LiteralFresh(ts: seq<Token>, ys: seq<Why>, b: byte, l: Look)
    requires |ys| == |ts|
    ensures Fresh(ts + [Token(0, b)], ys + [Greedy(l)])
  {
  }

  lemma LazyMatch(t: Tuning, input: seq<byte>, missed: set<nat>, tok: Token, l: Look, m: Look)
    requires Honest(t, input, missed, l, true) && Honest(t, input, missed, m, true) && m.p == l.p + 1 && m.prevLen == l.n
    requires tok.dist > 0 && l.n == tok.lc + MIN_MATCH && m.n <= l.n
    ensures Explains(t, input, missed, tok, Lazy(l, m)) && Lazy(l, m).here == l && !Lazy(l, m).Greedy?
  {
    hide Honest;
  }

  lemma LazyLiteral(t: Tuning, input: seq<byte>, missed: set<nat>, b: byte, l: Look, m: Look)
    requires Honest(t, input, missed, l, true) && Honest(t, input, missed, m, true) && m.p == l.p + 1 && m.prevLen == l.n
    requires l.n < MIN_MATCH || m.n > l.n
    ensures Explains(t, input, missed, Token(0, b), Lazy(l, m)) && Lazy(l, m).here == l && !Lazy(l, m).Greedy?
  {
    hide Honest;
  }

  lemma EndLiteral(t: Tuning, input: seq<byte>, missed: set<nat>, b: byte, l: Look)
    requires Honest(t, input, missed, l, true) && l.n < MIN_MATCH
    ensures Explains(t, input, missed, Token(0, b), End(l)) && End(l).here == l && !End(l).Greedy?
  {
    hide Honest;
  }

  lemma GoesOnNext(ts: seq<Token>, ys: seq<Why>, b: byte, l: Look, m: Look)
    requires |ys| == |ts|
    ensures GoesOn(ts + [Token(0, b)], ys + [Lazy(l, m)], m)
  {
  }

  lemma GoesOnFresh(ts: seq<Token>, ys: seq<Why>, l: Look)
    requires Fresh(ts, ys) && l.prevLen < MIN_MATCH
    ensures |ys| == |ts| && GoesOn(ts, ys, l)
  {
  }

  lemma EndFresh(ts: seq<Token>, ys: seq<Why>, b: byte, l: Look)
    requires |ys| == |ts|
    ensures Fresh(ts + [Token(0, b)], ys + [End(l)])
  {
  }

  /** Only strings that run into the end of the input were missed on the way to position top. */
  ghost predicate MissedLate(before: set<nat>, missed: set<nat>, end: nat, top: nat) {
    before <= missed && forall q :: q in missed && q !in before ==> q + 2 >= end && q < top
  }

  lemma LateSuperset(before: set<nat>, missed: set<nat>, end: nat, top: nat)
    requires MissedLate(before, missed, end, top)
    ensures before <= missed
  {
  }

  lemma NoneMissed(missed: set<nat>, end: nat, top: nat)
    ensures MissedLate(missed, missed, end, top)
  {
  }

  /** A round of the lazy matcher from position p, with so much read ahead, misses strings at the end of the input at most. */
  lemma LateRound(a: set<nat>, b: set<nat>, c: set<nat>, p: nat, ahead: nat, end: nat, top: nat)
    requires (b == a + if ahead >= MIN_MATCH then {} else {p}) && MissedLate(b, c, p + ahead, top)
    requires ahead >= 1 && p < top <= p + 257 && (ahead >= 262 || p + ahead == end)
    ensures MissedLate(a, c, end, top) && (ahead >= 262 ==> c == a)
  {
  }

  lemma LateMore(a: set<nat>, b: set<nat>, c: set<nat>, end: nat, p: nat, top: nat)
    requires MissedLate(a, b, end, p) && MissedLate(b, c, end, top) && p <= top
    ensures MissedLate(a, c, end, top)
  {
  }

  /** Position q lies inside a match that is too long for its strings to be inserted, or that ends where no string is left. */
  ghost predicate Skipped(ys: seq<Why>, from: nat, q: nat, insert: nat, end: nat) {
    exists i :: from <= i < |ys| && ys[i].here.p < q < ys[i].here.p + ys[i].here.n
                && (ys[i].here.n > insert || ys[i].here.p + ys[i].here.n + MIN_MATCH > end)
  }

  /** Only strings that run into the end of the input, or that such a match covers, were missed. */
  ghost predicate MissedInside(before: set<nat>, missed: set<nat>, ys: seq<Why>, from: nat, insert: nat, end: nat) {
    before <= missed && forall q :: q in missed && q !in before ==> q + 2 >= end || Skipped(ys, from, q, insert, end)
  }

  lemma NoneInside(missed: set<nat>, ys: seq<Why>, insert: nat, end: nat)
    ensures MissedInside(missed, missed, ys, |ys|, insert, end)
  {
  }

  lemma GreedyRound(a: set<nat>, b: set<nat>, c: set<nat>, ys: seq<Why>, l: Look, p: nat, ahead: nat, insert: nat, end: nat)
    requires b == a + if ahead >= MIN_MATCH then {} else {p}
    requires c == b + if l.n < MIN_MATCH || (l.n <= insert && p + l.n + MIN_MATCH <= p + ahead) then {} else Between(p, p + l.n)
    requires l.p == p && l.n <= 258 && ahead >= 1 && (ahead >= 262 || p + ahead == end)
    ensures MissedInside(a, c, ys + [Greedy(l)], |ys|, insert, end)
  {
    var zs := ys + [Greedy(l)];
    forall q | q in c && q !in b
      ensures Skipped(zs, |ys|, q, insert, end)
    {
      assert zs[|ys|] == Greedy(l);
    }
  }

  lemma InsideMore(a: set<nat>, b: set<nat>, c: set<nat>, ys: seq<Why>, zs: seq<Why>, from: nat, insert: nat, end: nat)
    requires ys <= zs && from <= |ys| && MissedInside(a, b, ys, from, insert, end) && MissedInside(b, c, zs, |ys|, insert, end)
    ensures MissedInside(a, c, zs, from, insert, end)
  {
    forall q | q in c && q !in a && q + 2 < end
      ensures Skipped(zs, from, q, insert, end)
    {
      if q in b {
        var i :| from <= i < |ys| && ys[i].here.p < q < ys[i].here.p + ys[i].here.n
                 && (ys[i].here.n > insert || ys[i].here.p + ys[i].here.n + MIN_MATCH > end);
        assert zs[i] == ys[i];
      } else {
        var i :| |ys| <= i < |zs| && zs[i].here.p < q < zs[i].here.p + zs[i].here.n
                 && (zs[i].here.n > insert || zs[i].here.p + zs[i].here.n + MIN_MATCH > end);
        assert from <= i;
      }
    }
  }
}
