/**
 What the string matcher of Deflate hands to the coder: literals, and copies of earlier
 output.  Expanding the tokens is the decoder's half of LZ77.
 */
module Lz77Tokens {
  import opened Bits
  import opened Options

  const MIN_MATCH: nat := 3
  const MAX_MATCH: nat := 258

  /** A literal byte lc when dist is 0, else a copy of lc + MIN_MATCH bytes from dist back. */
  datatype Token = Token(dist: nat, lc: nat)

  /** Append n bytes, each equal to the byte dist before it. */
  function Copy(out: seq<byte>, dist: nat, n: nat): (r: seq<byte>)
    requires 1 <= dist <= |out|
    ensures |r| == |out| + n
  {
    if n == 0 then out
    else
      var r := Copy(out, dist, n - 1);
      r + [r[|r| - dist]]
  }

  /** What the tokens make of the history h; None if one of them reaches back beyond it. */
  function ExpandOn(h: seq<byte>, ts: seq<Token>): Option<seq<byte>> {
    if ts == [] then Some(h)
    else
      var front := ExpandOn(h, ts[..|ts| - 1]);
      var t := ts[|ts| - 1];
      if front.None? then None
      else if t.dist == 0 then (if t.lc < 256 then Some(front.value + [t.lc]) else None)
      else if t.dist <= |front.value| then Some(Copy(front.value, t.dist, t.lc + MIN_MATCH))
      else None
  }

  function Expand(ts: seq<Token>): Option<seq<byte>> {
    ExpandOn([], ts)
  }

  /** The bounds that _tr_tally asserts. */
  ghost predicate Sendable(ts: seq<Token>, maxDist: nat) {
    forall i :: 0 <= i < |ts| ==> ts[i].dist <= maxDist && ts[i].lc <= MAX_MATCH - MIN_MATCH
  }

  /** Where the bytes of each token end, the window that was there when it was sent is not left behind by `span` bytes. */
  ghost predicate InView(ts: seq<Token>, bases: seq<nat>, span: nat) {
    && |bases| == |ts|
    && forall i :: 0 <= i < |ts| && Expand(ts[..i + 1]).Some? ==> |Expand(ts[..i + 1]).value| < bases[i] + span
  }

  lemma ViewExtends(ts: seq<Token>, bases: seq<nat>, span: nat, t: Token, base: nat, out: seq<byte>)
    requires InView(ts, bases, span) && Expand(ts + [t]) == Some(out) && |out| < base + span
    ensures InView(ts + [t], bases + [base], span)
  {
    hide ExpandOn;
    var all := ts + [t];
    forall i | 0 <= i < |all| && Expand(all[..i + 1]).Some?
      ensures |Expand(all[..i + 1]).value| < (bases + [base])[i] + span
    {
      if i < |ts| {
        assert all[..i + 1] == ts[..i + 1];
      } else {
        assert all[..i + 1] == all;
      }
    }
  }

  /** The n bytes at p repeat those dist earlier. */
  ghost predicate Repeats(input: seq<byte>, p: nat, dist: nat, n: nat) {
    && 1 <= dist <= p && p + n <= |input|
    && forall j :: p <= j < p + n ==> input[j] == input[j - dist]
  }

  lemma {:induction false} CopyRepeats(input: seq<byte>, p: nat, dist: nat, n: nat)
    requires Repeats(input, p, dist, n)
    ensures Copy(input[..p], dist, n) == input[..p + n]
  {
    if n > 0 {
      CopyRepeats(input, p, dist, n - 1);
      assert input[..p + n] == input[..p + n - 1] + [input[p + n - 1]];
    }
  }

  lemma LiteralExtends(ts: seq<Token>, input: seq<byte>, p: nat)
    requires p < |input| && Expand(ts) == Some(input[..p])
    ensures Expand(ts + [Token(0, input[p])]) == Some(input[..p + 1])
  {
    assert (ts + [Token(0, input[p])])[..|ts|] == ts;
    assert input[..p + 1] == input[..p] + [input[p]];
  }

  lemma MatchExtends(ts: seq<Token>, input: seq<byte>, p: nat, dist: nat, n: nat)
    requires p <= |input| && Expand(ts) == Some(input[..p]) && n >= MIN_MATCH && Repeats(input, p, dist, n)
    ensures Expand(ts + [Token(dist, n - MIN_MATCH)]) == Some(input[..p + n])
  {
    assert (ts + [Token(dist, n - MIN_MATCH)])[..|ts|] == ts;
    CopyRepeats(input, p, dist, n);
  }

  lemma SendableExtends(ts: seq<Token>, maxDist: nat, t: Token)
    requires Sendable(ts, maxDist) && t.dist <= maxDist && t.lc <= MAX_MATCH - MIN_MATCH
    ensures Sendable(ts + [t], maxDist)
  {
  }

  /** Tokens continue from the bytes that those before them stand for. */
  lemma {:induction false} ExpandConcat(h: seq<byte>, a: seq<Token>, b: seq<Token>)
    ensures ExpandOn(h, a + b) == if ExpandOn(h, a).None? then None else ExpandOn(ExpandOn(h, a).value, b)
    decreases |b|
  {
    if b == [] {
      assert a + b == a;
    } else {
      var c := b[..|b| - 1];
      ExpandConcat(h, a, c);
      assert (a + b)[..|a + b| - 1] == a + c && (a + b)[|a + b| - 1] == b[|b| - 1];
      hide Copy;
    }
  }

  /** Tokens only add to what is there. */
  lemma {:induction false} ExpandGrows(h: seq<byte>, ts: seq<Token>)
    ensures ExpandOn(h, ts).Some? ==> h <= ExpandOn(h, ts).value
    decreases |ts|
  {
    if ts != [] {
      ExpandGrows(h, ts[..|ts| - 1]);
      var front, t := ExpandOn(h, ts[..|ts| - 1]), ts[|ts| - 1];
      if front.Some? && 1 <= t.dist <= |front.value| {
        CopyGrows(front.value, t.dist, t.lc + MIN_MATCH);
      }
    }
  }

  lemma {:induction false} CopyGrows(out: seq<byte>, dist: nat, n: nat)
    requires 1 <= dist <= |out|
    ensures out <= Copy(out, dist, n)
  {
    if n > 0 {
      CopyGrows(out, dist, n - 1);
    }
  }
}
