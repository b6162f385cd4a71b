/**
 The hash chains of the string matcher, as sequences: head[h] and prev[p mod w_size] hold
 window positions of earlier strings with the same hash.  Positions are kept relative to
 `base`, the number of input bytes that have been slid out of the window.
 */
module Lz77Chains {
  import opened Arith
  import opened Bits
  import opened Lz77Tokens
  import opened RollingHash

  /** Sizes chosen when the compressor is set up. */
  datatype Config = Config(wBits: nat, hashBits: nat) {
    function WSize(): (n: nat)
      ensures n >= 1
    {
      Pow2(wBits)
    }

    function HashShift(): nat { (hashBits + MIN_MATCH - 1) / MIN_MATCH }

    ghost predicate Valid() { 9 <= wBits <= 15 && 8 <= hashBits <= 16 }
  }

  /** The hash of the three bytes at p. */
  function HashAt(cf: Config, input: seq<byte>, p: nat): (h: nat)
    requires p + 2 < |input|
    ensures h < Pow2(cf.hashBits)
  {
    Hash3(input[p], input[p + 1], input[p + 2], cf.HashShift(), cf.hashBits)
  }

  /** The strings that have been inserted, all of them before position top. */
  ghost predicate Inserted(input: seq<byte>, ins: set<nat>, top: nat) {
    forall p :: p in ins ==> p + 2 < |input| && p < top
  }

  /** No string with hash h has been inserted between positions low and below. */
  ghost predicate NoneSince(cf: Config, input: seq<byte>, ins: set<nat>, low: nat, h: nat, below: nat)
    requires forall p :: p in ins ==> p + 2 < |input|
  {
    forall q :: q in ins && low < q < below ==> HashAt(cf, input, q) != h
  }

  /** v is the last inserted string before `below` with hash h; or it is nothing, and there is none but perhaps at the very
      beginning of the window. */
  ghost predicate Linked(cf: Config, input: seq<byte>, base: nat, ins: set<nat>, v: nat, h: nat, below: nat)
    requires Inserted(input, ins, below) || forall p :: p in ins ==> p + 2 < |input|
  {
    && (v == 0 || (base + v in ins && base + v < below && HashAt(cf, input, base + v) == h))
    && NoneSince(cf, input, ins, base + v, h, below)
  }

  ghost predicate Heads(cf: Config, head: seq<nat>, input: seq<byte>, base: nat, ins: set<nat>, top: nat)
    requires forall p :: p in ins ==> p + 2 < |input|
  {
    && |head| == Pow2(cf.hashBits)
    && forall h :: 0 <= h < |head| ==> Linked(cf, input, base, ins, head[h], h, top)
  }

  /** For every inserted string that a match may still reach, its prev entry continues its chain. */
  ghost predicate Chains(cf: Config, prev: seq<nat>, input: seq<byte>, base: nat, ins: set<nat>, top: nat)
    requires forall p :: p in ins ==> p + 2 < |input|
  {
    && |prev| == cf.WSize()
    && forall p :: p in ins && p + cf.WSize() > top ==>
         Linked(cf, input, base, ins, prev[p % cf.WSize()], HashAt(cf, input, p), p)
  }

  /** No entry, not even one of a forgotten string, lies beyond n. */
  ghost predicate Below(s: seq<nat>, n: nat) {
    forall i :: 0 <= i < |s| ==> s[i] <= n
  }

  ghost predicate Tables(cf: Config, head: seq<nat>, prev: seq<nat>, input: seq<byte>, base: nat, ins: set<nat>,
                         strstart: nat, top: nat)
  {
    && Inserted(input, ins, top)
    && Heads(cf, head, input, base, ins, top)
    && Chains(cf, prev, input, base, ins, base + strstart)
    && Below(head, strstart) && Below(prev, strstart)
    && base % cf.WSize() == 0
  }

  /** A string inserted at p changes no chain before it. */
  lemma LinkBefore(cf: Config, input: seq<byte>, base: nat, ins: set<nat>, v: nat, h: nat, below: nat, p: nat)
    requires Inserted(input, ins, p) && p + 2 < |input| && below <= p && Linked(cf, input, base, ins, v, h, below)
    ensures Linked(cf, input, base, ins + {p}, v, h, below)
  {
    hide HashAt;
  }

  /** And no chain of another hash. */
  lemma LinkOther(cf: Config, input: seq<byte>, base: nat, ins: set<nat>, v: nat, h: nat, p: nat)
    requires Inserted(input, ins, p) && p + 2 < |input| && HashAt(cf, input, p) != h && Linked(cf, input, base, ins, v, h, p)
    ensures Linked(cf, input, base, ins + {p}, v, h, p + 1)
  {
    hide HashAt;
  }

  /** It is the last of its own. */
  lemma LinkNew(cf: Config, input: seq<byte>, base: nat, ins: set<nat>, strstart: nat)
    requires Inserted(input, ins, base + strstart) && base + strstart + 2 < |input|
    ensures var p := base + strstart; Linked(cf, input, base, ins + {p}, strstart, HashAt(cf, input, p), p + 1)
  {
    hide HashAt;
  }

  /** INSERT_STRING keeps the chains, and the old head starts the chain of the new string. */
  lemma InsertKeepsTables(cf: Config, head: seq<nat>, prev: seq<nat>, input: seq<byte>, base: nat, ins: set<nat>,
                          strstart: nat)
    requires cf.Valid() && Tables(cf, head, prev, input, base, ins, strstart, base + strstart)
    requires base + strstart + 2 < |input|
    ensures strstart % cf.WSize() < |prev|
    ensures var p := base + strstart;
            var h := HashAt(cf, input, p);
            && Linked(cf, input, base, ins + {p}, head[h], h, p)
            && Tables(cf, head[h := strstart], prev[strstart % cf.WSize() := head[h]], input, base, ins + {p}, strstart, p + 1)
  {
    hide HashAt, Linked, Pow2, Config.Valid;
    var p, w := base + strstart, cf.WSize();
    var h := HashAt(cf, input, p);
    SameSlot(base, strstart, w);
    var head', prev', ins' := head[h := strstart], prev[strstart % w := head[h]], ins + {p};
    LinkNew(cf, input, base, ins, strstart);
    LinkBefore(cf, input, base, ins, head[h], h, p, p);
    forall k | 0 <= k < |head'|
      ensures Linked(cf, input, base, ins', head'[k], k, p + 1)
    {
      if k != h {
        LinkOther(cf, input, base, ins, head[k], k, p);
      }
    }
    forall q | q in ins' && q + w > p
      ensures Linked(cf, input, base, ins', prev'[q % w], HashAt(cf, input, q), q)
    {
      if q != p {
        OtherSlot(q, p, w);
        LinkBefore(cf, input, base, ins, prev[q % w], HashAt(cf, input, q), q, p);
      }
    }
  }

  lemma SameSlot(base: nat, strstart: nat, w: nat)
    requires w > 0 && base % w == 0
    ensures (base + strstart) % w == strstart % w < w
  {
    var k, q, r := base / w, strstart / w, strstart % w;
    MulAdd(w, k, q);
    DivModUnique(base + strstart, w, k + q, r);
  }

  lemma OtherSlot(q: nat, p: nat, w: nat)
    requires q < p < q + w
    ensures q % w != p % w
  {
    var a, b := q / w, p / w;
    MulSub(w, b, a);
    if b > a {
      MulLe(1, w, b - a, w);
    } else {
      MulLe(b, w, a, w);
    }
  }

  /** Following prev from an inserted string within reach stays on its chain. */
  lemma FollowChain(cf: Config, head: seq<nat>, prev: seq<nat>, input: seq<byte>, base: nat, ins: set<nat>,
                    strstart: nat, top: nat, cur: nat)
    requires cf.Valid() && Tables(cf, head, prev, input, base, ins, strstart, top)
    requires base + cur in ins && cur + cf.WSize() > strstart
    ensures cur % cf.WSize() < |prev|
    ensures Linked(cf, input, base, ins, prev[cur % cf.WSize()], HashAt(cf, input, base + cur), base + cur)
  {
    SameSlot(base, cur, cf.WSize());
  }

  /** The slide of one table by half the window. */
  function Slid(s: seq<nat>, w: nat): (r: seq<nat>)
    ensures |r| == |s| && forall i :: 0 <= i < |s| ==> r[i] == if s[i] >= w then s[i] - w else 0
  {
    seq(|s|, i requires 0 <= i < |s| => if s[i] >= w then s[i] - w else 0)
  }

  lemma LinkSlid(cf: Config, input: seq<byte>, base: nat, ins: set<nat>, v: nat, h: nat, below: nat, w: nat)
    requires (forall p :: p in ins ==> p + 2 < |input|) && Linked(cf, input, base, ins, v, h, below)
    ensures Linked(cf, input, base + w, ins, if v >= w then v - w else 0, h, below)
  {
    hide HashAt;
  }

  lemma SlideKeepsTables(cf: Config, head: seq<nat>, prev: seq<nat>, input: seq<byte>, base: nat, ins: set<nat>,
                         strstart: nat, top: nat)
    requires cf.Valid() && Tables(cf, head, prev, input, base, ins, strstart, top) && strstart >= cf.WSize()
    ensures Tables(cf, Slid(head, cf.WSize()), Slid(prev, cf.WSize()), input, base + cf.WSize(), ins,
                   strstart - cf.WSize(), top)
  {
    hide Pow2, HashAt, Linked, Config.Valid;
    var w := cf.WSize();
    SlidBase(base, w);
    var head', prev' := Slid(head, w), Slid(prev, w);
    forall k | 0 <= k < |head'|
      ensures Linked(cf, input, base + w, ins, head'[k], k, top)
    {
      LinkSlid(cf, input, base, ins, head[k], k, top, w);
    }
    forall q | q in ins && q + w > base + strstart
      ensures Linked(cf, input, base + w, ins, prev'[q % w], HashAt(cf, input, q), q)
    {
      LinkSlid(cf, input, base, ins, prev[q % w], HashAt(cf, input, q), q, w);
    }
  }

  lemma SlidBase(base: nat, w: nat)
    requires w > 0 && base % w == 0
    ensures (base + w) % w == 0
  {
    MulAdd(w, base / w, 1);
    DivModUnique(base + w, w, base / w + 1, 0);
  }

  /** More input, or a later position, changes no hash and no chain. */
  lemma TablesGrow(cf: Config, head: seq<nat>, prev: seq<nat>, input: seq<byte>, base: nat, ins: set<nat>,
                   strstart: nat, top: nat, more: seq<byte>, strstart': nat, top': nat)
    requires cf.Valid() && Tables(cf, head, prev, input, base, ins, strstart, top)
    requires strstart <= strstart' && top <= top'
    ensures Tables(cf, head, prev, input + more, base, ins, strstart', top')
  {
    var input' := input + more;
    forall p | p in ins
      ensures p + 2 < |input'| && HashAt(cf, input', p) == HashAt(cf, input, p)
    {
    }
    forall k | 0 <= k < |head|
      ensures Linked(cf, input', base, ins, head[k], k, top')
    {
      assert Linked(cf, input, base, ins, head[k], k, top);
    }
    forall q | q in ins && q + cf.WSize() > base + strstart'
      ensures Linked(cf, input', base, ins, prev[q % cf.WSize()], HashAt(cf, input', q), q)
    {
      assert Linked(cf, input, base, ins, prev[q % cf.WSize()], HashAt(cf, input, q), q);
    }
  }
}
