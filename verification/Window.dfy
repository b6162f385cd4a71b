/**
 The output window of inflate: a ring that holds what is still to be delivered and, behind
 that, the history that matches are copied from.
 */
module Window {
  import opened Bits
  import opened Lz77Tokens

  /** Where the byte that entered d bytes before the write position lies, in a ring of the given size. */
  function Back(write: nat, d: nat, size: nat): int {
    if write < d then size - (d - write) else write - d
  }

  /** The last bytes of the history, up to the size of the ring, are where matches look for them. */
  ghost predicate Remembered(w: seq<byte>, write: nat, hist: seq<byte>) {
    && write <= |w|
    && forall d :: 1 <= d <= |w| && d <= |hist| ==> w[Back(write, d, |w|)] == hist[|hist| - d]
  }

  lemma RememberWrapped(w: seq<byte>, write: nat, hist: seq<byte>)
    requires Remembered(w, write, hist)
    ensures Remembered(w, if write == |w| then 0 else write, hist)
  {
    if write == |w| {
      forall d | 1 <= d <= |w| && d <= |hist|
        ensures w[Back(0, d, |w|)] == hist[|hist| - d]
      {
        assert w[Back(|w|, d, |w|)] == hist[|hist| - d];
      }
    }
  }

  lemma RememberMore(w: seq<byte>, write: nat, hist: seq<byte>, a: byte)
    requires Remembered(w, write, hist) && write < |w|
    ensures Remembered(w[write := a], write + 1, hist + [a])
  {
    var w', h', write' := w[write := a], hist + [a], write + 1;
    forall d | 1 <= d <= |w'| && d <= |h'|
      ensures w'[Back(write', d, |w'|)] == h'[|h'| - d]
    {
      if d > 1 {
        assert w[Back(write, d - 1, |w|)] == hist[|hist| - (d - 1)];
      }
    }
  }

  /** The bytes of a ring from the read position up to the write position. */
  ghost function Between(w: seq<byte>, read: nat, write: nat): seq<byte>
    requires read <= |w| && write <= |w|
  {
    if read <= write then w[read..write] else w[read..] + w[..write]
  }

  lemma ReadOn(w: seq<byte>, read: nat, write: nat, n: nat)
    requires read <= |w| && write <= |w| && n <= (if read <= write then write else |w|) - read
    ensures Between(w, read, write) == w[read..read + n] + Between(w, read + n, write)
  {
    if read > write {
      assert w[read..] == w[read..read + n] + w[read + n..];
    }
  }

  lemma ReadWraps(w: seq<byte>, write: nat)
    requires write <= |w|
    ensures Between(w, |w|, write) == Between(w, 0, if write == |w| then 0 else write)
  {
  }

  /** What the decoders see of a window. */
  datatype Ring = Ring(win: seq<byte>, read: nat, write: nat, m: nat, out: seq<byte>, hist: seq<byte>, produced: seq<byte>)

  ghost function RingOf(w: Window): Ring
    reads w, w.window
  {
    Ring(w.window[..], w.read, w.write, w.m, w.out, w.hist, w.produced)
  }

  /** The bytes that entered the history stand in the ring from where the write pointer was, which has gone on without wrapping,
      and nothing else has changed. */
  ghost predicate Grown(a: Ring, b: Ring) {
    && a.hist <= b.hist
    && var more := b.hist[|a.hist|..];
       && a.write + |more| <= |a.win| && b.win == (a.win[..a.write] + more) + a.win[a.write + |more|..]
       && b.write == a.write + |more| && b.m + |more| == a.m && b.read == a.read && b.out == a.out
       && b.produced == a.produced + more
  }

  lemma GrownNot(a: Ring)
    requires a.write <= |a.win|
    ensures Grown(a, a)
  {
    assert a.hist[|a.hist|..] == [] && a.win == (a.win[..a.write] + []) + a.win[a.write..] && a.produced + [] == a.produced;
  }

  lemma GrownMore(a: Ring, b: Ring, c: Ring)
    requires Grown(a, b) && Grown(b, c)
    ensures Grown(a, c)
  {
    var x, y := b.hist[|a.hist|..], c.hist[|b.hist|..];
    assert c.hist[|a.hist|..] == x + y;
    assert b.win[..b.write] == a.win[..a.write] + x && b.win[b.write + |y|..] == a.win[a.write + |x + y|..];
    assert (a.win[..a.write] + x) + y == a.win[..a.write] + (x + y);
    assert (a.produced + x) + y == a.produced + (x + y);
  }

  /** From equal rings, growing to one history gives equal rings. */
  lemma GrownAlike(a: Ring, b: Ring, a': Ring, b': Ring)
    requires Grown(a, a') && Grown(b, b') && a.hist == b.hist && a'.hist == b'.hist
    requires a.win == b.win && a.read == b.read && a.write == b.write
    ensures a'.win == b'.win && a'.read == b'.read && a'.write == b'.write
  {
  }

  lemma GrownOne(a: Ring, b: Ring, x: byte)
    requires a.write < |a.win| && b == a.(win := a.win[a.write := x], write := a.write + 1, m := b.m, hist := a.hist + [x], produced := a.produced + [x])
    requires b.m + 1 == a.m
    ensures Grown(a, b)
  {
    assert b.hist[|a.hist|..] == [x];
  }

  /** The ring with its pointers as indices, the local m of the decoder, and the output delivered so far. */
  class Window {
    const window: array<byte>
    var read: nat
    var write: nat
    var m: nat
    var out: seq<byte>
    ghost var hist: seq<byte>
    ghost var produced: seq<byte>

    /** WAVAIL */
    function Avail(): int
      reads this
    {
      if write < read then read - write - 1 else window.Length - write
    }

    /** The bytes in the ring that have not been delivered. */
    ghost function Unread(): seq<byte>
      requires read <= window.Length && write <= window.Length
      reads this, window
    {
      Between(window[..], read, write)
    }

    /** What was delivered and what is still in the ring are all the bytes produced, in order, and the ring
        remembers the last bytes that entered the history. */
    ghost predicate Valid()
      reads this, window
    {
      && window.Length >= 1 && read <= window.Length && write <= window.Length && m == Avail()
      && out + Unread() == produced && Remembered(window[..], write, hist)
    }

    constructor (size: nat)
      requires size >= 1
      ensures Valid() && window.Length == size == m && hist == [] && produced == [] && out == [] && fresh(window)
    {
      window := new byte[size](i => 0);
      read, write, m, out := 0, 0, size, [];
      hist, produced := [], [];
    }

    /** OUTBYTE */
    method OutByte(a: byte)
      requires Valid() && m > 0
      modifies this`write, this`m, this`hist, this`produced, window
      ensures Valid() && hist == old(hist) + [a] && produced == old(produced) + [a]
      ensures m == old(m) - 1 && write == old(write) + 1 && Grown(old(RingOf(this)), RingOf(this))
    {
      hide Remembered, Grown;
      ghost var w, ring := window[..], RingOf(this);
      RememberMore(w, write, hist, a);
      window[write] := a;
      write := write + 1;
      m := m - 1;
      hist, produced := hist + [a], produced + [a];
      assert window[..] == w[write - 1 := a];
      if read <= write {
        assert window[read..write] == w[read..write - 1] + [a];
      } else {
        assert window[read..] == w[read..] && window[..write] == w[..write - 1] + [a];
      }
      GrownOne(ring, RingOf(this), a);
    }

    /** WWRAP: at the end of the ring writing goes on at its start, unless the reader is still there. */
    method Wrap()
      requires Valid()
      modifies this`write, this`m
      ensures Valid()
      ensures if old(write) == window.Length && read != 0 then write == 0 else write == old(write)
    {
      hide Remembered;
      if write == window.Length && read != 0 {
        RememberWrapped(window[..], write, hist);
        write := 0;
        m := Avail();
        assert window[..][read..] + window[..][..0] == window[..][read..window.Length];
      }
    }

    /** One copy of inflate_flush: up to n bytes from the read pointer, as far as the output has room. */
    method Deliver(n0: nat, availOut: nat) returns (n: nat)
      requires read + n0 <= window.Length
      modifies this`read, this`out
      ensures n == (if n0 > availOut then availOut else n0) && read == old(read) + n
      ensures out == old(out) + window[..][old(read)..read]
    {
      n := n0;
      if n > availOut {
        n := availOut;
      }
      assert window[..][read..read + n] == window[read..read + n];
      out := out + window[read..read + n];
      read := read + n;
    }

    /** inflate_flush: deliver what fits, first up to the end of the ring, then from its start; then LOADOUT. */
    method Flush(availOut: nat) returns (left: nat)
      requires Valid()
      modifies this`read, this`write, this`m, this`out
      ensures Valid() && |out| + left == |old(out)| + availOut
      ensures read < window.Length && (left > 0 ==> read == write && out == produced)
      ensures out <= produced && old(out) <= out
      ensures write == old(write) || (old(write) == window.Length && write == 0)
    {
      hide Remembered, Between;
      ghost var w := window[..];
      var size := (if read <= write then write else window.Length) - read;
      ReadOn(w, read, write, if size > availOut then availOut else size);
      var n := Deliver(size, availOut);
      left := availOut - n;
      if read == window.Length {
        left := DeliverRest(left);
      }
      m := Avail();
      FlushEnds(w, read, write);
    }

    /** "see if more to copy at beginning of window" */
    method DeliverRest(availOut: nat) returns (left: nat)
      requires read == window.Length >= 1 && write <= window.Length && Remembered(window[..], write, hist)
      modifies this`read, this`write, this`out
      ensures read <= window.Length && write <= window.Length && Remembered(window[..], write, hist)
      ensures out + Unread() == old(out + Unread()) && old(out) <= out && |out| + left == |old(out)| + availOut
      ensures (left > 0 ==> read == write) && read <= write < window.Length
      ensures write == old(write) || (old(write) == window.Length && write == 0)
    {
      hide Remembered, Between;
      ghost var w := window[..];
      ReadWraps(w, write);
      RememberWrapped(w, write, hist);
      read := 0;
      if write == window.Length {
        write := 0;
      }
      ReadOn(w, 0, write, if write > availOut then availOut else write);
      ghost var before := out;
      var n := Deliver(write, availOut);
      left := availOut - n;
      assert window[..] == w && w[0..read] == w[..n];
      assert (before + w[..n]) + Between(w, n, write) == before + (w[..n] + Between(w, n, write));
    }

    lemma FlushEnds(w: seq<byte>, read: nat, write: nat)
      requires read <= |w| && write <= |w|
      ensures read == write ==> Between(w, read, write) == []
    {
    }

    /** NEEDOUT: room for a byte, made by wrapping and by delivering output; ok tells whether there is any. */
    method NeedOut(availOut: nat) returns (ok: bool, left: nat)
      requires Valid()
      modifies this`read, this`write, this`m, this`out
      ensures Valid() && (ok <==> m > 0) && |out| + left == |old(out)| + availOut
      ensures old(out) <= out && (!ok ==> left == 0 && |out| < |produced|)
      ensures old(m) > 0 ==> left == availOut && RingOf(this) == old(RingOf(this))
      ensures write == old(write) || (old(write) == window.Length && write == 0)
    {
      left := availOut;
      if m == 0 {
        Wrap();
        if m == 0 {
          left := Flush(availOut);
          Wrap();
          if m == 0 {
            Waits();
            return false, left;
          }
        }
      }
      ok := true;
    }

    /** Something in the ring is not delivered. */
    lemma Waits()
      requires Valid() && read != write && read < window.Length
      ensures |out| < |produced|
    {
      hide Remembered;
    }

    lemma Emptied()
      requires Valid() && read == write
      ensures out == produced
    {
      assert out + [] == out;
    }

    lemma InRing()
      requires Valid()
      ensures write <= window.Length && (m > 0 ==> write < window.Length)
    {
    }

    /** Where a match at distance d is copied from: the byte that entered the history d bytes ago. */
    lemma Source(d: nat)
      requires Valid() && 1 <= d <= window.Length && d <= |hist|
      ensures 0 <= Back(write, d, window.Length) < window.Length
      ensures window[Back(write, d, window.Length)] == hist[|hist| - d]
    {
      assert window[..][Back(write, d, window.Length)] == hist[|hist| - d];
    }

    /** *q++ = *r++, where r is d bytes back. */
    method CopyByte(r: nat, d: nat, ghost h: seq<byte>, ghost done: nat)
      requires Valid() && m > 0 && 1 <= d <= window.Length && d <= |h| && hist == Copy(h, d, done)
      requires r == Back(write, d, window.Length)
      modifies this`write, this`m, this`hist, this`produced, window
      ensures Valid() && hist == Copy(h, d, done + 1) && produced == old(produced) + [hist[|hist| - 1]]
      ensures m == old(m) - 1 && write == old(write) + 1 && Grown(old(RingOf(this)), RingOf(this))
    {
      hide Grown;
      Source(d);
      OutByte(window[r]);
    }

    /** n bytes copied forward from r, which stays d back; the loop tests at its end, so there must be one. */
    method CopyRun(r0: nat, d: nat, n: nat, ghost h: seq<byte>, ghost done: nat) returns (r: nat)
      requires Valid() && 1 <= n <= m && 1 <= d <= window.Length && d <= |h| && hist == Copy(h, d, done)
      requires r0 == Back(write, d, window.Length) && (write < d ==> write + n <= d)
      modifies this`write, this`m, this`hist, this`produced, window
      ensures Valid() && hist == Copy(h, d, done + n) && m == old(m) - n && write == old(write) + n && r == r0 + n
      ensures |old(hist)| <= |hist| && produced == old(produced) + hist[|old(hist)|..] && Grown(old(RingOf(this)), RingOf(this))
    {
      hide Remembered, Copy, Between, Grown;
      r := r0;
      var i: nat := 0;
      ghost var ring := RingOf(this);
      GrownNot(ring);
      while i < n
        invariant i <= n && Valid() && hist == Copy(h, d, done + i) && m == old(m) - i && write == old(write) + i
        invariant r == r0 + i && |hist| == |old(hist)| + i && produced == old(produced) + hist[|old(hist)|..]
        invariant Grown(ring, RingOf(this))
      {
        ghost var was, before := hist, RingOf(this);
        CopyByte(r, d, h, done + i);
        GrownMore(ring, before, RingOf(this));
        CopyNext(h, d, done + i);
        r := r + 1;
        i := i + 1;
        assert hist[|old(hist)|..] == was[|old(hist)|..] + [hist[|hist| - 1]];
      }
    }

    lemma CopyNext(h: seq<byte>, d: nat, n: nat)
      requires 1 <= d <= |h|
      ensures Copy(h, d, n + 1) == Copy(h, d, n) + [Copy(h, d, n)[|h| + n - d]]
    {
    }

    /** The first bytes of a copy: two, or all up to the end of the ring if the source lies across it. */
    method CopyStart(c0: nat, d: nat, ghost h: seq<byte>) returns (c: nat, r: nat)
      requires Valid() && MIN_MATCH <= c0 <= m && 1 <= d <= window.Length && d <= |h| && hist == Copy(h, d, 0)
      modifies this`write, this`m, this`hist, this`produced, window
      ensures 1 <= c <= c0 && Valid() && hist == Copy(h, d, c0 - c) && m == old(m) - (c0 - c) && write == old(write) + (c0 - c)
      ensures r == Back(write, d, window.Length) && (write < d ==> write + c <= d)
      ensures |old(hist)| <= |hist| && produced == old(produced) + hist[|old(hist)|..] && Grown(old(RingOf(this)), RingOf(this))
    {
      hide Remembered, Copy, Grown;
      GrownNot(RingOf(this));
      c := c0;
      if write >= d {
        r := write - d;
        r := CopyRun(r, d, 2, h, 0);
        c := c - 2;
      } else {
        var e := d - write;
        r := window.Length - e;
        if c > e {
          c := c - e;
          r := CopyRun(r, d, e, h, 0);
          r := 0;
        }
      }
    }

    /** The copy of inflate_fast: c bytes from d back, with room for all of them and no wrap of the write pointer. */
    method FastCopy(c0: nat, d: nat)
      requires Valid() && MIN_MATCH <= c0 <= m && 1 <= d <= window.Length && d <= |hist|
      modifies this`write, this`m, this`hist, this`produced, window
      ensures Valid() && hist == Copy(old(hist), d, c0) && m == old(m) - c0 && write == old(write) + c0
      ensures old(hist) <= hist && produced == old(produced) + hist[|old(hist)|..] && Grown(old(RingOf(this)), RingOf(this))
    {
      hide Remembered, Copy, Between, Grown;
      ghost var h := hist;
      NoCopy(h, d);
      var c, r := CopyStart(c0, d, h);
      ghost var mid, ring := hist, RingOf(this);
      r := CopyRun(r, d, c, h, c0 - c);
      GrownMore(old(RingOf(this)), ring, RingOf(this));
      CopyGrows(h, d, c0 - c, c);
      CopyGrows(h, d, 0, c0);
      assert hist[|h|..] == mid[|h|..] + hist[|mid|..];
    }

    lemma NoCopy(h: seq<byte>, d: nat)
      requires 1 <= d <= |h|
      ensures Copy(h, d, 0) == h
    {
    }

    lemma {:induction false} CopyGrows(h: seq<byte>, d: nat, k: nat, n: nat)
      requires 1 <= d <= |h|
      ensures Copy(h, d, k) <= Copy(h, d, k + n) && |Copy(h, d, k)| == |h| + k
    {
      if n > 0 {
        CopyGrows(h, d, k, n - 1);
      }
    }

    /** The memcpy of inflate_addhistory: t bytes from the input go into the ring. */
    method CopyIn(input: seq<byte>, p: nat, t: nat)
      requires write + t <= window.Length && p + t <= |input| && Remembered(window[..], write, hist)
      modifies this`write, this`hist, window
      ensures write == old(write) + t && hist == old(hist) + input[p..p + t] && Remembered(window[..], write, hist)
    {
      hide Remembered;
      var i: nat := 0;
      assert hist + input[p..p] == hist;
      while i < t
        invariant i <= t && write == old(write) + i && hist == old(hist) + input[p..p + i]
        invariant Remembered(window[..], write, hist)
      {
        ghost var w := window[..];
        RememberMore(w, write, hist, input[p + i]);
        window[write] := input[p + i];
        assert window[..] == w[write := input[p + i]];
        assert input[p..p + i + 1] == input[p..p + i] + [input[p + i]];
        hist := hist + [input[p + i]];
        write := write + 1;
        i := i + 1;
      }
    }

    /** inflate_addhistory: a packet that came uncompressed enters the history without being output here.  atType tells whether
        inflate_blocks stands before a block. */
    method AddHistory(input: seq<byte>, atType: bool) returns (ok: bool)
      requires Valid()
      modifies this`read, this`write, this`m, this`hist, window
      ensures Valid() && (ok <==> old(read) == old(write) && atType)
      ensures hist == if ok then old(hist) + input else old(hist)
      ensures ok ==> read == write
    {
      hide Remembered;
      if read != write {
        return false;
      }
      if !atType {
        return false;
      }
      var p: nat := 0;
      assert hist + input[..0] == hist && out == produced;
      while p < |input|
        invariant p <= |input| && read == write <= window.Length && m == Avail()
        invariant hist == old(hist) + input[..p] && Remembered(window[..], write, hist)
        decreases |input| - p, m == 0
      {
        var t := |input| - p;
        if t > m {
          t := m;
        }
        CopyIn(input, p, t);
        assert input[..p + t] == input[..p] + input[p..p + t];
        p := p + t;
        read := write;
        RememberWrapped(window[..], write, hist);
        if write == window.Length {
          read := 0;
          write := 0;
        }
        m := Avail();
      }
      assert input[..p] == input;
      ok := true;
    }
  }
}
