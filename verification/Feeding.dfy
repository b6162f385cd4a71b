/**
 Input that comes in pieces, and room for output that does.  Whenever inflate_blocks leaves for
 want of either, the caller comes back with the next piece, or with the next output buffer.
 */
module Feeding {
  import opened Bits
  import opened BitOrder
  import opened BitWriting
  import opened BitReading

  /** The pieces in one. */
  function Joined(pieces: seq<seq<byte>>): seq<byte> {
    if pieces == [] then [] else Joined(pieces[..|pieces| - 1]) + pieces[|pieces| - 1]
  }

  lemma JoinedNext(pieces: seq<seq<byte>>, i: nat)
    requires i < |pieces|
    ensures Joined(pieces[..i + 1]) == Joined(pieces[..i]) + pieces[i]
  {
    assert pieces[..i + 1][..i] == pieces[..i];
  }

  lemma {:induction false} JoinedFirst(pieces: seq<seq<byte>>)
    requires pieces != []
    ensures Joined(pieces) == pieces[0] + Joined(pieces[1..])
    decreases |pieces|
  {
    var n := |pieces| - 1;
    if n > 0 {
      JoinedFirst(pieces[..n]);
      assert pieces[..n][1..] == pieces[1..][..n - 1];
      hide Joined;
      JoinedNext(pieces[1..], n - 1);
      JoinedNext(pieces, n);
      assert pieces[1..][..n] == pieces[1..] && pieces[..n + 1] == pieces;
      assert (pieces[0] + Joined(pieces[1..][..n - 1])) + pieces[n] == pieces[0] + (Joined(pieces[1..][..n - 1]) + pieces[n]);
    }
  }

  /** Bytes cut into pieces of these sizes, as far as there are bytes, and the rest. */
  function Chopped(bytes: seq<byte>, sizes: seq<nat>): (pieces: seq<seq<byte>>)
    decreases |sizes|
  {
    if sizes == [] || sizes[0] > |bytes| then [bytes] else [bytes[..sizes[0]]] + Chopped(bytes[sizes[0]..], sizes[1..])
  }

  lemma {:induction false} ChoppedJoins(bytes: seq<byte>, sizes: seq<nat>)
    ensures Joined(Chopped(bytes, sizes)) == bytes
    decreases |sizes|
  {
    if sizes == [] || sizes[0] > |bytes| {
      assert Joined([]) == [] && [bytes][..0] == [];
    } else {
      var rest := Chopped(bytes[sizes[0]..], sizes[1..]);
      ChoppedJoins(bytes[sizes[0]..], sizes[1..]);
      JoinedFirst([bytes[..sizes[0]]] + rest);
      assert ([bytes[..sizes[0]]] + rest)[1..] == rest;
      assert bytes[..sizes[0]] + bytes[sizes[0]..] == bytes;
    }
  }

  /** The room in all buffers. */
  function Roomy(rooms: seq<nat>): nat {
    if rooms == [] then 0 else rooms[0] + Roomy(rooms[1..])
  }

  class Feed {
    const r: BitReader
    var pieces: seq<seq<byte>>
    var rooms: seq<nat>

    ghost predicate Valid()
      reads r
    {
      r.Valid()
    }

    /** The bits to come, those not supplied yet included. */
    ghost function Ahead(): seq<bool>
      requires r.p <= |r.input|
      reads this`pieces, r
    {
      r.Ahead() + ByteBits(Joined(pieces))
    }

    /** The room in the output buffers still to come. */
    function Room(): nat
      reads this`rooms
    {
      Roomy(rooms)
    }

    constructor (pieces: seq<seq<byte>>, rooms: seq<nat>)
      ensures this.rooms == rooms && Room() == Roomy(rooms)
      ensures Valid() && fresh(r) && r.p <= |r.input| && Ahead() == ByteBits(Joined(pieces)) && this.pieces == pieces && r.InHand()
    {
      hide ByteBits, Joined, r.Valid, r.Ahead;
      r := new BitReader();
      this.pieces, this.rooms := pieces, rooms;
    }

    /** The next piece. */
    method Next() returns (chunk: seq<byte>)
      requires pieces != []
      modifies this`pieces
      ensures |pieces| == |old(pieces)| - 1 && ByteBits(Joined(old(pieces))) == ByteBits(chunk) + ByteBits(Joined(pieces))
    {
      hide Joined, ByteBits;
      JoinedFirst(pieces);
      chunk, pieces := pieces[0], pieces[1..];
      ByteBitsConcat(chunk, Joined(pieces));
    }

    /** The next output buffer. */
    method NextRoom() returns (room: nat)
      requires rooms != []
      modifies this`rooms
      ensures |rooms| == |old(rooms)| - 1 && room + Room() == old(Room())
    {
      room, rooms := rooms[0], rooms[1..];
    }

    lemma NoRoom()
      requires rooms == []
      ensures Room() == 0
    {
    }

    /** The reader is supplied with the next piece, if there is one. */
    method More() returns (ok: bool)
      requires Valid() && r.p == |r.input|
      modifies this`pieces, r`input, r`p
      ensures Valid() && r.p <= |r.input| && Ahead() == old(Ahead()) && r.k == old(r.k) && r.b == old(r.b)
      ensures if ok then |pieces| == |old(pieces)| - 1 else pieces == old(pieces) == [] && r.p == |r.input| && Ahead() == r.Ahead()
    {
      hide Joined, ByteBits, r.Valid, r.Ahead;
      ok := pieces != [];
      if ok {
        ghost var a := r.Ahead();
        var chunk := Next();
        r.Supply(chunk);
        assert (a + ByteBits(chunk)) + ByteBits(Joined(pieces)) == a + (ByteBits(chunk) + ByteBits(Joined(pieces)));
      } else {
        AllSupplied();
      }
    }

    lemma AllSupplied()
      requires Valid() && pieces == [] && r.p <= |r.input|
      ensures Ahead() == r.Ahead()
    {
      hide r.Valid, r.Ahead;
      assert ByteBits([]) == [];
    }

    /** NEEDBITS, until there are as many bits or no more input. */
    method Need(j: nat) returns (ok: bool)
      requires Valid() && j <= 24
      modifies this`pieces, r`b, r`k, r`p, r`extra, r`input
      ensures Valid() && r.p <= |r.input| && Ahead() == old(Ahead()) && (ok <==> r.k >= j) && (!ok ==> |Ahead()| < j)
      ensures old(r.InHand()) && j <= 8 ==> r.InHand()
    {
      hide Joined, ByteBits, r.Valid, r.Ahead;
      r.InInput();
      ok := r.NeedBits(j);
      r.InInput();
      while !ok
        invariant Valid() && r.p <= |r.input| && Ahead() == old(Ahead()) && (ok <==> r.k >= j)
        invariant !ok ==> r.p == |r.input| && |r.Ahead()| < j && r.k < j
        invariant old(r.InHand()) && j <= 8 ==> r.InHand()
        decreases |pieces|, !ok
      {
        var more := More();
        if !more {
          return;
        }
        ok := r.NeedBits(j);
        r.InInput();
      }
    }

    /** NEEDBITS(32), on a byte boundary. */
    method NeedWord() returns (ok: bool)
      requires Valid() && r.k % 8 == 0
      modifies this`pieces, r`b, r`k, r`p, r`extra, r`input
      ensures Valid() && r.p <= |r.input| && Ahead() == old(Ahead()) && (ok <==> r.k == 32) && (!ok ==> |Ahead()| < 32)
    {
      hide Joined, ByteBits, r.Valid, r.Ahead;
      r.InInput();
      ok := r.NeedWord();
      r.HeldWithin();
      while !ok
        invariant Valid() && r.p <= |r.input| && Ahead() == old(Ahead()) && (ok <==> r.k == 32) && (!ok ==> r.k % 8 == 0)
        invariant !ok ==> r.p == |r.input| && |r.Ahead()| < 32
        decreases |pieces|, !ok
      {
        var more := More();
        if !more {
          return;
        }
        ok := r.NeedWord();
        r.HeldWithin();
      }
    }

    /** What is read from the bits at hand is read from all bits to come. */
    lemma Front(j: nat)
      requires Valid() && r.p <= |r.input| && j <= |r.Ahead()|
      ensures j <= |Ahead()| && Ahead()[..j] == r.Ahead()[..j] && Ahead()[j..] == r.Ahead()[j..] + ByteBits(Joined(pieces))
    {
      hide r.Valid, r.Ahead, ByteBits, Joined;
    }

    /** DUMPBITS */
    method Dump(j: nat)
      requires Valid() && j <= r.k
      modifies r`b, r`k
      ensures Valid() && r.p <= |r.input| && r.k == old(r.k) - j && j <= |old(Ahead())| && Ahead() == old(Ahead())[j..]
      ensures old(r.InHand()) ==> r.InHand()
    {
      hide r.Valid, r.Ahead, ByteBits, Joined;
      r.InInput();
      r.PeekIs(j);
      Front(j);
      r.DumpBits(j);
    }

    /** The low j bits are the next to come. */
    lemma PeekIs(j: nat)
      requires Valid() && j <= r.k
      ensures r.p <= |r.input| && j <= |Ahead()| && r.Peek(j) == FromLow(Ahead()[..j])
    {
      hide r.Valid, r.Ahead, ByteBits, Joined;
      r.InInput();
      r.PeekIs(j);
      Front(j);
    }
  }
}
