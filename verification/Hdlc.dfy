/**
 Asynchronous framing of PPP (section 4.2 of RFC 1662): the writer adds a check sequence and
 escapes octets, the reader undoes both.
 */
module Hdlc {
  import opened FrameCheck
  import opened Options

  const FLAG: Octet := 0x7e
  const ESCAPE: Octet := 0x7d
  const TRANS: Octet := 0x20
  const MAX_RECV_SIZE: nat := 4096

  // ----- the writer

  predicate Special(e: Octet) {
    e < 0x20 || e == ESCAPE || e == FLAG
  }

  function Flip(e: Octet): Octet {
    FlipTwice(e);
    e ^ TRANS
  }

  lemma FlipTwice(e: Octet)
    ensures (e ^ TRANS) < 0x100 && (e ^ TRANS) ^ TRANS == e
    ensures Special(e) ==> (e ^ TRANS) != FLAG && (e ^ TRANS) != ESCAPE && (e ^ TRANS) >= 0x20
  {
  }

  function Stuffed(e: Octet): (s: seq<Octet>)
    ensures 1 <= |s| <= 2
  {
    if Special(e) then [ESCAPE, Flip(e)] else [e]
  }

  function Stuff(data: seq<Octet>): (s: seq<Octet>)
    ensures |data| <= |s| <= 2 * |data|
  {
    if data == [] then [] else Stuff(data[..|data| - 1]) + Stuffed(data[|data| - 1])
  }

  /** The frame for a payload. */
  function Frame(payload: seq<Octet>): seq<Octet> {
    [FLAG] + Stuff(payload + Check(Fold(INIT_FCS, payload))) + [FLAG]
  }

  /** Octet by octet, as section 4.2 of RFC 1662 has it: control characters, 0x7d and 0x7e become 0x7d and the octet with its
      sixth bit changed. */
  lemma StuffedIs(e: Octet)
    ensures Stuffed(e) == if e >= 0x20 && e != 0x7d && e != 0x7e then [e] else [0x7d, if e < 0x20 then e + 0x20 else e - 0x20]
  {
  }

  /** The frame of the digits 1 to 4 between its flags. */
  lemma FrameOfDigits()
    ensures Frame([0x31, 0x32, 0x33, 0x34]) == [0x7e, 0x31, 0x32, 0x33, 0x34, 0xec, 0x74, 0x7e]
  {
    Digits();
    var d: seq<Octet> := [0x31, 0x32, 0x33, 0x34];
    hide Fold, Check;
    var all: seq<Octet> := [0x31, 0x32, 0x33, 0x34, 0xec, 0x74];
    assert d + Check(Fold(INIT_FCS, d)) == all;
    PlainStuff(all);
  }

  lemma {:induction false} PlainStuff(data: seq<Octet>)
    requires forall i :: 0 <= i < |data| ==> !Special(data[i])
    ensures Stuff(data) == data
  {
    if data != [] {
      PlainStuff(data[..|data| - 1]);
    }
  }

  /** Between its flags a frame holds no flag, and no control character. */
  lemma {:induction false} NoFlagInside(data: seq<Octet>)
    ensures forall i :: 0 <= i < |Stuff(data)| ==> Stuff(data)[i] != FLAG && Stuff(data)[i] >= 0x20
  {
    if data != [] {
      NoFlagInside(data[..|data| - 1]);
      FlipTwice(data[|data| - 1]);
    }
  }

  /** add_fcs: room for two more octets is behind the payload. */
  method AddFcs(buf: array<Octet>, len: nat) returns (total: nat)
    requires len + 2 <= buf.Length
    modifies buf
    ensures total == len + 2
    ensures buf[..total] == old(buf[..len]) + Check(Fold(INIT_FCS, old(buf[..len])))
    ensures Fold(INIT_FCS, buf[..total]) == GOOD_FCS
  {
    hide Step, Low, High;
    var fcs := INIT_FCS;
    var x: nat := 0;
    while x < len
      invariant x <= len && fcs == Fold(INIT_FCS, buf[..x]) && buf[..] == old(buf[..])
    {
      assert buf[..x + 1][..x] == buf[..x];
      fcs := Step(fcs, buf[x]);
      x := x + 1;
    }
    ghost var data := buf[..len];
    buf[len], buf[len + 1] := Low(fcs), High(fcs);
    total := len + 2;
    assert buf[..total] == data + [Low(fcs), High(fcs)];
    GoodExactly(data, Low(fcs), High(fcs));
  }

  /** Room in the output for the octets of data, checked before each of them. */
  predicate Roomy(data: seq<Octet>, size: nat) {
    data == [] || 1 + |Stuff(data[..|data| - 1])| + 4 < size
  }

  lemma StuffNext(data: seq<Octet>, x: nat)
    requires x < |data|
    ensures Stuff(data[..x + 1]) == Stuff(data[..x]) + Stuffed(data[x])
  {
    assert data[..x + 1][..x] == data[..x];
  }

  lemma {:induction false} StuffGrows(data: seq<Octet>, x: nat, y: nat)
    requires x <= y <= |data|
    ensures |Stuff(data[..x])| <= |Stuff(data[..y])|
  {
    if x < y {
      StuffGrows(data, x, y - 1);
      StuffNext(data, y - 1);
    }
  }

  /** The conversion in write_packet: the frame of the payload, if it fits. */
  method WritePacket(buf: array<Octet>, len: nat, wbuf: array<Octet>) returns (ok: bool, pos: nat)
    requires len + 2 <= buf.Length && wbuf.Length == MAX_RECV_SIZE && buf != wbuf
    modifies buf, wbuf
    ensures ok <==> Roomy(old(buf[..len]) + Check(Fold(INIT_FCS, old(buf[..len]))), MAX_RECV_SIZE)
    ensures ok <==> var data := old(buf[..len]) + Check(Fold(INIT_FCS, old(buf[..len]))); |Stuff(data[..len + 1])| + 5 < 4096
    ensures ok ==> pos <= wbuf.Length && wbuf[..pos] == Frame(old(buf[..len]))
  {
    hide Special, Flip, Check, Fold, Stuff, Stuffed, Roomy;
    ghost var payload := buf[..len];
    var total := AddFcs(buf, len);
    ghost var data := buf[..total];
    wbuf[0] := FLAG;
    pos := 1;
    var x: nat := 0;
    NothingStuffed(data);
    LastChecked(data, 0);
    assert data[..|data| - 1] == data[..len + 1];
    while x < total
      invariant x <= total && buf[..total] == data && |data| == total && Roomy(data[..x], MAX_RECV_SIZE)
      invariant pos == 1 + |Stuff(data[..x])| && pos + 2 < wbuf.Length && wbuf[..pos] == [FLAG] + Stuff(data[..x])
    {
      StuffGrows(data, x, total - 1);
      LastChecked(data, x);
      if pos >= wbuf.Length - 4 {
        return false, pos;
      }
      StuffNext(data, x);
      pos := PutStuffed(wbuf, pos, buf[x]);
      assert buf[x] == data[x];
      x := x + 1;
    }
    wbuf[pos] := FLAG;
    pos := pos + 1;
    ok := true;
    assert data[..total] == data;
  }

  lemma NothingStuffed(data: seq<Octet>)
    ensures Stuff(data[..0]) == [] && Roomy(data[..0], MAX_RECV_SIZE)
  {
  }

  lemma LastChecked(data: seq<Octet>, x: nat)
    requires x < |data|
    ensures Roomy(data[..x + 1], MAX_RECV_SIZE) <==> 1 + |Stuff(data[..x])| + 4 < MAX_RECV_SIZE
    ensures Roomy(data, MAX_RECV_SIZE) <==> 1 + |Stuff(data[..|data| - 1])| + 4 < MAX_RECV_SIZE
  {
    assert data[..x + 1][..x] == data[..x];
  }

  method PutStuffed(wbuf: array<Octet>, pos0: nat, e0: Octet) returns (pos: nat)
    requires pos0 + 2 < wbuf.Length
    modifies wbuf
    ensures pos == pos0 + |Stuffed(e0)| && wbuf[..pos] == old(wbuf[..pos0]) + Stuffed(e0)
  {
    FlipTwice(e0);
    var e := e0;
    pos := pos0;
    if e < 0x20 || e == ESCAPE || e == FLAG {
      e := e ^ TRANS;
      wbuf[pos] := ESCAPE;
      pos := pos + 1;
    }
    wbuf[pos] := e;
    pos := pos + 1;
  }

  // ----- the reader

  /** What read_packet has so far. */
  datatype Reading = Reading(got: seq<Octet>, escape: bool)

  /** What becomes of it: a packet, an escaped flag, an overrun, or nothing to read. */
  datatype Outcome = Packet(data: seq<Octet>) | Invalid | Overrun | Nothing(r: Reading)

  /** The reader over all that is there to read; n octets are consumed. */
  function Read(r: Reading, inp: seq<Octet>, max: nat): (Outcome, nat)
    decreases |inp|
  {
    if inp == [] then (Nothing(r), 0)
    else if inp[0] == FLAG then
      if r.escape then (Invalid, |inp|)
      else if |r.got| >= 2 then (Packet(r.got[..|r.got| - 2]), 1)
      else if |r.got| == 1 then (Packet(r.got), 1)
      else Onward(Read(r, inp[1..], max))
    else if inp[0] == ESCAPE then Onward(Read(r.(escape := true), inp[1..], max))
    else if |r.got| < max then Onward(Read(Take(r, inp[0]), inp[1..], max))
    else (Overrun, |inp|)
  }

  function Onward(o: (Outcome, nat)): (Outcome, nat) {
    (o.0, o.1 + 1)
  }

  function Take(r: Reading, ch: Octet): Reading {
    Reading(r.got + [if r.escape then Flip(ch) else ch], false)
  }

  /** The reader takes an octet back from what it was stuffed to. */
  lemma ReadStuffed(r: Reading, e: Octet, rest: seq<Octet>, max: nat)
    requires !r.escape && |r.got| < max
    ensures Read(r, Stuffed(e) + rest, max) == AfterMany(Read(Reading(r.got + [e], false), rest, max), |Stuffed(e)|)
  {
    FlipTwice(e);
    var s := Stuffed(e) + rest;
    assert s[1..] == if Special(e) then [Flip(e)] + rest else rest;
    if Special(e) {
      assert ([Flip(e)] + rest)[1..] == rest;
    }
  }

  function AfterMany(o: (Outcome, nat), n: nat): (Outcome, nat) {
    (o.0, o.1 + n)
  }

  lemma {:induction false} ReadData(got: seq<Octet>, data: seq<Octet>, rest: seq<Octet>, max: nat)
    requires |got| + |data| <= max
    ensures Read(Reading(got, false), Stuff(data) + rest, max) == AfterMany(Read(Reading(got + data, false), rest, max), |Stuff(data)|)
    decreases |data|
  {
    hide Stuffed, Read;
    if data == [] {
      assert Stuff(data) + rest == rest && got + data == got;
    } else {
      var front, e := data[..|data| - 1], data[|data| - 1];
      assert Stuff(data) + rest == Stuff(front) + (Stuffed(e) + rest);
      ReadData(got, front, Stuffed(e) + rest, max);
      ReadStuffed(Reading(got + front, false), e, rest, max);
      assert (got + front) + [e] == got + data;
    }
  }

  /** Reading a frame gives the payload, and no more is consumed. */
  lemma FrameRead(payload: seq<Octet>, rest: seq<Octet>, max: nat)
    requires |payload| + 2 <= max
    ensures Read(Reading([], false), Frame(payload) + rest, max) == (Packet(payload), |Frame(payload)|)
  {
    var data := payload + Check(Fold(INIT_FCS, payload));
    hide Read, Stuff, Check, Fold;
    CheckSize(payload);
    assert [] + data == data && data[..|data| - 2] == payload;
    assert Frame(payload) + rest == [FLAG] + (Stuff(data) + ([FLAG] + rest));
    StartRead(Stuff(data) + ([FLAG] + rest), max);
    ReadData([], data, [FLAG] + rest, max);
    EndRead(data, rest, max);
  }

  /** What comes of octets, stuffed, that fit the buffer: up to a flag a packet without its last two, whatever they are, or the
      only one there is, or nothing; and up to an escaped flag nothing valid. */
  lemma AnyFrame(data: seq<Octet>, rest: seq<Octet>, max: nat)
    requires |data| <= max
    ensures Read(Reading([], false), Stuff(data) + ([0x7e] + rest), max)
         == if |data| >= 2 then (Packet(data[..|data| - 2]), |Stuff(data)| + 1)
            else if |data| == 1 then (Packet(data), |Stuff(data)| + 1)
            else AfterMany(Read(Reading([], false), rest, max), 1)
    ensures Read(Reading([], false), Stuff(data) + ([0x7d, 0x7e] + rest), max).0 == Invalid
  {
    hide Read, Stuffed;
    StuffNone(data);
    hide Stuff;
    assert [] + data == data;
    ReadData([], data, [0x7e] + rest, max);
    ReadData([], data, [0x7d, 0x7e] + rest, max);
    Ending(data, rest, max);
  }

  lemma StuffNone(data: seq<Octet>)
    ensures data == [] ==> Stuff(data) == []
  {
  }

  /** More octets than fit are an overrun, and all that is there is thrown away. */
  lemma TooMany(data: seq<Octet>, rest: seq<Octet>, max: nat)
    requires |data| > max
    ensures Read(Reading([], false), Stuff(data) + rest, max) == (Overrun, |Stuff(data) + rest|)
  {
    hide Read, Stuff, Stuffed;
    var front, e := data[..max], data[max];
    var tail := StuffTail(data, max + 1);
    StuffNext(data, max);
    assert Stuff(data) + rest == Stuff(front) + (Stuffed(e) + (tail + rest));
    assert [] + front == front;
    ReadData([], front, Stuffed(e) + (tail + rest), max);
    Overrunning(front, e, tail + rest, max);
  }

  lemma Overrunning(got: seq<Octet>, e: Octet, rest: seq<Octet>, max: nat)
    requires |got| == max
    ensures Read(Reading(got, false), Stuffed(e) + rest, max) == (Overrun, |Stuffed(e) + rest|)
  {
    FlipTwice(e);
    var s := Stuffed(e) + rest;
    assert s[1..] == if Special(e) then [Flip(e)] + rest else rest;
  }

  lemma Ending(got: seq<Octet>, rest: seq<Octet>, max: nat)
    ensures Read(Reading(got, false), [0x7e] + rest, max)
         == if |got| >= 2 then (Packet(got[..|got| - 2]), 1) else if |got| == 1 then (Packet(got), 1)
            else AfterMany(Read(Reading(got, false), rest, max), 1)
    ensures Read(Reading(got, false), [0x7d, 0x7e] + rest, max).0 == Invalid
  {
    var x: seq<Octet>, y: seq<Octet> := [0x7e] + rest, [0x7d, 0x7e] + rest;
    assert x[1..] == rest && y[1..] == x;
  }

  lemma {:induction false} StuffTail(data: seq<Octet>, x: nat) returns (tail: seq<Octet>)
    requires x <= |data|
    ensures Stuff(data) == Stuff(data[..x]) + tail
    decreases |data|
  {
    hide Stuffed;
    if x == |data| {
      assert data[..x] == data;
      tail := [];
    } else {
      var front := data[..|data| - 1];
      tail := StuffTail(front, x);
      assert front[..x] == data[..x];
      tail := tail + Stuffed(data[|data| - 1]);
    }
  }

  lemma CheckSize(payload: seq<Octet>)
    ensures |Check(Fold(INIT_FCS, payload))| == 2
  {
  }

  lemma StartRead(inner: seq<Octet>, max: nat)
    ensures Read(Reading([], false), [FLAG] + inner, max) == AfterMany(Read(Reading([], false), inner, max), 1)
  {
    assert ([FLAG] + inner)[1..] == inner;
  }

  lemma EndRead(data: seq<Octet>, rest: seq<Octet>, max: nat)
    requires |data| >= 2
    ensures Read(Reading(data, false), [FLAG] + rest, max) == (Packet(data[..|data| - 2]), 1)
  {
  }

  // ----- pieces

  /** Reading goes on with the next piece where the last one ended. */
  lemma {:induction false} ReadOn(r: Reading, x: seq<Octet>, y: seq<Octet>, max: nat)
    requires Read(r, x, max).0.Nothing?
    ensures Read(r, x + y, max) == AfterMany(Read(Read(r, x, max).0.r, y, max), |x|)
    decreases |x|
  {
    if x == [] {
      assert x + y == y;
    } else {
      assert (x + y)[1..] == x[1..] + y;
      var next := if x[0] == FLAG then r else if x[0] == ESCAPE then r.(escape := true) else Take(r, x[0]);
      ReadOn(next, x[1..], y, max);
    }
  }

  /** But the next call starts with no escape pending, so what it goes on from is right exactly if the piece did not end
      with the escape octet. */
  lemma {:induction false} EscapeKept(r: Reading, x: seq<Octet>, max: nat)
    requires Read(r, x, max).0.Nothing? && x != []
    ensures var s := Read(r, x, max).0.r; s.(escape := false) == s <==> x[|x| - 1] != ESCAPE
    decreases |x|
  {
    var next := if x[0] == FLAG then r else if x[0] == ESCAPE then r.(escape := true) else Take(r, x[0]);
    if |x| > 1 {
      EscapeKept(next, x[1..], max);
    }
  }

  /** An octet split from its escape comes out unchanged: 0x5e, which stands for 0x7e, is taken for itself. */
  lemma EscapeLost()
    ensures Read(Reading([], false), Stuff([0x7e, 0x41, 0x42]) + [FLAG], 10).0 == Packet([0x7e])
    ensures Stuff([0x7e, 0x41, 0x42]) == [ESCAPE, 0x5e, 0x41, 0x42]
    ensures Read(Reading([], false), [0x5e, 0x41, 0x42] + [FLAG], 10).0 == Packet([0x5e])
  {
    hide Read, Stuff, Stuffed;
    StuffThree(0x7e, 0x41, 0x42);
    StuffThree(0x5e, 0x41, 0x42);
    StuffedIs(0x7e);
    StuffedIs(0x5e);
    StuffedIs(0x41);
    StuffedIs(0x42);
    var e: Octet := 0x5e;
    assert Stuffed(0x7e) == [ESCAPE, e] && Stuffed(e) == [e];
    assert Stuff([e, 0x41, 0x42]) == [e, 0x41, 0x42];
    ThreeRead(0x7e, 0x41, 0x42);
    ThreeRead(0x5e, 0x41, 0x42);
  }

  lemma StuffThree(a: Octet, b: Octet, c: Octet)
    ensures Stuff([a, b, c]) == Stuffed(a) + Stuffed(b) + Stuffed(c)
  {
    hide Stuffed;
    hide Stuff;
    var s: seq<Octet> := [a, b, c];
    StuffNext(s, 0);
    StuffNext(s, 1);
    StuffNext(s, 2);
    NothingStuffed(s);
    assert s[..3] == s;
  }

  lemma ThreeRead(a: Octet, b: Octet, c: Octet)
    ensures Read(Reading([], false), Stuff([a, b, c]) + [FLAG], 10).0 == Packet([a])
  {
    hide Read, Stuff;
    ReadData([], [a, b, c], [FLAG], 10);
    EndRead([a, b, c], [], 10);
    assert [] + [a, b, c] == [a, b, c] && [FLAG] + [] == [FLAG] && [a, b, c][..1] == [a];
  }

  // ----- read_packet

  /** One octet read. */
  lemma ReadStep(r: Reading, inp: seq<Octet>, max: nat)
    requires inp != []
    ensures inp[0] == FLAG && r.escape ==> Read(r, inp, max) == (Invalid, |inp|)
    ensures inp[0] == FLAG && !r.escape && |r.got| >= 2 ==> Read(r, inp, max) == (Packet(r.got[..|r.got| - 2]), 1)
    ensures inp[0] == FLAG && !r.escape && |r.got| == 1 ==> Read(r, inp, max) == (Packet(r.got), 1)
    ensures inp[0] == FLAG && !r.escape && |r.got| == 0 ==> Read(r, inp, max) == AfterMany(Read(r, inp[1..], max), 1)
    ensures inp[0] == ESCAPE ==> Read(r, inp, max) == AfterMany(Read(r.(escape := true), inp[1..], max), 1)
    ensures inp[0] != FLAG && inp[0] != ESCAPE ==>
              Read(r, inp, max) == if |r.got| < max then AfterMany(Read(Take(r, inp[0]), inp[1..], max), 1) else (Overrun, |inp|)
  {
  }

  lemma ReadNothing(r: Reading, max: nat)
    ensures Read(r, [], max) == (Nothing(r), 0)
  {
  }

  class Call {
    var rbuf: seq<Octet>
    var rbufPos: nat
    const ppp: array<Octet>
    var len: nat

    ghost predicate Valid()
      reads this
    {
      rbufPos <= |rbuf| && len <= ppp.Length
    }

    ghost function Got(escape: bool): Reading
      requires len <= ppp.Length
      reads this, ppp
    {
      Reading(ppp[..len], escape)
    }

    /** read_packet over the octets that are in the buffer; nothing more can be read. */
    method ReadPacket() returns (o: Outcome)
      requires Valid()
      modifies this`rbufPos, this`len, this`rbuf, ppp
      ensures Valid()
      ensures o == Read(old(Got(false)), old(rbuf[rbufPos..]), ppp.Length).0
      ensures o.Packet? ==> ppp[..len] == o.data
                            && rbuf == old(rbuf) && rbufPos == old(rbufPos) + Read(old(Got(false)), old(rbuf[rbufPos..]), ppp.Length).1
      ensures o.Nothing? ==> Got(o.r.escape) == o.r && rbufPos == |rbuf|
      ensures o.Invalid? || o.Overrun? ==> rbuf == [] && rbufPos == 0
    {
      hide Flip, Read;
      var escape := false;
      ghost var r0, in0, p0 := Got(false), rbuf[rbufPos..], rbufPos;
      while true
        invariant Valid() && rbuf == old(rbuf) && p0 <= rbufPos
        invariant Read(r0, in0, ppp.Length) == AfterMany(Read(Got(escape), rbuf[rbufPos..], ppp.Length), rbufPos - p0)
        decreases |rbuf| - rbufPos
      {
        if rbufPos >= |rbuf| {
          assert rbuf[rbufPos..] == [];
          ReadNothing(Got(escape), ppp.Length);
          return Nothing(Reading(ppp[..len], escape));
        }
        var ch := rbuf[rbufPos];
        ReadStep(Got(escape), rbuf[rbufPos..], ppp.Length);
        assert rbuf[rbufPos..][1..] == rbuf[rbufPos + 1..];
        rbufPos := rbufPos + 1;
        if ch == FLAG {
          if escape {
            rbuf, rbufPos := [], 0;
            return Invalid;
          }
          if len >= 2 {
            len := len - 2;
            return Packet(ppp[..len]);
          } else if len == 1 {
            return Packet(ppp[..len]);
          }
        } else if ch == ESCAPE {
          escape := true;
        } else {
          ch := if escape then Flip(ch) else ch;
          escape := false;
          if len < ppp.Length {
            ghost var got := ppp[..len];
            ppp[len] := ch;
            len := len + 1;
            assert ppp[..len] == got + [ch];
          } else {
            rbuf, rbufPos := [], 0;
            return Overrun;
          }
        }
      }
    }
  }
}
