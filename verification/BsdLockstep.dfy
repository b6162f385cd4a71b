/**
 The two ends of a BSD Compress link stay in step: every packet that goes out
 compressed is restored exactly, every packet that goes out plain is absorbed, and
 after each packet both ends hold the same dictionary, code width and counters.
 */
module BsdLockstep {
  import opened Arith
  import opened Bits
  import opened Options
  import opened BsdCoder

  // ----- one packet: the decoder follows the coder, one entry behind

  /** While the coder stands at ent, the decoder lacks only the entry it is about to learn. */
  ghost predicate Synced(s: Dict, r: Dict, prev: nat, ent: nat)
    requires s.Valid() && IsCode(ent, |s.entries|)
  {
    if prev == CLEAR || r.Full() then s == r
    else s == r.(entries := r.entries + [Entry(prev, Expand(s.entries, ent)[0])])
  }

  lemma ReadCode(code: nat, w: nat, rest: seq<bool>)
    requires code < Pow2(w)
    ensures (ToBits(code, w) + rest)[..w] == ToBits(code, w)
    ensures (ToBits(code, w) + rest)[w..] == rest
    ensures FromBits((ToBits(code, w) + rest)[..w]) == code
  {
    FromToBits(code, w);
    assert (ToBits(code, w) + rest)[..w] == ToBits(code, w);
  }

  lemma ExpandFirst(entries: seq<Entry>, code: nat, c: byte, next: nat)
    requires Grounded(entries) && IsCode(code, |entries|)
    requires FIRST <= next < FIRST + |entries| && entries[next - FIRST] == Entry(code, c)
    ensures Expand(entries, next) == Expand(entries, code) + [c]
    ensures Expand(entries, next)[0] == Expand(entries, code)[0]
  {
  }

  /** The received code expands to what the sender means by it, KwKwK included. */
  lemma StepExpands(s: Dict, r: Dict, prev: nat, ent: nat)
    requires s.Valid() && r.Valid() && IsCode(ent, |s.entries|) && CanFollow(r, prev)
    requires Synced(s, r, prev, ent)
    ensures IsCode(ent, |r.entries|) || (ent == r.MaxEnt() + 1 && IsCode(prev, |r.entries|))
    ensures Step(r, prev, ent) == Expand(s.entries, ent)
  {
    if s != r {
      var more := [Entry(prev, Expand(s.entries, ent)[0])];
      ExpandExtended(r.entries, more, prev);
      if ent <= r.MaxEnt() {
        ExpandExtended(r.entries, more, ent);
      } else {
        ExpandFirst(s.entries, prev, more[0].suffix, ent);
      }
    }
  }

  /** The dictionary of the decoder after a code that expands to s. */
  ghost function After(r: Dict, prev: nat, first: byte): Dict {
    if prev == CLEAR then r else r.Learn(prev, first)
  }

  lemma AfterIsWidened(s: Dict, r: Dict, prev: nat, ent: nat)
    requires s.Valid() && r.Valid() && r.Settled() && IsCode(ent, |s.entries|) && CanFollow(r, prev)
    requires Synced(s, r, prev, ent)
    ensures s.maxbits == r.maxbits && s.nBits == r.nBits
    ensures After(r, prev, Expand(s.entries, ent)[0]) == s.Widen()
    ensures s.Widen().Valid() && s.Widen().Settled() && CanFollow(s.Widen(), ent)
  {
    WidenValid(s);
  }

  /** One round of the decoding loop. */
  lemma DecodeOne(r: Dict, mru: nat, prev: nat, explen: nat, code: nat, bits: seq<bool>, d: Dict, x: seq<byte>)
    requires r.Valid() && r.Settled() && CanFollow(r, prev)
    requires |bits| >= r.nBits && FromBits(bits[..r.nBits]) == code
    requires code != CLEAR && Accepted(r, prev, code) && Known(r, prev, code)
    requires x == Step(r, prev, code) && explen + |x| <= mru + 1
    requires d == After(r, prev, x[0]) && d.Valid() && d.Settled() && MayFollow(d, code)
    ensures var q := Decode(d, mru, code, explen + |x|, bits[r.nBits..]);
            Decode(r, mru, prev, explen, bits) == q.(out := x + q.out)
  {
  }

  lemma SyncedAfterGrow(s: Dict, prev: nat, c: byte)
    requires s.Valid() && IsCode(prev, |s.entries|)
    ensures s.Widen().Valid() && s.Grow(prev, c).Valid() && CanFollow(s.Widen(), prev)
    ensures s.Widen().Settled() && s.Grow(prev, c).maxbits == s.maxbits
    ensures IsCode(c, |s.Grow(prev, c).entries|) && Expand(s.Grow(prev, c).entries, c) == [c]
    ensures Synced(s.Grow(prev, c), s.Widen(), prev, c)
  {
    WidenValid(s);
    GrowValid(s, prev, c);
  }

  function LastCode(toks: seq<Tok>): nat
    requires toks != []
  {
    toks[|toks| - 1].code
  }

  lemma Chain(q0: Decoded, x: seq<byte>, q1: Decoded, y: seq<byte>, q2: Decoded)
    requires q0 == q1.(out := x + q1.out) && q1 == q2.(out := y + q2.out)
    ensures q0 == q2.(out := (x + y) + q2.out)
  {
    assert x + (y + q2.out) == (x + y) + q2.out;
  }

  /** The sender's first code, read by the receiver. */
  lemma FirstCode(s: Dict, r: Dict, prev: nat, ent: nat, mru: nat, explen: nat, rest: seq<bool>)
    requires s.Valid() && r.Valid() && r.Settled() && IsCode(ent, |s.entries|) && CanFollow(r, prev)
    requires Synced(s, r, prev, ent)
    requires explen + |Expand(s.entries, ent)| <= mru + 1
    ensures s.Widen().Valid() && s.Widen().Settled() && CanFollow(s.Widen(), ent)
    ensures var x := Expand(s.entries, ent);
            var q := Decode(s.Widen(), mru, ent, explen + |x|, rest);
            Decode(r, mru, prev, explen, ToBits(ent, s.nBits) + rest) == q.(out := x + q.out)
  {
    StepExpands(s, r, prev, ent);
    AfterIsWidened(s, r, prev, ent);
    ReadCode(ent, s.nBits, rest);
    Pow2Monotone(s.nBits, s.maxbits);
    DecodeOne(r, mru, prev, explen, ent, ToBits(ent, s.nBits) + rest, s.Widen(), Expand(s.entries, ent));
  }

  /** The three cases of the coder's loop. */
  lemma EncodeCases(s: Dict, ent: nat, data: seq<byte>)
    requires s.Valid() && IsCode(ent, |s.entries|)
    ensures Grounded(s.entries)
    ensures data == [] ==> Encode(s, ent, data) == Parse([Tok(ent, s.nBits)], s) && LastCode([Tok(ent, s.nBits)]) == ent
    ensures data != [] ==>
              var f := Find(s.entries, ent, data[0]);
              if f.Some? then
                && IsCode(f.value, |s.entries|)
                && Expand(s.entries, f.value) == Expand(s.entries, ent) + [data[0]]
                && Expand(s.entries, f.value)[0] == Expand(s.entries, ent)[0]
                && Encode(s, ent, data) == Encode(s, f.value, data[1..])
              else
                var p := Encode(s.Grow(ent, data[0]), data[0], data[1..]);
                && Encode(s, ent, data) == Parse([Tok(ent, s.nBits)] + p.toks, p.dict)
                && LastCode(Encode(s, ent, data).toks) == LastCode(p.toks)
  {
    if data != [] {
      var f := Find(s.entries, ent, data[0]);
      if f.Some? {
        ExpandFirst(s.entries, ent, data[0], f.value);
      }
    }
  }

  lemma SyncedCarries(s: Dict, r: Dict, prev: nat, ent: nat, next: nat)
    requires s.Valid() && IsCode(ent, |s.entries|) && IsCode(next, |s.entries|)
    requires Synced(s, r, prev, ent) && Expand(s.entries, next)[0] == Expand(s.entries, ent)[0]
    ensures Synced(s, r, prev, next)
  {
  }

  lemma EncodeKeepsValid(s: Dict, ent: nat, data: seq<byte>)
    requires s.Valid() && IsCode(ent, |s.entries|)
    ensures var p := Encode(s, ent, data);
            && p.dict.Valid() && p.dict.maxbits == s.maxbits
            && IsCode(LastCode(p.toks), |p.dict.entries|)
            && p.dict.Widen().Valid() && p.dict.Widen().Settled()
            && CanFollow(p.dict.Widen(), LastCode(p.toks))
    decreases |data|
  {
    WidenValid(s);
    if data != [] && Find(s.entries, ent, data[0]).None? {
      GrowValid(s, ent, data[0]);
    }
    hide Dict.Valid, Dict.Settled, Pow2, Find;
  }

  lemma Follows(d: Dict, prev: nat)
    requires CanFollow(d, prev)
    ensures MayFollow(d, prev)
  {
  }

  /** Decoding what the coder sends yields the phrase in progress and then the data. */
  lemma {:induction false} PacketRoundTrip(s: Dict, r: Dict, prev: nat, ent: nat, data: seq<byte>,
                                           mru: nat, explen: nat, tail: seq<bool>)
    requires s.Valid() && r.Valid() && r.Settled() && IsCode(ent, |s.entries|) && CanFollow(r, prev)
    requires Synced(s, r, prev, ent)
    requires explen + |Expand(s.entries, ent)| + |data| <= mru + 1
    ensures (EncodeKeepsValid(s, ent, data);
             var p := Encode(s, ent, data);
             var x := Expand(s.entries, ent) + data;
             var q := Decode(p.dict.Widen(), mru, LastCode(p.toks), explen + |x|, tail);
             Decode(r, mru, prev, explen, OutBits(p.toks) + tail) == q.(out := x + q.out))
    decreases |data|, 0
  {
    hide *;
    EncodeCases(s, ent, data);
    var p := Encode(s, ent, data);
    var x := Expand(s.entries, ent);
    if data == [] {
      FirstCode(s, r, prev, ent, mru, explen, tail);
      OutBitsCons(ent, s.nBits, [], tail);
      assert [Tok(ent, s.nBits)] + [] == [Tok(ent, s.nBits)];
      assert [] + tail == tail && x + data == x;
    } else {
      var c, rest := data[0], data[1..];
      assert [c] + rest == data;
      var f := Find(s.entries, ent, c);
      if f.Some? {
        SyncedCarries(s, r, prev, ent, f.value);
        PacketRoundTrip(s, r, prev, f.value, rest, mru, explen, tail);
        assert (x + [c]) + rest == x + data;
      } else {
        RoundTripAtMismatch(s, r, prev, ent, c, rest, mru, explen, tail);
      }
    }
  }

  lemma {:induction false} RoundTripAtMismatch(s: Dict, r: Dict, prev: nat, ent: nat, c: byte, rest: seq<byte>,
                                               mru: nat, explen: nat, tail: seq<bool>)
    requires s.Valid() && r.Valid() && r.Settled() && IsCode(ent, |s.entries|) && CanFollow(r, prev)
    requires Synced(s, r, prev, ent)
    requires explen + |Expand(s.entries, ent)| + |rest| <= mru
    ensures (SyncedAfterGrow(s, ent, c);
             EncodeKeepsValid(s.Grow(ent, c), c, rest);
             var p := Encode(s.Grow(ent, c), c, rest);
             var x := Expand(s.entries, ent) + ([c] + rest);
             var q := Decode(p.dict.Widen(), mru, LastCode(p.toks), explen + |x|, tail);
             Decode(r, mru, prev, explen, OutBits([Tok(ent, s.nBits)] + p.toks) + tail) == q.(out := x + q.out))
    decreases |rest|, 1
  {
    hide *;
    EncodeCases(s, ent, []);
    SyncedAfterGrow(s, ent, c);
    var s' := s.Grow(ent, c);
    EncodeKeepsValid(s', c, rest);
    var p := Encode(s', c, rest);
    var x := Expand(s.entries, ent);
    OutBitsCons(ent, s.nBits, p.toks, tail);
    FirstCode(s, r, prev, ent, mru, explen, OutBits(p.toks) + tail);
    PacketRoundTrip(s', s.Widen(), ent, c, rest, mru, explen + |x|, tail);
    Follows(r, prev);
    Follows(s.Widen(), ent);
    Follows(p.dict.Widen(), LastCode(p.toks));
    Chain(Decode(r, mru, prev, explen, OutBits([Tok(ent, s.nBits)] + p.toks) + tail), x,
          Decode(s.Widen(), mru, ent, explen + |x|, OutBits(p.toks) + tail), [c] + rest,
          Decode(p.dict.Widen(), mru, LastCode(p.toks), explen + |x| + |[c] + rest|, tail));
  }

  // ----- whole packets

  /** The pretending receiver walks the same dictionary and counts the same bits. */
  lemma {:induction false} PretendFollowsEncode(d: Dict, ent: nat, data: seq<byte>, bitno: nat)
    ensures var p := Encode(d, ent, data);
            Pretend(d, ent, data, bitno) == (bitno + |OutBits(p.toks)|, p.dict)
    decreases |data|
  {
    if data == [] {
      assert OutBits([Tok(ent, d.nBits)]) == ToBits(ent, d.nBits) + OutBits([]);
    } else {
      var f := Find(d.entries, ent, data[0]);
      if f.Some? {
        PretendFollowsEncode(d, f.value, data[1..], bitno);
      } else {
        var p := Encode(d.Grow(ent, data[0]), data[0], data[1..]);
        PretendFollowsEncode(d.Grow(ent, data[0]), data[0], data[1..], bitno + d.nBits);
        OutBitsCons(ent, d.nBits, p.toks, []);
        assert OutBits(p.toks) + [] == OutBits(p.toks);
        assert OutBits([Tok(ent, d.nBits)] + p.toks) + [] == OutBits([Tok(ent, d.nBits)] + p.toks);
      }
    }
  }

  /** No two codes stand for the same (prefix, suffix). */
  ghost predicate Distinct(entries: seq<Entry>) {
    forall i, j :: 0 <= i < j < |entries| ==> entries[i] != entries[j]
  }

  lemma {:induction false} EncodeKeepsDistinct(d: Dict, ent: nat, data: seq<byte>)
    requires Distinct(d.entries)
    ensures Distinct(Encode(d, ent, data).dict.entries)
    decreases |data|
  {
    if data != [] {
      var f := Find(d.entries, ent, data[0]);
      if f.Some? {
        EncodeKeepsDistinct(d, f.value, data[1..]);
      } else {
        EncodeKeepsDistinct(d.Grow(ent, data[0]), data[0], data[1..]);
      }
    }
  }

  /** The state between packets. */
  ghost predicate Ready(db: Db) {
    db.dict.Valid() && db.dict.Settled() && Distinct(db.dict.entries) && db.seqno < 0x1_0000
  }

  /** A packet sent plain leaves the receiver where compressing it leaves the sender. */
  lemma IncompMatchesCompress(db: Db, pkt: seq<byte>, slen: int, maxolen: int)
    ensures Incomp(db, pkt) == Compress(db, pkt, slen, maxolen).db
  {
    if Eligible(pkt) {
      PretendFollowsEncode(db.dict, Protocol(pkt), pkt[PPP_HDRLEN..], 7);
    }
  }

  /** Check looks at the dictionary only to see whether it is full. */
  lemma CheckIgnoresWidth(db: Db, d: Dict)
    requires d.entries == db.dict.entries && d.maxbits == db.dict.maxbits
    requires !Check(db).1
    ensures Check(db.(dict := d)) == (Check(db).0.(dict := d), false)
  {
  }

  lemma CloseStaysReady(db: Db, dict: Dict, bytes: nat, ilen: nat)
    requires dict.Valid() && Distinct(dict.entries)
    ensures Ready(Close(db, dict, bytes, ilen).0)
    ensures Close(db, dict, bytes, ilen).1 ==> dict.Full()
  {
    hide Check, Pow2, Dict.Valid, Dict.Settled, Distinct, MaxCode, Word;
    CheckClearsOrKeeps(Tally(db.(dict := dict, seqno := (db.seqno + 1) % 0x1_0000), bytes, ilen));
    WidenValid(dict);
    ClearedReady(dict);
    SameWidth(dict);
  }

  lemma SameWidth(d: Dict)
    ensures d.(entries := [], nBits := MIN_BITS).maxbits == d.maxbits
    ensures d.Widen() == if !d.Full() && d.MaxEnt() >= MaxCode(d.nBits) then d.(nBits := d.nBits + 1) else d
  {
  }

  lemma ClearedReady(d: Dict)
    requires d.Valid()
    ensures var e := d.(entries := [], nBits := MIN_BITS); e.Valid() && e.Settled() && Distinct(e.entries) && !e.Full()
  {
    Pow2Values();
    Pow2Monotone(9, d.maxbits);
  }

  /** The width in use between packets is the least, from nine bits on, with which the next code to be defined is not the last
      one it has, or else the greatest allowed. */
  lemma WidthExact(db: Db, n: nat)
    requires Ready(db) && 9 <= n <= db.dict.maxbits
    ensures 9 <= db.dict.nBits <= db.dict.maxbits <= 15
    ensures n < db.dict.nBits <==> n < db.dict.maxbits && 256 + |db.dict.entries| >= Pow2(n) - 1
  {
    var d := db.dict;
    if n < d.nBits {
      Pow2Monotone(n, d.nBits - 1);
    } else {
      Pow2Monotone(d.nBits, n);
      Pow2Monotone(n, d.maxbits);
      if n < d.maxbits {
        Pow2Monotone(n + 1, d.maxbits);
      }
    }
  }

  lemma SenderStaysReady(db: Db, pkt: seq<byte>, slen: int, maxolen: int)
    requires Ready(db)
    ensures Ready(Compress(db, pkt, slen, maxolen).db)
  {
    hide Close, Pow2, Encode, OutBits, Pack, Dict.Valid, Dict.Settled, Distinct, CanFollow;
    if Eligible(pkt) {
      var p := Encode(db.dict, Protocol(pkt), pkt[PPP_HDRLEN..]);
      EncodeKeepsValid(db.dict, Protocol(pkt), pkt[PPP_HDRLEN..]);
      EncodeKeepsDistinct(db.dict, Protocol(pkt), pkt[PPP_HDRLEN..]);
      CloseStaysReady(db, p.dict, (|OutBits(p.toks)| + 7) / 8, |pkt| - PPP_HDRLEN + 1);
    }
  }

  /** At the end of the codes: only padding, or a CLEAR and padding. */
  lemma DecodeEnd(d: Dict, mru: nat, prev: nat, explen: nat, pad: nat)
    requires d.Valid() && d.Settled() && CanFollow(d, prev) && pad < 8
    ensures Decode(d, mru, prev, explen, Ones(pad)) == Decoded(Finished, [], d, explen)
    ensures Decode(d, mru, prev, explen, ToBits(CLEAR, d.nBits) + Ones(pad))
            == Decoded(Cleared, [], d.(entries := [], nBits := MIN_BITS), 0)
  {
    Pow2Monotone(9, d.nBits);
    assert CLEAR < Pow2(9);
    ReadCode(CLEAR, d.nBits, Ones(pad));
  }

  /** The body of a compressed message decodes to the protocol byte and the payload. */
  lemma BodyDecodes(d: Dict, proto: byte, data: seq<byte>, mru: nat, clear: bool)
    requires d.Valid() && d.Settled() && |data| <= mru
    requires clear ==> Encode(d, proto, data).dict.Full()
    ensures var p := Encode(d, proto, data);
            var toks := if clear then p.toks + [Tok(CLEAR, p.dict.nBits)] else p.toks;
            var r := Decode(d, mru, CLEAR, 0, BytesToBits(Pack(OutBits(toks))));
            && r.out == [proto] + data
            && if clear then r.ending == Cleared
               else r.ending == Finished && r.dict == p.dict.Widen() && r.explen == |data| + 1
  {
    hide *;
    var p := Encode(d, proto, data);
    var toks := if clear then p.toks + [Tok(CLEAR, p.dict.nBits)] else p.toks;
    StartsSynced(d, proto);
    EncodeKeepsValid(d, proto, data);
    PackBits(OutBits(toks));
    var pad := 8 * ((|OutBits(toks)| + 7) / 8) - |OutBits(toks)|;
    var tail := if clear then ToBits(CLEAR, p.dict.nBits) + Ones(pad) else Ones(pad);
    assert OutBits(toks) + Ones(pad) == OutBits(p.toks) + tail by {
      if clear {
        OutBitsSnoc(p.toks, CLEAR, p.dict.nBits);
        assert (OutBits(p.toks) + ToBits(CLEAR, p.dict.nBits)) + Ones(pad) == OutBits(p.toks) + tail;
      }
    }
    PacketRoundTrip(d, d, CLEAR, proto, data, mru, 0, tail);
    FullStaysWide(p.dict);
    DecodeEnd(p.dict.Widen(), mru, LastCode(p.toks), 1 + |data|, pad);
    assert ([proto] + data) + [] == [proto] + data;
  }

  lemma StartsSynced(d: Dict, proto: byte)
    requires d.Valid() && d.Settled()
    ensures IsCode(proto, |d.entries|) && Grounded(d.entries) && CanFollow(d, CLEAR)
    ensures Synced(d, d, CLEAR, proto) && Expand(d.entries, proto) == [proto]
  {
  }

  lemma FullStaysWide(d: Dict)
    ensures d.Full() ==> d.Widen() == d
  {
  }

  /** What the decoder concludes from the sender's codes is the sender's own state. */
  lemma ConcludeMatchesClose(db: Db, dict: Dict, bytes: nat, ilen: nat, header: seq<byte>, r: Decoded)
    requires dict.Valid() && dict.maxbits == db.dict.maxbits && |r.out| > 0
    requires var clear := Close(db, dict, bytes, |r.out|).1;
             if clear then r.ending == Cleared
             else r.ending == Finished && r.dict == dict.Widen() && r.explen == |r.out| && ilen == bytes
    ensures Conclude(db.(seqno := (db.seqno + 1) % 0x1_0000), header, ilen, r)
            == Received(DecompOk(header + r.out), Close(db, dict, bytes, |r.out|).0)
  {
    hide Check;
    var counted := Tally(db.(dict := dict, seqno := (db.seqno + 1) % 0x1_0000), bytes, |r.out|);
    CheckClearsOrKeeps(counted);
    if Check(counted).1 {
      CheckAfterClear(db.(seqno := (db.seqno + 1) % 0x1_0000));
    } else {
      CheckIgnoresWidth(counted, dict.Widen());
    }
  }

  lemma CheckAfterClear(db: Db)
    ensures Check(Tally(Clear(db), 0, 0)).0 == Clear(db)
  {
  }

  /** A message with the expected sequence number is decoded from its body alone. */
  lemma MessageOpens(db: Db, mru: nat, pkt: seq<byte>, body: seq<byte>)
    requires Ready(db) && |pkt| >= PPP_HDRLEN && body != []
    ensures Decompress(db, mru, Header(pkt, db.seqno) + body)
         == Conclude(db.(seqno := (db.seqno + 1) % 0x1_0000), pkt[..2] + [0], |body|,
                     Decode(db.dict, mru, CLEAR, 0, BytesToBits(body)))
  {
    hide Decode, Conclude, BytesToBits;
    var msg := Header(pkt, db.seqno) + body;
    assert msg[PPP_HDRLEN + BSD_OVHD..] == body;
    assert msg[..2] == pkt[..2];
  }

  /** Every packet that bsd_compress returns is restored exactly, and both ends agree afterwards. */
  lemma CompressedPacketRestored(db: Db, mru: nat, pkt: seq<byte>, slen: int, maxolen: int)
    requires Ready(db) && |pkt| <= mru + PPP_HDRLEN
    requires Compress(db, pkt, slen, maxolen).msg.Some?
    ensures var sent := Compress(db, pkt, slen, maxolen);
            Decompress(db, mru, sent.msg.value) == Received(DecompOk(pkt), sent.db)
  {
    hide Encode, Decode, Pack, OutBits, BytesToBits, Close, Conclude, Decompress;
    var proto: byte := pkt[3];
    assert pkt[2] == 0 && Protocol(pkt) == proto;
    var data := pkt[PPP_HDRLEN..];
    var p := Encode(db.dict, proto, data);
    var bytes := (|OutBits(p.toks)| + 7) / 8;
    var clear := Close(db, p.dict, bytes, |data| + 1).1;
    EncodeKeepsValid(db.dict, proto, data);
    EncodeKeepsDistinct(db.dict, proto, data);
    CloseStaysReady(db, p.dict, bytes, |data| + 1);
    BodyDecodes(db.dict, proto, data, mru, clear);
    var body := Pack(OutBits(SentToks(db, pkt).0));
    SentSomething(db, pkt);
    MessageOpens(db, mru, pkt, body);
    assert pkt[..2] + [0] + ([proto] + data) == pkt;
    ConcludeMatchesClose(db, p.dict, bytes, |body|, pkt[..2] + [0],
                         Decode(db.dict, mru, CLEAR, 0, BytesToBits(body)));
  }

  /** What comes out of a message is no longer than the MRU allows, counting the protocol as one byte. */
  lemma {:induction false} DecodedLength(d: Dict, mru: nat, prev: nat, explen: nat, bits: seq<bool>)
    requires d.Valid() && d.Settled() && MayFollow(d, prev) && explen <= mru + 1
    ensures var r := Decode(d, mru, prev, explen, bits);
            && explen + |r.out| <= mru + 1
            && (r.ending.Finished? ==> r.explen == explen + |r.out|)
    decreases |bits|
  {
    hide Expand;
    if |bits| >= d.nBits {
      var code, rest := FromBits(bits[..d.nBits]), bits[d.nBits..];
      if code != CLEAR && Judge(d, mru, prev, explen, code) == Finished {
        var s := Step(d, prev, code);
        LearnValid(d, prev, s[0]);
        DecodedLength(if prev == CLEAR then d else d.Learn(prev, s[0]), mru, code, explen + |s|, rest);
      }
    }
  }

  /** A message is refused without a loss exactly if it is too short or out of sequence; each one, refused or not, moves the sequence
      number on by one; a packet has the first two bytes of its message and is no longer than the MRU and its header. */
  lemma Refused(db: Db, mru: nat, msg: seq<byte>)
    requires db.dict.Valid() && db.dict.Settled()
    ensures var r := Decompress(db, mru, msg);
            && (r.status.DecompError? <==> |msg| <= 6 || 256 * (msg[4] as int) + msg[5] != db.seqno)
            && r.db.seqno == (if |msg| <= 6 then db.seqno else (db.seqno + 1) % 0x1_0000)
            && (r.status.DecompOk? ==> r.status.packet[..3] == [msg[0], msg[1], 0] && |r.status.packet| <= mru + 4)
  {
    hide Decode;
    if |msg| > 6 {
      DecodedLength(db.dict, mru, CLEAR, 0, BytesToBits(msg[6..]));
    }
  }

  lemma SentSomething(db: Db, pkt: seq<byte>)
    requires Ready(db) && Eligible(pkt)
    ensures Pack(OutBits(SentToks(db, pkt).0)) != []
  {
    hide Close;
    EncodeKeepsValid(db.dict, Protocol(pkt), pkt[PPP_HDRLEN..]);
    var p := Encode(db.dict, Protocol(pkt), pkt[PPP_HDRLEN..]);
    EncodeStartsWide(db.dict, Protocol(pkt), pkt[PPP_HDRLEN..]);
    OutBitsConcat(p.toks, [Tok(CLEAR, p.dict.nBits)]);
  }

  lemma EncodeStartsWide(d: Dict, ent: nat, data: seq<byte>)
    ensures |OutBits(Encode(d, ent, data).toks)| >= d.nBits
    decreases |data|
  {
  }

  // ----- whole runs

  /** One packet handed to the link, with the two size limits of the sending side. */
  datatype Job = Job(pkt: seq<byte>, slen: int, maxolen: int)

  datatype Link = Link(sender: Db, receiver: Db)

  datatype Hop = Hop(delivered: Status, link: Link)

  /** A packet crosses the link: compressed if the coder returns it, plain otherwise. */
  ghost function Cross(l: Link, mru: nat, job: Job): Hop
    requires l.receiver.dict.Valid() && l.receiver.dict.Settled()
  {
    var sent := Compress(l.sender, job.pkt, job.slen, job.maxolen);
    match sent.msg
    case Some(msg) =>
      var got := Decompress(l.receiver, mru, msg);
      Hop(got.status, Link(sent.db, got.db))
    case None => Hop(DecompOk(job.pkt), Link(sent.db, Incomp(l.receiver, job.pkt)))
  }

  ghost predicate InStep(l: Link) {
    Ready(l.sender) && l.receiver == l.sender
  }

  lemma CrossInStep(l: Link, mru: nat, job: Job)
    requires InStep(l) && |job.pkt| <= mru + PPP_HDRLEN
    ensures var hop := Cross(l, mru, job);
            hop.delivered == DecompOk(job.pkt) && InStep(hop.link)
  {
    hide Compress, Decompress, Incomp;
    SenderStaysReady(l.sender, job.pkt, job.slen, job.maxolen);
    if Compress(l.sender, job.pkt, job.slen, job.maxolen).msg.Some? {
      CompressedPacketRestored(l.sender, mru, job.pkt, job.slen, job.maxolen);
    } else {
      IncompMatchesCompress(l.sender, job.pkt, job.slen, job.maxolen);
    }
  }

  /** The links seen along a run: links[i] is the state before packet i. */
  ghost predicate Run(links: seq<Link>, delivered: seq<Status>, mru: nat, jobs: seq<Job>) {
    && |links| == |jobs| + 1 && |delivered| == |jobs|
    && forall i :: 0 <= i < |jobs| ==>
         && links[i].receiver.dict.Valid() && links[i].receiver.dict.Settled()
         && Cross(links[i], mru, jobs[i]) == Hop(delivered[i], links[i + 1])
  }

  /**
   From two freshly initialised ends, whatever the packets and however many are sent plain:
   each is delivered unchanged, and after each one both ends hold the same dictionary,
   width, sequence number, counts, ratio and checkpoint, so they also clear together.
   */
  lemma {:induction false} EveryRunInStep(links: seq<Link>, delivered: seq<Status>, mru: nat, jobs: seq<Job>, n: nat)
    requires Run(links, delivered, mru, jobs) && n <= |jobs|
    requires exists bits :: MIN_BITS <= bits <= MAX_BITS && links[0] == Link(Init(bits), Init(bits))
    requires forall i :: 0 <= i < |jobs| ==> |jobs[i].pkt| <= mru + PPP_HDRLEN
    ensures InStep(links[n])
    ensures forall i :: 0 <= i < n ==> delivered[i] == DecompOk(jobs[i].pkt)
  {
    hide Cross;
    if n == 0 {
      var bits :| MIN_BITS <= bits <= MAX_BITS && links[0] == Link(Init(bits), Init(bits));
      InitReady(bits);
    } else {
      EveryRunInStep(links, delivered, mru, jobs, n - 1);
      CrossInStep(links[n - 1], mru, jobs[n - 1]);
    }
  }

  lemma InitReady(bits: nat)
    requires MIN_BITS <= bits <= MAX_BITS
    ensures Ready(Init(bits))
  {
    assert Pow2(9) == 512;
    Pow2Monotone(9, bits);
  }

  // ----- the 32-bit counters

  /** What the counters satisfy between packets; checkpoint - CHECK_GAP is in_count at the last check. */
  ghost predicate Bounded(db: Db) {
    && CHECK_GAP <= db.checkpoint <= RATIO_MAX + CHECK_GAP
    && db.checkpoint - CHECK_GAP <= db.inCount < db.checkpoint
    && db.bytesOut <= RATIO_MAX + 2 * (db.inCount + CHECK_GAP - db.checkpoint)
  }

  lemma WordExact(x: nat)
    requires x < WORD
    ensures Word(x) == x
  {
  }

  /** Ageing brings both counts back below RATIO_MAX. */
  lemma AgeBounds(t: Db)
    requires t.inCount <= RATIO_MAX + CHECK_GAP + 0x1_0000 && t.bytesOut <= RATIO_MAX + 2 * (CHECK_GAP + 0x1_0000)
    ensures Age(t).inCount <= RATIO_MAX && Age(t).bytesOut <= RATIO_MAX
  {
    assert 4 * (t.inCount / 4) + 4 > t.inCount && 4 * (t.bytesOut / 4) + 4 > t.bytesOut;
  }

  lemma CheckStaysBounded(t: Db)
    requires CHECK_GAP <= t.checkpoint <= RATIO_MAX + CHECK_GAP && t.checkpoint - CHECK_GAP <= t.inCount
    requires t.bytesOut <= RATIO_MAX + 2 * (t.inCount + CHECK_GAP - t.checkpoint)
    requires t.inCount < t.checkpoint + 0x1_0000
    ensures Bounded(Check(t).0)
    ensures t.inCount >= t.checkpoint ==> Age(t).inCount <= RATIO_MAX
  {
    hide Age, NewRatio, Word;
    AgeBounds(t);
    WordExact(Age(t).inCount + CHECK_GAP);
  }

  lemma QuotientBelow(a: nat, b: nat, k: nat)
    requires b > 0
    ensures a / b < k <==> a < k * b
    ensures (a / b) * b <= a < (a / b + 1) * b
  {
    var q := a / b;
    assert a == q * b + a % b;
    MulAdd(b, q, 1);
    if q < k {
      MulLe(q + 1, b, k, b);
    } else {
      MulLe(k, b, q, b);
    }
  }

  /** bsd_check on the counts: after a packet is counted, a CLEAR is due if and only if a check is, the dictionary is full, and
      the bytes in are to the bytes out, both aged, less than the ratio on record or than one to one.  The ratio on record
      never falls.  Ageing takes a quarter off both counts. */
  lemma ClearDue(t: Db)
    requires CHECK_GAP <= t.checkpoint <= RATIO_MAX + CHECK_GAP && t.checkpoint - CHECK_GAP <= t.inCount
    requires t.bytesOut <= RATIO_MAX + 2 * (t.inCount + CHECK_GAP - t.checkpoint)
    requires t.inCount < t.checkpoint + 0x1_0000
    ensures var (next, clear) := Check(t);
            var aged := t.inCount >= 0x7f_ffff || t.bytesOut >= 0x7f_ffff;
            var bytesIn, bytesOut :=
              if aged then t.inCount - t.inCount / 4 else t.inCount, if aged then t.bytesOut - t.bytesOut / 4 else t.bytesOut;
            var due, full := t.inCount >= t.checkpoint, 256 + |t.dict.entries| >= Pow2(t.dict.maxbits) - 1;
            && (clear <==> due && full && if bytesOut > 0 then 256 * bytesIn < t.ratio * bytesOut || bytesIn < bytesOut
                                          else 256 * bytesIn < t.ratio || bytesIn == 0)
            && (clear ==> next == Db(Dict(t.dict.maxbits, [], 9), 0, 0, 0, 10000, t.seqno))
            && (!due ==> next == t)
            && (due && !full ==> next == t.(inCount := bytesIn, bytesOut := bytesOut, checkpoint := bytesIn + 10000))
            && (due && full && !clear ==>
                  && next == t.(inCount := bytesIn, bytesOut := bytesOut, checkpoint := bytesIn + 10000, ratio := next.ratio)
                  && next.ratio >= t.ratio
                  && if bytesOut > 0 then next.ratio * bytesOut <= 256 * bytesIn < (next.ratio + 1) * bytesOut
                     else next.ratio == 256 * bytesIn)
  {
    AgeBounds(t);
    var a := Age(t);
    WordExact(a.inCount + CHECK_GAP);
    WordExact(a.inCount * 256);
    if a.bytesOut > 0 {
      QuotientBelow(a.inCount * 256, a.bytesOut, t.ratio);
      QuotientBelow(a.inCount * 256, a.bytesOut, 256);
    }
    hide Word, Pow2;
  }

  /** Counting a packet of up to 2^16 bytes wraps neither the counts nor the scaled ratio. */
  lemma CountersNeverWrap(db: Db, bytes: nat, ilen: nat)
    requires Bounded(db) && 1 <= ilen <= 0x1_0000 && bytes <= 2 * ilen
    ensures Tally(db, bytes, ilen) == db.(bytesOut := db.bytesOut + bytes, inCount := db.inCount + ilen)
    ensures Bounded(Check(Tally(db, bytes, ilen)).0)
    ensures var t := Tally(db, bytes, ilen);
            t.inCount >= t.checkpoint ==> Word(Age(t).inCount * 256) == Age(t).inCount * 256
  {
    hide Age, Check, Word;
    WordExact(db.bytesOut + bytes);
    WordExact(db.inCount + ilen);
    var t := Tally(db, bytes, ilen);
    CheckStaysBounded(t);
    if t.inCount >= t.checkpoint {
      WordExact(Age(t).inCount * 256);
    }
  }

  lemma {:induction false} CodesAreShort(d: Dict, ent: nat, data: seq<byte>)
    requires d.Valid() && IsCode(ent, |d.entries|)
    ensures |OutBits(Encode(d, ent, data).toks)| <= MAX_BITS * (|data| + 1)
    decreases |data|
  {
    if data == [] {
      assert OutBits([Tok(ent, d.nBits)]) == ToBits(ent, d.nBits) + OutBits([]);
    } else {
      var f := Find(d.entries, ent, data[0]);
      if f.Some? {
        CodesAreShort(d, f.value, data[1..]);
      } else {
        var d' := d.Grow(ent, data[0]);
        GrowValid(d, ent, data[0]);
        CodesAreShort(d', data[0], data[1..]);
        assert ([Tok(ent, d.nBits)] + Encode(d', data[0], data[1..]).toks)[1..] == Encode(d', data[0], data[1..]).toks;
      }
    }
  }

  /** With packets of at most 2^16 - 1 payload bytes the counters stay bounded for ever. */
  lemma SenderStaysBounded(db: Db, pkt: seq<byte>, slen: int, maxolen: int)
    requires Ready(db) && Bounded(db) && |pkt| < PPP_HDRLEN + 0x1_0000
    ensures Bounded(Compress(db, pkt, slen, maxolen).db)
  {
    hide Encode, Pack, OutBits, Check, Tally, Protocol;
    if Eligible(pkt) {
      var data := pkt[PPP_HDRLEN..];
      var p := Encode(db.dict, Protocol(pkt), data);
      CodesAreShort(db.dict, Protocol(pkt), data);
      CountersNeverWrap(db.(dict := p.dict, seqno := (db.seqno + 1) % 0x1_0000),
                        (|OutBits(p.toks)| + 7) / 8, |data| + 1);
    }
  }

  lemma {:induction false} EveryRunBounded(links: seq<Link>, delivered: seq<Status>, mru: nat, jobs: seq<Job>, n: nat)
    requires Run(links, delivered, mru, jobs) && n <= |jobs|
    requires exists bits :: MIN_BITS <= bits <= MAX_BITS && links[0] == Link(Init(bits), Init(bits))
    requires mru < 0x1_0000 && forall i :: 0 <= i < |jobs| ==> |jobs[i].pkt| <= mru + PPP_HDRLEN
    ensures Bounded(links[n].sender) && links[n].receiver == links[n].sender
  {
    hide Compress, Decompress, Incomp;
    EveryRunInStep(links, delivered, mru, jobs, n);
    if n > 0 {
      EveryRunBounded(links, delivered, mru, jobs, n - 1);
      EveryRunInStep(links, delivered, mru, jobs, n - 1);
      SenderStaysBounded(links[n - 1].sender, jobs[n - 1].pkt, jobs[n - 1].slen, jobs[n - 1].maxolen);
    }
  }
}
