/**
 A code that no sender emits.  bsd_decompress lets a code pass that is one above the one being
 defined; as the last code of a packet it is taken for the one being defined.
 */
module BsdStray {
  import opened Bits
  import opened BsdCoder
  import opened BsdLockstep
  import opened Options

  /** The last code of a packet, when it is above the one being defined: it passes exactly if it is the next above, is not
      the first of the packet, and what it is taken for fits; then it has the effect of the code being defined. */
  lemma StrayExactly(d: Dict, mru: nat, prev: nat, explen: nat, code: nat, pad: seq<bool>)
    requires d.Valid() && d.Settled() && CanFollow(d, prev) && |pad| < d.nBits
    requires d.MaxEnt() + 1 < code < Pow2(d.nBits)
    ensures var r := Decode(d, mru, prev, explen, ToBits(code, d.nBits) + pad);
            && (r.ending == Finished <==>
                  prev != CLEAR && code == d.MaxEnt() + 2 && explen + |Expand(d.entries, prev)| + 1 <= mru + 1)
            && (r.ending == Finished ==> r == Decode(d, mru, prev, explen, ToBits(d.MaxEnt() + 1, d.nBits) + pad))
            && (r.ending != Finished ==> r.ending == Corrupt)
  {
    hide Expand, ToBits, FromBits;
    ReadCode(code, d.nBits, pad);
    ReadCode(d.MaxEnt() + 1, d.nBits, pad);
    Pow2Monotone(d.nBits, d.maxbits);
    if prev != CLEAR && code == d.MaxEnt() + 2 && explen + |Expand(d.entries, prev)| + 1 <= mru + 1 {
      var s := Step(d, prev, code);
      assert s == Step(d, prev, code - 1);
      var d' := d.Learn(prev, s[0]);
      LearnValid(d, prev, s[0]);
      assert d'.nBits >= d.nBits;
      DecodeOne(d, mru, prev, explen, code, ToBits(code, d.nBits) + pad, d', s);
      DecodeOne(d, mru, prev, explen, code - 1, ToBits(code - 1, d.nBits) + pad, d', s);
    }
  }

  // ----- a packet with such a code

  function Toks(code: nat): seq<Tok> { [Tok(0x21, 9), Tok(code, 9)] }

  /** Three times the byte 0x21, the first of them as the protocol. */
  function Thrice(): seq<byte> { [0xff, 0x03, 0x00, 0x21, 0x21, 0x21] }

  function Message(code: nat): seq<byte> { Header(Thrice(), 0) + Pack(OutBits(Toks(code))) }

  /** The bits of such a message. */
  lemma BodyIs(code: nat)
    ensures BytesToBits(Pack(OutBits(Toks(code)))) == ToBits(0x21, 9) + (ToBits(code, 9) + Ones(6))
    ensures |Pack(OutBits(Toks(code)))| == 3
  {
    PackBits(OutBits(Toks(code)));
    assert Toks(code)[1..] == [Tok(code, 9)] && [Tok(code, 9)][1..] == [];
    assert OutBits([Tok(code, 9)]) == ToBits(code, 9) + OutBits([]) && OutBits([]) == [];
    hide Pack, ToBits, Ones, BytesToBits;
    assert OutBits(Toks(code)) == ToBits(0x21, 9) + ToBits(code, 9);
    assert (ToBits(0x21, 9) + ToBits(code, 9)) + Ones(6) == ToBits(0x21, 9) + (ToBits(code, 9) + Ones(6));
  }

  /** The first code is the byte itself. */
  lemma TakesFirst(d: Dict, mru: nat, rest: seq<bool>)
    requires d == Dict(d.maxbits, [], MIN_BITS) && MIN_BITS <= d.maxbits <= MAX_BITS
    ensures d.Valid() && d.Settled()
    ensures var q := Decode(d, mru, 0x21, 1, rest);
            Decode(d, mru, CLEAR, 0, ToBits(0x21, 9) + rest) == q.(out := [0x21] + q.out)
  {
    Pow2Values();
    Pow2Monotone(9, d.maxbits);
    ReadCode(0x21, 9, rest);
    assert Step(d, CLEAR, 0x21) == [0x21];
    hide Decode, ToBits, FromBits;
    DecodeOne(d, mru, CLEAR, 0, 0x21, ToBits(0x21, 9) + rest, d, [0x21]);
  }

  /** The second is the one being defined. */
  lemma TakesSecond(d: Dict, mru: nat)
    requires d == Dict(d.maxbits, [], MIN_BITS) && MIN_BITS <= d.maxbits <= MAX_BITS && mru >= 2
    ensures d.Valid() && d.Settled()
    ensures var r := Decode(d, mru, 0x21, 1, ToBits(257, 9) + Ones(6)); r.ending == Finished && r.out == [0x21, 0x21]
  {
    Pow2Values();
    Pow2Monotone(9, d.maxbits);
    ReadCode(257, 9, Ones(6));
    assert Step(d, 0x21, 257) == [0x21, 0x21];
    LearnValid(d, 0x21, 0x21);
    hide ToBits, FromBits, Expand, Step;
    DecodeOne(d, mru, 0x21, 1, 257, ToBits(257, 9) + Ones(6), d.Learn(0x21, 0x21), [0x21, 0x21]);
    assert [0x21, 0x21] + [] == [0x21, 0x21];
  }

  /** The sender's codes. */
  lemma Sends257(maxbits: nat, slen: int, maxolen: int)
    requires MIN_BITS <= maxbits <= MAX_BITS
    ensures Compress(Init(maxbits), Thrice(), slen, maxolen).msg in {None, Some(Message(257))}
  {
    SentIs(maxbits);
    hide SentToks, Pack, OutBits;
  }

  lemma SentIs(maxbits: nat)
    requires MIN_BITS <= maxbits <= MAX_BITS
    ensures Eligible(Thrice()) && SentToks(Init(maxbits), Thrice()).0 == Toks(257)
  {
    hide *;
    var g := Dict(maxbits, [Entry(0x21, 0x21)], MIN_BITS);
    EncodesTwo(maxbits);
    OnlyTwo(maxbits, g);
    ThriceIs();
    StartReady(maxbits);
    SentFrom(Init(maxbits), Thrice(), [0x21, 0x21], Parse(Toks(257), g));
  }

  lemma ThriceIs()
    ensures |Thrice()| == 6 && Eligible(Thrice()) && Protocol(Thrice()) == 0x21 && Thrice()[PPP_HDRLEN..] == [0x21, 0x21]
  {
  }

  lemma SentFrom(db: Db, pkt: seq<byte>, data: seq<byte>, p: Parse)
    requires Eligible(pkt) && |pkt| >= PPP_HDRLEN && pkt[PPP_HDRLEN..] == data && Encode(db.dict, Protocol(pkt), data) == p
    requires !Close(db, p.dict, (|OutBits(p.toks)| + 7) / 8, |pkt| - PPP_HDRLEN + 1).1
    ensures SentToks(db, pkt).0 == p.toks
  {
    hide Encode, Close, OutBits, Eligible, Protocol;
  }

  lemma EncodesTwo(maxbits: nat)
    requires MIN_BITS <= maxbits <= MAX_BITS
    ensures Encode(Dict(maxbits, [], MIN_BITS), 0x21, [0x21, 0x21]) == Parse(Toks(257), Dict(maxbits, [Entry(0x21, 0x21)], MIN_BITS))
  {
    var d, g := Dict(maxbits, [], MIN_BITS), Dict(maxbits, [Entry(0x21, 0x21)], MIN_BITS);
    GrowsOnce(maxbits);
    assert [0x21, 0x21][1..] == [0x21] && [0x21][1..] == [];
    hide Dict.Grow, Find;
    assert Encode(g, 257, []) == Parse([Tok(257, 9)], g);
    assert Encode(g, 0x21, [0x21]) == Parse([Tok(257, 9)], g);
    assert [Tok(0x21, 9)] + [Tok(257, 9)] == Toks(257);
  }

  lemma GrowsOnce(maxbits: nat)
    requires MIN_BITS <= maxbits <= MAX_BITS
    ensures var g := Dict(maxbits, [Entry(0x21, 0x21)], MIN_BITS);
            && Find([], 0x21, 0x21) == None && Dict(maxbits, [], MIN_BITS).Grow(0x21, 0x21) == g
            && Find(g.entries, 0x21, 0x21) == Some(257)
  {
    Pow2Values();
    Pow2Monotone(9, maxbits);
    assert [Entry(0x21, 0x21)][..0] == [];
    assert [] + [Entry(0x21, 0x21)] == [Entry(0x21, 0x21)];
  }

  /** It is too early for a CLEAR. */
  lemma OnlyTwo(maxbits: nat, g: Dict)
    ensures !Close(Init(maxbits), g, (|OutBits(Toks(257))| + 7) / 8, 3).1
  {
    hide OutBits, Toks, Age, NewRatio, Clear, Dict.Full, Dict.MaxEnt, MaxCode;
  }

  /** With 258 instead it is taken for the one being defined. */
  lemma StrayIs(d: Dict, mru: nat)
    requires d == Dict(d.maxbits, [], MIN_BITS) && MIN_BITS <= d.maxbits <= MAX_BITS && mru >= 2
    ensures d.Valid() && d.Settled()
    ensures Decode(d, mru, 0x21, 1, ToBits(258, 9) + Ones(6)) == Decode(d, mru, 0x21, 1, ToBits(257, 9) + Ones(6))
  {
    Pow2Values();
    Pow2Monotone(9, d.maxbits);
    hide Decode, ToBits, Ones;
    StrayExactly(d, mru, 0x21, 1, 258, Ones(6));
  }

  lemma StartReady(maxbits: nat)
    requires MIN_BITS <= maxbits <= MAX_BITS
    ensures Ready(Init(maxbits)) && |Thrice()| >= PPP_HDRLEN && Init(maxbits).seqno == 0 && Init(maxbits).dict == Dict(maxbits, [], MIN_BITS)
    ensures MayFollow(Init(maxbits).dict, CLEAR)
  {
    Pow2Values();
    Pow2Monotone(9, maxbits);
  }

  lemma Concluded(db: Db, r: Decoded)
    requires r.ending == Finished && r.out == [0x21] + [0x21, 0x21]
    ensures Conclude(db, Thrice()[..2] + [0], 3, r).status == DecompOk(Thrice())
  {
    hide Check, Tally;
    assert Thrice()[..2] + [0] + r.out == Thrice();
  }

  lemma Differ()
    ensures Message(257) != Message(258)
  {
    hide *;
    BodyIs(257);
    BodyIs(258);
    WordsDiffer();
    var x, y := ToBits(257, 9), ToBits(258, 9);
    var a, b := ToBits(0x21, 9) + (x + Ones(6)), ToBits(0x21, 9) + (y + Ones(6));
    assert a[9..18] == x && b[9..18] == y;
    BodyBehind(257);
    BodyBehind(258);
  }

  lemma WordsDiffer()
    ensures |ToBits(0x21, 9)| == |ToBits(257, 9)| == |ToBits(258, 9)| == 9 && ToBits(257, 9) != ToBits(258, 9)
  {
    Pow2Values();
    FromToBits(257, 9);
    FromToBits(258, 9);
    hide ToBits, FromBits;
  }

  lemma BodyBehind(code: nat)
    ensures Message(code) == Header(Thrice(), 0) + Pack(OutBits(Toks(code))) && |Message(code)| >= 6 && Message(code)[6..] == Pack(OutBits(Toks(code)))
  {
    hide Pack, OutBits;
  }

  /** At the start of a stream there are two messages for this packet: the sender's has code 257, which is being defined; with
      258 instead the receiver makes the same packet of it and has the same state afterwards. */
  lemma StrayPacket(maxbits: nat, mru: nat, slen: int, maxolen: int)
    requires MIN_BITS <= maxbits <= MAX_BITS && mru >= 2
    ensures Message(257) != Message(258)
    ensures Compress(Init(maxbits), Thrice(), slen, maxolen).msg in {None, Some(Message(257))}
    ensures Decompress(Init(maxbits), mru, Message(257)) == Decompress(Init(maxbits), mru, Message(258))
    ensures Decompress(Init(maxbits), mru, Message(258)).status == DecompOk(Thrice())
  {
    hide *;
    var d := Dict(maxbits, [], MIN_BITS);
    Sends257(maxbits, slen, maxolen);
    BodyIs(257);
    BodyIs(258);
    TakesFirst(d, mru, ToBits(257, 9) + Ones(6));
    TakesFirst(d, mru, ToBits(258, 9) + Ones(6));
    TakesSecond(d, mru);
    StrayIs(d, mru);
    StartReady(maxbits);
    BodyBehind(257);
    BodyBehind(258);
    MessageOpens(Init(maxbits), mru, Thrice(), Pack(OutBits(Toks(257))));
    MessageOpens(Init(maxbits), mru, Thrice(), Pack(OutBits(Toks(258))));
    Concluded(Init(maxbits).(seqno := 1), Decode(d, mru, CLEAR, 0, ToBits(0x21, 9) + (ToBits(257, 9) + Ones(6))));
    Differ();
  }
}
