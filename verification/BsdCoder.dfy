/**
 BSD Compress as functions on values: the LZW dictionary, the coder and decoder
 of one packet, and the counters that decide when both ends start afresh.
 The class BsdDb.Bsd implements these functions with the hash table of the source.
 */
module BsdCoder {
  import opened Bits
  import opened Options

  const MIN_BITS: nat := 9
  const MAX_BITS: nat := 15
  const CLEAR: nat := 256
  const FIRST: nat := 257
  const LAST: nat := 255
  const CHECK_GAP: nat := 10000
  const RATIO_MAX: nat := 0x7f_ffff
  const WORD: nat := 0x1_0000_0000
  const PPP_HDRLEN: nat := 4
  const BSD_OVHD: nat := 2
  const PPP_COMP: nat := 0xfd

  function Word(x: nat): nat { x % WORD }

  // ----- the dictionary

  /** Code FIRST + i of a dictionary stands for the expansion of prefix, then suffix. */
  datatype Entry = Entry(prefix: nat, suffix: byte)

  predicate IsCode(c: nat, n: nat) {
    c <= LAST || FIRST <= c < FIRST + n
  }

  ghost predicate Grounded(entries: seq<Entry>) {
    forall i :: 0 <= i < |entries| ==> IsCode(entries[i].prefix, i)
  }

  function MaxCode(bits: nat): nat { Pow2(bits) - 1 }

  datatype Dict = Dict(maxbits: nat, entries: seq<Entry>, nBits: nat) {
    function MaxEnt(): nat { FIRST - 1 + |entries| }

    predicate Full() { MaxEnt() >= MaxCode(maxbits) }

    /** Every code in use fits the current width, which is no larger than needed, and prefixes precede their codes. */
    ghost predicate Valid() {
      && 9 <= nBits <= maxbits <= 15
      && 256 + |entries| < Pow2(nBits) && (nBits > 9 ==> 256 + |entries| >= Pow2(nBits - 1) - 1)
      && Grounded(entries)
    }

    /** The width is the one a packet may start with. */
    ghost predicate Settled() {
      Full() || MaxEnt() < MaxCode(nBits)
    }

    /** Widen the code once the current width is used up. */
    function Widen(): Dict {
      if !Full() && MaxEnt() >= MaxCode(nBits) then this.(nBits := nBits + 1) else this
    }

    /** The sender's step at a mismatch: widen, then give (prefix, suffix) the next code. */
    function Grow(prefix: nat, suffix: byte): Dict {
      if Full() then this else Widen().(entries := entries + [Entry(prefix, suffix)])
    }

    /** The receiver's step one code later: give the next code, then widen. */
    function Learn(prefix: nat, suffix: byte): Dict {
      if Full() then this else this.(entries := entries + [Entry(prefix, suffix)]).Widen()
    }
  }

  /** The first code that stands for (prefix, suffix), if any. */
  function Find(entries: seq<Entry>, prefix: nat, suffix: byte): (r: Option<nat>)
    ensures r.Some? ==> FIRST <= r.value < FIRST + |entries| && entries[r.value - FIRST] == Entry(prefix, suffix)
    ensures r.Some? ==> Entry(prefix, suffix) !in entries[..r.value - FIRST]
    ensures r.None? ==> Entry(prefix, suffix) !in entries
  {
    if entries == [] then None
    else
      var front := entries[..|entries| - 1];
      var r := Find(front, prefix, suffix);
      if r.Some? then
        assert entries[..r.value - FIRST] == front[..r.value - FIRST];
        r
      else if entries[|entries| - 1] == Entry(prefix, suffix) then Some(FIRST + |entries| - 1)
      else None
  }

  /** The bytes that a code stands for. */
  function Expand(entries: seq<Entry>, code: nat): (s: seq<byte>)
    requires Grounded(entries) && IsCode(code, |entries|)
    ensures 1 <= |s| <= |entries| + 1
    ensures |s| <= if code <= LAST then 1 else code - LAST
    decreases code
  {
    if code <= LAST then [code]
    else
      var e := entries[code - FIRST];
      Expand(entries, e.prefix) + [e.suffix]
  }

  lemma {:induction false} ExpandExtended(entries: seq<Entry>, more: seq<Entry>, code: nat)
    requires Grounded(entries) && IsCode(code, |entries|) && Grounded(entries + more)
    ensures Expand(entries + more, code) == Expand(entries, code)
    decreases code
  {
    if code > LAST {
      assert (entries + more)[code - FIRST] == entries[code - FIRST];
      ExpandExtended(entries, more, entries[code - FIRST].prefix);
    }
  }

  // ----- coding one packet

  datatype Tok = Tok(code: nat, width: nat)

  datatype Parse = Parse(toks: seq<Tok>, dict: Dict)

  /** The codes sent for `data` when the coder stands at code ent. */
  function Encode(d: Dict, ent: nat, data: seq<byte>): (p: Parse)
    ensures p.toks != []
    decreases |data|
  {
    if data == [] then Parse([Tok(ent, d.nBits)], d)
    else
      var r := Find(d.entries, ent, data[0]);
      if r.Some? then Encode(d, r.value, data[1..])
      else
        var p := Encode(d.Grow(ent, data[0]), data[0], data[1..]);
        Parse([Tok(ent, d.nBits)] + p.toks, p.dict)
  }

  function OutBits(toks: seq<Tok>): seq<bool> {
    if toks == [] then [] else ToBits(toks[0].code, toks[0].width) + OutBits(toks[1..])
  }

  function Ones(n: nat): (b: seq<bool>)
    ensures |b| == n && forall i :: 0 <= i < n ==> b[i]
  {
    seq(n, i => true)
  }

  /** Cut a bit string into bytes, filling the last byte with ones. */
  function Pack(b: seq<bool>): (s: seq<byte>)
    ensures |s| == (|b| + 7) / 8
    decreases |b|
  {
    if b == [] then []
    else if |b| < 8 then [Octet(b + Ones(8 - |b|))]
    else [Octet(b[..8])] + Pack(b[8..])
  }

  function Octet(b: seq<bool>): (v: byte)
    requires |b| == 8
    ensures v == FromBits(b)
  {
    ToFromBits(b);
    assert Pow2(8) == 256;
    FromBits(b)
  }

  lemma {:induction false} PackBits(b: seq<bool>)
    ensures BytesToBits(Pack(b)) == b + Ones(8 * ((|b| + 7) / 8) - |b|)
    decreases |b|
  {
    if b == [] {
    } else if |b| < 8 {
      LastOctet(b);
    } else {
      PackBits(b[8..]);
      FirstOctet(b);
      assert b == b[..8] + b[8..];
      assert 8 * ((|b[8..]| + 7) / 8) - |b[8..]| == 8 * ((|b| + 7) / 8) - |b|;
      hide Pack, BytesToBits, Ones;
      assert b[..8] + (b[8..] + Ones(8 * ((|b| + 7) / 8) - |b|)) == (b[..8] + b[8..]) + Ones(8 * ((|b| + 7) / 8) - |b|);
    }
  }

  lemma OneOctet(b: seq<bool>)
    requires |b| == 8
    ensures BytesToBits([Octet(b)]) == b
  {
    ToFromBits(b);
    var v := Octet(b);
    assert [v][..0] == [] && BytesToBits([]) == [];
    hide ToBits, FromBits, Octet;
    assert BytesToBits([v]) == [] + ToBits(v, 8);
  }

  lemma LastOctet(b: seq<bool>)
    requires 0 < |b| < 8
    ensures BytesToBits(Pack(b)) == b + Ones(8 - |b|)
  {
    hide BytesToBits, Octet, Ones;
    OneOctet(b + Ones(8 - |b|));
  }

  lemma FirstOctet(b: seq<bool>)
    requires |b| >= 8
    ensures BytesToBits(Pack(b)) == b[..8] + BytesToBits(Pack(b[8..]))
  {
    hide BytesToBits, Octet;
    OneOctet(b[..8]);
    BytesToBitsConcat([Octet(b[..8])], Pack(b[8..]));
  }

  lemma OutBitsConcat(a: seq<Tok>, b: seq<Tok>)
    ensures OutBits(a + b) == OutBits(a) + OutBits(b)
  {
    if a == [] {
      assert a + b == b;
    } else {
      assert (a + b)[1..] == a[1..] + b;
      OutBitsConcat(a[1..], b);
    }
  }

  lemma OutBitsCons(code: nat, w: nat, toks: seq<Tok>, tail: seq<bool>)
    ensures OutBits([Tok(code, w)] + toks) + tail == ToBits(code, w) + (OutBits(toks) + tail)
    ensures OutBits([]) == []
  {
    assert ([Tok(code, w)] + toks)[1..] == toks;
  }

  lemma OutBitsSnoc(toks: seq<Tok>, code: nat, w: nat)
    ensures OutBits(toks + [Tok(code, w)]) == OutBits(toks) + ToBits(code, w)
  {
    OutBitsConcat(toks, [Tok(code, w)]);
    OutBitsCons(code, w, [], []);
    assert [Tok(code, w)] + [] == [Tok(code, w)];
    assert OutBits([Tok(code, w)]) == ToBits(code, w);
  }

  /** What bsd_incomp does with the payload: walk the dictionary, counting bits. */
  function Pretend(d: Dict, ent: nat, data: seq<byte>, bitno: nat): (nat, Dict)
    decreases |data|
  {
    if data == [] then (bitno + d.nBits, d)
    else
      var r := Find(d.entries, ent, data[0]);
      if r.Some? then Pretend(d, r.value, data[1..], bitno)
      else Pretend(d.Grow(ent, data[0]), data[0], data[1..], bitno + d.nBits)
  }

  // ----- decoding one packet

  datatype Ending =
    | Finished  // the packet is used up
    | Cleared   // it ended with a CLEAR
    | Corrupt   // DECOMP_FATALERROR
    | Stray     // a code follows one that is not even being defined: what the source does then depends on entries never set

  datatype Decoded = Decoded(ending: Ending, out: seq<byte>, dict: Dict, explen: nat)

  /** The code before is one in use, or there is none. */
  ghost predicate CanFollow(d: Dict, prev: nat) {
    prev == CLEAR || IsCode(prev, |d.entries|)
  }

  /** Or it is one above those in use, as the check of the codes lets pass. */
  ghost predicate MayFollow(d: Dict, prev: nat) {
    CanFollow(d, prev) || prev == d.MaxEnt() + 1
  }

  /** The check of a code other than CLEAR. */
  predicate Accepted(d: Dict, prev: nat, code: nat) {
    !(code > d.MaxEnt() + 2 || code > MaxCode(d.maxbits) || (code > d.MaxEnt() && prev == CLEAR))
  }

  /** Decode the codes in `bits`; prev is the code before them, CLEAR at the start of a packet. */
  ghost function Decode(d: Dict, mru: nat, prev: nat, explen: nat, bits: seq<bool>): (r: Decoded)
    requires d.Valid() && d.Settled() && MayFollow(d, prev)
    ensures r.dict.maxbits == d.maxbits && r.dict.Valid() && r.dict.Settled()
    decreases |bits|
  {
    if |bits| < d.nBits then Decoded(Finished, [], d, explen)
    else
      var code := FromBits(bits[..d.nBits]);
      var rest := bits[d.nBits..];
      if code == CLEAR then
        if |rest| >= 8 then Decoded(Corrupt, [], d, explen)
        else Decoded(Cleared, [], d.(entries := [], nBits := MIN_BITS), 0)
      else
        var verdict := Judge(d, mru, prev, explen, code);
        if verdict != Finished then Decoded(verdict, [], d, explen)
        else
          var s := Step(d, prev, code);
          var d' := if prev == CLEAR then d else d.Learn(prev, s[0]);
          LearnValid(d, prev, s[0]);
          var r := Decode(d', mru, code, explen + |s|, rest);
          r.(out := s + r.out)
  }

  /** Finished if a code other than CLEAR can be taken here. */
  ghost function Judge(d: Dict, mru: nat, prev: nat, explen: nat, code: nat): (e: Ending)
    requires d.Valid() && MayFollow(d, prev) && code != CLEAR
    ensures e != Cleared
    ensures e == Finished ==> CanFollow(d, prev) && Known(d, prev, code)
  {
    if !Accepted(d, prev, code) then Corrupt
    else if !Known(d, prev, code) then Stray
    else if explen + |Step(d, prev, code)| > mru + 1 then Corrupt
    else if !CanFollow(d, prev) then Stray
    else Finished
  }

  /** The code is in use, or it is taken for the one that the code before defines. */
  predicate Known(d: Dict, prev: nat, code: nat) {
    IsCode(code, |d.entries|) || (code > d.MaxEnt() && IsCode(prev, |d.entries|))
  }

  /** The bytes one received code adds, including the code that is only now being defined. */
  ghost function Step(d: Dict, prev: nat, code: nat): (s: seq<byte>)
    requires d.Valid() && Known(d, prev, code)
    ensures s != []
  {
    if code > d.MaxEnt() then
      var s := Expand(d.entries, prev);
      s + [s[0]]
    else Expand(d.entries, code)
  }

  // ----- counters and whole packets

  datatype Db = Db(dict: Dict, inCount: nat, bytesOut: nat, ratio: nat, checkpoint: nat, seqno: nat)

  function Init(maxbits: nat): Db {
    Db(Dict(maxbits, [], MIN_BITS), 0, 0, 0, CHECK_GAP, 0)
  }

  function Clear(db: Db): Db {
    Db(db.dict.(entries := [], nBits := MIN_BITS), 0, 0, 0, CHECK_GAP, db.seqno)
  }

  function Age(db: Db): Db {
    if db.inCount >= RATIO_MAX || db.bytesOut >= RATIO_MAX then
      db.(inCount := db.inCount - db.inCount / 4, bytesOut := db.bytesOut - db.bytesOut / 4)
    else db
  }

  function NewRatio(db: Db): nat {
    var scaled := Word(db.inCount * 256);
    if db.bytesOut != 0 then scaled / db.bytesOut else scaled
  }

  /** bsd_check: the new state, and whether a CLEAR is due. */
  function Check(db: Db): (Db, bool) {
    if db.inCount < db.checkpoint then (db, false)
    else
      var aged := Age(db);
      var next := aged.(checkpoint := Word(aged.inCount + CHECK_GAP));
      if !next.dict.Full() then (next, false)
      else
        var r := NewRatio(next);
        if r < next.ratio || r < 256 then (Clear(next), true)
        else (next.(ratio := r), false)
  }

  /** Add one packet of `bytes` coded and `ilen` plain bytes to the counts. */
  function Tally(db: Db, bytes: nat, ilen: nat): Db {
    db.(bytesOut := Word(db.bytesOut + bytes), inCount := Word(db.inCount + ilen))
  }

  function Protocol(pkt: seq<byte>): nat
    requires |pkt| >= PPP_HDRLEN
  {
    256 * (pkt[2] as int) + pkt[3]
  }

  /** Packets that the coder looks at; all others pass it by. */
  predicate Eligible(pkt: seq<byte>) {
    |pkt| >= PPP_HDRLEN && 0x21 <= Protocol(pkt) <= 0xf9
  }

  function Min(a: int, b: int): int { if a < b then a else b }

  datatype Sent = Sent(size: nat, msg: Option<seq<byte>>, db: Db)

  /** The end of a packet on the coding side: count it, check the ratio, widen the code. */
  function Close(db: Db, dict: Dict, bytes: nat, ilen: nat): (Db, bool) {
    var counted := Tally(db.(dict := dict, seqno := (db.seqno + 1) % 0x1_0000), bytes, ilen);
    var (checked, clear) := Check(counted);
    if !dict.Full() && dict.MaxEnt() >= MaxCode(dict.nBits)
    then (checked.(dict := checked.dict.(nBits := checked.dict.nBits + 1)), clear)
    else (checked, clear)
  }

  /** The codes of a packet, with the CLEAR that may follow them, and the state after it. */
  function SentToks(db: Db, pkt: seq<byte>): (seq<Tok>, Db)
    requires Eligible(pkt)
  {
    var p := Encode(db.dict, Protocol(pkt), pkt[PPP_HDRLEN..]);
    var (db', clear) := Close(db, p.dict, (|OutBits(p.toks)| + 7) / 8, |pkt| - PPP_HDRLEN + 1);
    (if clear then p.toks + [Tok(CLEAR, p.dict.nBits)] else p.toks, db')
  }

  function Header(pkt: seq<byte>, seqno: nat): seq<byte>
    requires |pkt| >= PPP_HDRLEN
  {
    [pkt[0], pkt[1], 0, PPP_COMP, seqno / 256 % 256, seqno % 256]
  }

  /** bsd_compress: slen and maxolen are the caller's two limits on the size. */
  function Compress(db: Db, pkt: seq<byte>, slen: int, maxolen: int): Sent {
    if !Eligible(pkt) then Sent(0, None, db)
    else
      var (toks, db') := SentToks(db, pkt);
      var body := Pack(OutBits(toks));
      var size := |body| + PPP_HDRLEN + BSD_OVHD;
      Sent(size, if size > Min(maxolen, slen) then None else Some(Header(pkt, db.seqno) + body), db')
  }

  /** bsd_incomp: absorb a packet that came uncompressed. */
  function Incomp(db: Db, pkt: seq<byte>): Db {
    if !Eligible(pkt) then db
    else
      var (bitno, dict) := Pretend(db.dict, Protocol(pkt), pkt[PPP_HDRLEN..], 7);
      Close(db, dict, bitno / 8, |pkt| - PPP_HDRLEN + 1).0
  }

  datatype Status = DecompOk(packet: seq<byte>) | DecompError | DecompFatal | DecompStray

  datatype Received = Received(status: Status, db: Db)

  /** bsd_decompress. */
  ghost function Decompress(db: Db, mru: nat, msg: seq<byte>): Received
    requires db.dict.Valid() && db.dict.Settled()
  {
    if |msg| <= PPP_HDRLEN + BSD_OVHD then Received(DecompError, db)
    else
      var db1 := db.(seqno := (db.seqno + 1) % 0x1_0000);
      if 256 * (msg[4] as int) + msg[5] != db.seqno then Received(DecompError, db1)
      else
        var body := msg[PPP_HDRLEN + BSD_OVHD..];
        Conclude(db1, msg[..2] + [0], |body|, Decode(db.dict, mru, CLEAR, 0, BytesToBits(body)))
  }

  /** The end of a packet on the decoding side; a CLEAR has set both counts to zero. */
  function Conclude(db: Db, header: seq<byte>, ilen: nat, r: Decoded): Received {
    match r.ending
    case Corrupt => Received(DecompFatal, db.(dict := r.dict))
    case Stray => Received(DecompStray, db.(dict := r.dict))
    case Cleared => Received(DecompOk(header + r.out), Check(Tally(Clear(db), 0, 0)).0)
    case Finished => Received(DecompOk(header + r.out), Check(Tally(db.(dict := r.dict), ilen, r.explen)).0)
  }

  // ----- steps keep the dictionary valid

  lemma WidenValid(d: Dict)
    requires d.Valid()
    ensures d.Widen().Valid() && d.Widen().Settled()
    ensures !d.Full() ==> d.MaxEnt() < MaxCode(d.Widen().nBits)
  {
    if !d.Full() && d.MaxEnt() >= MaxCode(d.nBits) {
      if d.nBits < d.maxbits {
        Pow2Monotone(d.nBits, d.nBits + 1);
      }
    }
  }

  lemma GrowValid(d: Dict, prefix: nat, suffix: byte)
    requires d.Valid() && IsCode(prefix, |d.entries|)
    ensures d.Grow(prefix, suffix).Valid()
  {
    WidenValid(d);
  }

  lemma LearnValid(d: Dict, prev: nat, suffix: byte)
    requires d.Valid() && d.Settled() && CanFollow(d, prev)
    ensures prev != CLEAR ==> d.Learn(prev, suffix).Valid() && d.Learn(prev, suffix).Settled()
    ensures prev != CLEAR && !d.Full() ==> d.Learn(prev, suffix).entries == d.entries + [Entry(prev, suffix)]
  {
    if prev != CLEAR && !d.Full() {
      WidenValid(d.(entries := d.entries + [Entry(prev, suffix)]));
    }
  }

  lemma CheckClearsOrKeeps(db: Db)
    ensures var (db', clear) := Check(db);
            if clear then db.dict.Full() && db' == Clear(db) else db'.dict == db.dict && db'.seqno == db.seqno
  {
  }
}
