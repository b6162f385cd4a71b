/**
 The (de)compressor state of BSD Compress with its arrays updated in place.  Each method
 is proved against the function of the same name in BsdCoder, through Abs().
 */
module BsdDb {
  import opened Accumulator
  import opened Bits
  import opened Options
  import opened BsdCoder
  import opened BsdLockstep
  import opened BsdTable
  import opened Probing

  class Bsd {
    const maxbits: nat
    const hsize: nat
    const maxmaxcode: nat
    const mru: nat
    const decomp: bool
    const dict: array<Cell>
    const lens: array<nat>  // lengths of codes; kept by decompressors only

    var nBits: nat
    var maxEnt: nat
    var inCount: nat
    var bytesOut: nat
    var ratio: nat
    var checkpoint: nat
    var seqno: nat

    ghost var entries: seq<Entry>
    ghost var depth: seq<nat>

    ghost function Cur(): Dict
      reads this
    {
      Dict(maxbits, entries, nBits)
    }

    ghost function Abs(): Db
      reads this
    {
      Db(Cur(), inCount, bytesOut, ratio, checkpoint, seqno)
    }

    ghost predicate Valid()
      reads this, dict, lens
    {
      && hsize == HashSize(maxbits) == dict.Length && maxmaxcode == MaxCode(maxbits)
      && maxEnt == FIRST - 1 + |entries|
      && Cur().Valid()
      && Table(dict[..], maxbits, entries, depth)
      && (decomp ==> LensRight(lens[..], maxmaxcode, entries))
    }

    constructor (bits: nat, mru: nat, decomp: bool)
      requires MIN_BITS <= bits <= MAX_BITS
      ensures Valid() && fresh(dict) && fresh(lens)
      ensures Abs() == Init(bits) && maxbits == bits && this.mru == mru && this.decomp == decomp
    {
      maxbits := bits;
      hsize := HashSize(bits);
      maxmaxcode := MaxCode(bits);
      this.mru := mru;
      this.decomp := decomp;
      dict := new Cell[HashSize(bits)](_ => Cell(0, 0, 0, 0));
      lens := new nat[if decomp then MaxCode(bits) + 1 else 0](_ => 0);
      nBits, maxEnt, inCount, bytesOut := MIN_BITS, FIRST - 1, 0, 0;
      ratio, checkpoint, seqno := 0, CHECK_GAP, 0;
      entries, depth := [], [];
      new;
      InitTables(dict[..], bits);
      if decomp {
        FillLens(lens);
      }
      FreeCells(dict);
      InitTables(dict[..], bits);
      hide Table, Pow2, LensRight, HashSize;
    }

    /** Every literal has length one. */
    static method FillLens(lens: array<nat>)
      requires lens.Length > LAST + 1
      modifies lens
      ensures forall c :: 0 <= c <= LAST ==> lens[c] == 1
    {
      var i := LAST + 1;
      while i != 0
        invariant 0 <= i <= LAST + 1
        invariant forall c :: i <= c <= LAST ==> lens[c] == 1
      {
        i := i - 1;
        lens[i] := 1;
      }
    }

    /** Mark every cell free. */
    static method FreeCells(dict: array<Cell>)
      modifies dict
      ensures forall s :: 0 <= s < dict.Length ==> dict[s].codem1 == BADCODEM1 && dict[s].cptr == 0
    {
      var i := dict.Length;
      while i != 0
        invariant 0 <= i <= dict.Length
        invariant forall s :: i <= s < dict.Length ==> dict[s].codem1 == BADCODEM1 && dict[s].cptr == 0
      {
        i := i - 1;
        dict[i] := dict[i].(codem1 := BADCODEM1, cptr := 0);
      }
    }

    /** bsd_clear */
    method Clear()
      requires Valid()
      modifies this
      ensures Valid() && Abs() == BsdCoder.Clear(old(Abs()))
    {
      ClearedDict(Cur());
      maxEnt := FIRST - 1;
      nBits := MIN_BITS;
      ratio, bytesOut, inCount, checkpoint := 0, 0, 0, CHECK_GAP;
      ClearKeepsTable(dict[..], maxbits, entries, depth);
      if decomp {
        LensCleared(lens[..], maxmaxcode, entries);
      }
      hide Table, LensRight, Pow2;
      entries, depth := [], [];
    }

    /** bsd_check */
    method Check() returns (clear: bool)
      requires Valid()
      modifies this
      ensures Valid() && (Abs(), clear) == BsdCoder.Check(old(Abs()))
    {
      hide Table, LensRight, Pow2;
      clear := false;
      if inCount >= checkpoint {
        if inCount >= RATIO_MAX || bytesOut >= RATIO_MAX {
          inCount := inCount - inCount / 4;
          bytesOut := bytesOut - bytesOut / 4;
        }
        checkpoint := Word(inCount + CHECK_GAP);
        if maxEnt >= maxmaxcode {
          var newRatio := Word(inCount * 256);
          if bytesOut != 0 {
            newRatio := newRatio / bytesOut;
          }
          if newRatio < ratio || newRatio < 256 {
            Clear();
            return true;
          }
          ratio := newRatio;
        }
      }
    }

    /** Look at the j-th cell of the path: free, the key's cell, or another key's. */
    method Examine(hval: nat, ent: nat, c: byte, ghost j: nat) returns (verdict: Verdict)
      requires Valid() && IsCode(ent, |entries|)
      requires j < dict.Length && hval == Path(ent, c, maxbits, j)
      requires UsedBefore(dict[..], maxbits, maxEnt, ent, c, j) && NoMatchBefore(dict[..], maxbits, ent, c, j)
      ensures match verdict
              case Free => Find(entries, ent, c) == None && dict[hval].codem1 >= maxEnt
              case Match => Find(entries, ent, c) == Some(dict[hval].codem1 + 1)
              case Other => UsedBefore(dict[..], maxbits, maxEnt, ent, c, j + 1) && NoMatchBefore(dict[..], maxbits, ent, c, j + 1)
    {
      hide *;
      ghost var t := dict[..];
      ExamineParts();
      if dict[hval].codem1 >= maxEnt {
        ProbeMisses(t, maxbits, entries, depth, ent, c, j);
        return Free;
      }
      UsedOneMore(t, maxbits, maxEnt, ent, c, j);
      if dict[hval].prefix == ent && dict[hval].suffix == c {
        ProbeFinds(t, maxbits, entries, depth, ent, c, j);
        return Match;
      }
      NoMatchOneMore(t, maxbits, ent, c, j);
      return Other;
    }

    lemma ExamineParts()
      requires Valid()
      ensures Table(dict[..], maxbits, entries, depth) && maxEnt == 256 + |entries| == FIRST - 1 + |entries|
      ensures dict.Length == HashSize(maxbits)
    {
      hide Table, LensRight, Dict.Valid, Path;
    }

    /** The lookup shared by bsd_compress and bsd_incomp: the cell of the key, or the free cell for it. */
    method Probe(ent: nat, c: byte) returns (hval: nat, found: bool, ghost j: nat)
      requires Valid() && IsCode(ent, |entries|)
      ensures hval < dict.Length && j < dict.Length && hval == Path(ent, c, maxbits, j)
      ensures found ==> Find(entries, ent, c) == Some(dict[hval].codem1 + 1)
      ensures !found ==> Find(entries, ent, c) == None && dict[hval].codem1 >= maxEnt
      ensures !found ==> UsedBefore(dict[..], maxbits, maxEnt, ent, c, j)
    {
      ghost var t := dict[..];
      hval, j := Hash(ent, c, maxbits), 0;
      PathStart(t, maxbits, entries, depth, ent, c);
      hide Path, Pow2, Hash, LensRight, Table, UsedBefore, NoMatchBefore, Find;
      var disp := Disp(hval);
      var verdict := Examine(hval, ent, c, j);
      while verdict == Other
        invariant j < hsize && hval == Path(ent, c, maxbits, j) && disp == Disp(Hash(ent, c, maxbits))
        invariant verdict != Other ==> UsedBefore(t, maxbits, maxEnt, ent, c, j)
        invariant match verdict
                  case Free => Find(entries, ent, c) == None && dict[hval].codem1 >= maxEnt
                  case Match => Find(entries, ent, c) == Some(dict[hval].codem1 + 1)
                  case Other => UsedBefore(t, maxbits, maxEnt, ent, c, j + 1) && NoMatchBefore(t, maxbits, ent, c, j + 1)
        decreases verdict == Other, hsize - j
      {
        UsedPrefixShort(t, maxbits, entries, depth, ent, c, j + 1);
        PathStep(ent, c, maxbits, j);
        hval := hval + disp;
        if hval >= hsize {
          hval := hval - hsize;
        }
        j := j + 1;
        verdict := Examine(hval, ent, c, j);
      }
      found := verdict == Match;
    }

    /** The decompressor's search for a free cell. */
    method FreeCell(ent: nat, c: byte) returns (hval: nat, ghost j: nat)
      requires Valid() && IsCode(ent, |entries|)
      ensures hval < dict.Length && j < dict.Length && hval == Path(ent, c, maxbits, j)
      ensures dict[hval].codem1 >= maxEnt
      ensures UsedBefore(dict[..], maxbits, maxEnt, ent, c, j)
    {
      ghost var t := dict[..];
      hval, j := Hash(ent, c, maxbits), 0;
      PathStart(t, maxbits, entries, depth, ent, c);
      hide Path, Pow2, Hash, LensRight, Table, UsedBefore, NoMatchBefore;
      if dict[hval].codem1 < maxEnt {
        var disp := if hval == 0 then 1 else hval;
        while dict[hval].codem1 < maxEnt
          invariant j < hsize && hval == Path(ent, c, maxbits, j) && disp == Disp(Hash(ent, c, maxbits))
          invariant UsedBefore(t, maxbits, maxEnt, ent, c, j)
          decreases hsize - j
        {
          UsedOneMore(t, maxbits, maxEnt, ent, c, j);
          UsedPrefixShort(t, maxbits, entries, depth, ent, c, j + 1);
          PathStep(ent, c, maxbits, j);
          hval := hval + disp;
          if hval >= hsize {
            hval := hval - hsize;
          }
          j := j + 1;
        }
      }
    }

    lemma LensBounds(code: nat)
      requires Valid() && decomp && IsCode(code, |entries|)
      ensures code < lens.Length == maxmaxcode + 1 && lens[code] == |Expand(entries, code)|
    {
    }

    /** Invalidate the cell that held this code before the last clear, then write the new one. */
    static method WriteCells(dict: array<Cell>, maxEnt: nat, hval: nat, ent: nat, c: byte)
      requires maxEnt + 1 < dict.Length && hval < dict.Length && dict[maxEnt + 1].cptr < dict.Length
      modifies dict
      ensures dict[..] == Enter(old(dict[..]), maxEnt, hval, ent, c)
    {
      var next := maxEnt + 1;
      var stale := dict[next].cptr;
      if dict[stale].codem1 == maxEnt {
        dict[stale] := dict[stale].(codem1 := BADCODEM1);
      }
      dict[next] := dict[next].(cptr := hval);
      dict[hval] := dict[hval].(codem1 := maxEnt, prefix := ent, suffix := c);
    }

    /** Take over cell hval for the next code, which stands for (ent, c). */
    method Take(hval: nat, ent: nat, c: byte, ghost j: nat)
      requires Valid() && IsCode(ent, |entries|) && maxEnt < maxmaxcode && maxEnt + 1 <= MaxCode(nBits)
      requires j < dict.Length && hval == Path(ent, c, maxbits, j) && dict[hval].codem1 >= maxEnt
      requires UsedBefore(dict[..], maxbits, maxEnt, ent, c, j)
      modifies this`maxEnt, this`entries, this`depth, dict, lens
      ensures Valid() && maxEnt == old(maxEnt) + 1 && entries == old(entries) + [Entry(ent, c)]
    {
      hide Path, Pow2, Hash, Table, LensRight, UsedBefore, Enter, Expand, MaxCode, HashSize, IsCode, Dict.Valid;
      EnterKeepsTable(dict[..], maxbits, entries, depth, ent, c, j);
      TakeBounds(dict[..], maxbits, entries, depth);
      OneMoreValid(Cur(), Entry(ent, c));
      ghost var t, l := dict[..], lens[..];
      if decomp {
        LensBounds(ent);
        LensExtended(l, maxmaxcode, entries, ent, c);
      }
      var next := maxEnt + 1;
      WriteCells(dict, maxEnt, hval, ent, c);
      if decomp {
        lens[next] := lens[ent] + 1;
        assert lens[..] == l[FIRST + |entries| := l[ent] + 1];
      }
      maxEnt := next;
      entries, depth := entries + [Entry(ent, c)], depth + [j];
    }

    /** The mismatch branch shared by bsd_compress and bsd_incomp: widen if needed, then learn the key. */
    method Mismatch(hval: nat, ent: nat, c: byte, ghost j: nat)
      requires Valid() && IsCode(ent, |entries|)
      requires j < dict.Length && hval == Path(ent, c, maxbits, j) && dict[hval].codem1 >= maxEnt
      requires UsedBefore(dict[..], maxbits, maxEnt, ent, c, j)
      modifies this`maxEnt, this`entries, this`depth, this`nBits, dict, lens
      ensures Valid() && Cur() == old(Cur()).Grow(ent, c)
    {
      hide Path, Pow2, Hash, Table, LensRight, UsedBefore, Expand, HashSize, Dict.Valid;
      WidenValid(Cur());
      if maxEnt < maxmaxcode {
        if maxEnt >= MaxCode(nBits) {
          nBits := nBits + 1;
        }
        Take(hval, ent, c, j);
      }
    }

    lemma CodeFits(ent: nat)
      requires Valid() && IsCode(ent, |entries|)
      ensures MIN_BITS <= nBits <= MAX_BITS && ent < Pow2(nBits)
      ensures maxEnt >= maxmaxcode ==> CLEAR < Pow2(nBits)
    {
      Pow2Values();
      Pow2Monotone(9, nBits);
    }

    /** One byte of bsd_compress: extend the current phrase, or send its code. */
    method CompressByte(ent0: nat, c: byte, w: Writer) returns (ent: nat)
      requires Valid() && IsCode(ent0, |entries|) && w.Valid()
      modifies this`maxEnt, this`entries, this`depth, this`nBits, dict, lens, w
      ensures Valid() && IsCode(ent, |entries|) && w.Valid()
      ensures match Find(old(entries), ent0, c)
              case Some(code) => ent == code && Cur() == old(Cur()) && w.bits == old(w.bits)
              case None =>
                && ent == c && Cur() == old(Cur()).Grow(ent0, c)
                && w.bits == old(w.bits) + ToBits(ent0, old(nBits))
    {
      hide Path, Pow2, Hash, Table, LensRight, UsedBefore, Expand, HashSize, Find, ToBits, FromBits, BytesToBits;
      var hval, found, j := Probe(ent0, c);
      if found {
        FoundCode(entries, ent0, c);
        ent := dict[hval].codem1 + 1;
      } else {
        CodeFits(ent0);
        w.Output(ent0, nBits);
        Mismatch(hval, ent0, c, j);
        ent := c;
      }
    }

    /** The loop of bsd_compress over the payload, and the code of the last phrase. */
    method SendPayload(ent0: nat, data: seq<byte>, w: Writer)
      requires Valid() && IsCode(ent0, |entries|) && w.Valid() && w.bits == []
      modifies this`maxEnt, this`entries, this`depth, this`nBits, dict, lens, w
      ensures Valid() && w.Valid()
      ensures var p := Encode(old(Cur()), ent0, data); Cur() == p.dict && w.bits == OutBits(p.toks)
    {
      hide Path, Pow2, Hash, Table, LensRight, UsedBefore, Expand, HashSize, Find, ToBits, FromBits, BytesToBits,
           Encode, OutBits, Remaining, Grounded, Holds, Dict.Valid;
      var ent := ent0;
      ghost var p, toks: seq<Tok> := Encode(Cur(), ent, data), [];
      RemainingStart(Cur(), ent, data);
      var i := 0;
      while i < |data|
        invariant 0 <= i <= |data|
        invariant Valid() && IsCode(ent, |entries|) && w.Valid() && w.bits == OutBits(toks)
        invariant Remaining(p, toks, Cur(), ent, data[i..])
      {
        RemainingStep(p, toks, Cur(), ent, data[i..]);
        OutBitsSnoc(toks, ent, nBits);
        toks := if Find(entries, ent, data[i]).Some? then toks else toks + [Tok(ent, nBits)];
        assert data[i..][1..] == data[i + 1..];
        ent := CompressByte(ent, data[i], w);
        i := i + 1;
      }
      assert data[i..] == [];
      RemainingStep(p, toks, Cur(), ent, data[i..]);
      OutBitsSnoc(toks, ent, nBits);
      CodeFits(ent);
      w.Output(ent, nBits);
    }

    /** The part of bsd_compress after the header: all codes of an eligible packet, and the state that follows. */
    method SendCodes(pkt: seq<byte>, w: Writer)
      requires Valid() && BsdCoder.Eligible(pkt) && w.Valid() && w.bits == []
      modifies this, dict, lens, w
      ensures Valid() && Abs() == BsdCoder.SentToks(old(Abs()), pkt).1 && w.bits == OutBits(BsdCoder.SentToks(old(Abs()), pkt).0)
      ensures w.olen == |Pack(w.bits)| && (|w.header| + w.olen <= w.room ==> w.wptr == w.header + Pack(w.bits))
    {
      hide Path, Pow2, Hash, Table, LensRight, UsedBefore, Expand, HashSize, Find, ToBits, FromBits, BytesToBits,
           Encode, OutBits, Pack, BsdCoder.Check, BsdCoder.Close, Grounded, Header, Word, Holds, Dict.Valid, MaxCode, Tally;
      var ent := Protocol(pkt);
      ghost var db, p := Abs(), Encode(Cur(), ent, pkt[PPP_HDRLEN..]);
      seqno := (seqno + 1) % 0x1_0000;
      var ilen := |pkt| - PPP_HDRLEN + 1;
      SendPayload(ent, pkt[PPP_HDRLEN..], w);
      var max_ent, n_bits := maxEnt, nBits;
      var clear := CountPacket(w, ilen, db, p);
      SendLast(clear, w, n_bits, p);
      CloseValid(db, p.dict, (|OutBits(p.toks)| + 7) / 8, ilen);
      if max_ent >= MaxCode(n_bits) && max_ent < maxmaxcode {
        nBits := nBits + 1;
      }
    }

    /** bsd_compress.  The message blocks become one message with room for maxolen bytes. */
    method Compress(pkt: seq<byte>, slen: int, maxolen: int) returns (size: nat, msg: Option<seq<byte>>)
      requires Valid() && !decomp
      modifies this, dict, lens
      ensures Valid() && Sent(size, msg, Abs()) == BsdCoder.Compress(old(Abs()), pkt, slen, maxolen)
    {
      hide Abs, Valid, OutBits, Pack, BsdCoder.SentToks, Header;
      if |pkt| < PPP_HDRLEN {
        return 0, None;
      }
      var ent := Protocol(pkt);
      if ent < 0x21 || ent > 0xf9 {
        return 0, None;
      }
      var room := if maxolen > slen then slen else maxolen;
      SeqnoOf();
      var w := new Writer(Header(pkt, seqno), room);
      SendCodes(pkt, w);
      HeaderLength(pkt, old(seqno));
      size := w.olen + PPP_HDRLEN + BSD_OVHD;
      msg := if size > room then None else Some(w.wptr);
    }

    lemma SeqnoOf()
      requires Valid()
      ensures Abs().seqno == seqno
    {
    }

    /** A CLEAR if the dictionary was cleared, and padding. */
    method SendLast(clear: bool, w: Writer, n: nat, ghost p: Parse)
      requires w.Valid() && p.dict.Valid() && n == p.dict.nBits && w.bits == OutBits(p.toks)
      modifies w
      ensures w.bits == OutBits(if clear then p.toks + [Tok(CLEAR, n)] else p.toks)
      ensures w.olen == |Pack(w.bits)| && (|w.header| + w.olen <= w.room ==> w.wptr == w.header + Pack(w.bits))
    {
      hide OutBits, Pack, ToBits, Pow2, Dict.Valid;
      if clear {
        ClearFits(p.dict);
        OutBitsSnoc(p.toks, CLEAR, n);
        w.Output(CLEAR, n);
      }
      w.Finish();
    }

    /** Count the packet before any CLEAR is output, then check the ratio. */
    method CountPacket(w: Writer, ilen: nat, ghost db: Db, ghost p: Parse) returns (clear: bool)
      requires Valid() && w.Valid() && Cur() == p.dict && w.bits == OutBits(p.toks)
      requires Abs() == db.(dict := p.dict, seqno := (db.seqno + 1) % 0x1_0000)
      modifies this
      ensures Valid() && w.Valid()
      ensures (Abs(), clear) == BsdCoder.Check(Tally(db.(dict := p.dict, seqno := (db.seqno + 1) % 0x1_0000),
                                                     (|OutBits(p.toks)| + 7) / 8, ilen))
    {
      hide Table, LensRight, Pow2, OutBits, BsdCoder.Check, Word, Dict.Valid;
      w.PendingShort();
      WordTwice(db.bytesOut, w.olen);
      bytesOut := Word(bytesOut + w.olen);
      inCount := Word(inCount + ilen);
      if w.bitno < 32 {
        bytesOut := Word(bytesOut + 1);
      }
      clear := Check();
    }

    /** The loop of bsd_incomp: walk the dictionary and count the bits that are not sent. */
    method PretendPayload(ent0: nat, data: seq<byte>, bitno0: nat) returns (bitno: nat)
      requires Valid() && IsCode(ent0, |entries|)
      modifies this`maxEnt, this`entries, this`depth, this`nBits, dict, lens
      ensures Valid() && (bitno, Cur()) == Pretend(old(Cur()), ent0, data, bitno0)
    {
      hide Path, Pow2, Hash, Table, LensRight, UsedBefore, Expand, HashSize, Find, Grounded, Dict.Valid;
      bitno := bitno0;
      var ent: nat, i: nat := ent0, 0;
      while i < |data|
        invariant 0 <= i <= |data| && Valid() && IsCode(ent, |entries|)
        invariant Pretend(old(Cur()), ent0, data, bitno0) == Pretend(Cur(), ent, data[i..], bitno)
      {
        var c := data[i];
        FoundCode(entries, ent, c);
        assert data[i..][1..] == data[i + 1..];
        var hval, found, j := Probe(ent, c);
        if found {
          ent := dict[hval].codem1 + 1;
        } else {
          bitno := bitno + nBits;
          Mismatch(hval, ent, c, j);
          ent := c;
        }
        i := i + 1;
      }
      bitno := bitno + nBits;
    }

    /** bsd_incomp */
    method Incomp(pkt: seq<byte>)
      requires Valid() && decomp
      modifies this, dict, lens
      ensures Valid() && Abs() == BsdCoder.Incomp(old(Abs()), pkt)
    {
      hide Path, Pow2, Hash, Table, LensRight, UsedBefore, Expand, HashSize, Pretend,
           BsdCoder.Check, BsdCoder.Close, Grounded, Word, Dict.Valid, MaxCode;
      if |pkt| < PPP_HDRLEN {
        return;
      }
      var ent := Protocol(pkt);
      if ent < 0x21 || ent > 0xf9 {
        return;
      }
      ghost var db := Abs();
      seqno := (seqno + 1) % 0x1_0000;
      var ilen := |pkt| - PPP_HDRLEN + 1;
      var bitno := PretendPayload(ent, pkt[PPP_HDRLEN..], 7);
      var max_ent, n_bits := maxEnt, nBits;
      CloseValid(db, Cur(), bitno / 8, ilen);
      bytesOut := Word(bytesOut + bitno / 8);
      inCount := Word(inCount + ilen);
      var _ := Check();
      if max_ent >= MaxCode(n_bits) && max_ent < maxmaxcode {
        nBits := nBits + 1;
      }
    }

    /** Write the expansion of a code backwards from its end; lens gives its length. */
    method Unwind(code: nat) returns (s: seq<byte>)
      requires Valid() && decomp && IsCode(code, |entries|)
      ensures s == Expand(entries, code)
    {
      hide *;
      LensBounds(code);
      ghost var t := dict[..];
      TableHeld();
      var codelen := lens[code];
      var p := new byte[codelen];
      ghost var x := Expand(entries, code);
      var finchar: nat, k: nat := code, codelen;
      while finchar > LAST
        invariant IsCode(finchar, |entries|) && 1 <= k <= codelen == p.Length == |x|
        invariant Expand(entries, finchar) == x[..k]
        invariant forall i :: k <= i < codelen ==> p[i] == x[i]
        invariant dict[..] == t
        decreases finchar
      {
        ChainCell(t, maxbits, entries, depth, finchar);
        var cell := dict[dict[finchar].cptr];
        LastOfPrefix(x, k, Expand(entries, cell.prefix), cell.suffix);
        k := k - 1;
        p[k] := cell.suffix;
        finchar := cell.prefix;
      }
      LiteralExpands(entries, finchar);
      assert x[0] == x[..k][0] && |x[..k]| == 1;
      p[0] := finchar;
      s := p[..];
    }

    lemma TableHeld()
      requires Valid()
      ensures Grounded(entries) && Table(dict[..], maxbits, entries, depth)
    {
      hide Table, Grounded, LensRight, Path;
    }

    /** Unless this is the first code of the packet or the table is full, learn the previous code's successor. */
    method Install(oldcode: nat, finchar: byte)
      requires Valid() && Cur().Settled() && CanFollow(Cur(), oldcode)
      modifies this`maxEnt, this`entries, this`depth, this`nBits, dict, lens
      ensures Valid() && Cur() == if oldcode == CLEAR then old(Cur()) else old(Cur()).Learn(oldcode, finchar)
    {
      hide Path, Pow2, Hash, Table, LensRight, UsedBefore, Expand, HashSize, Dict.Valid;
      LearnValid(Cur(), oldcode, finchar);
      if oldcode != CLEAR && maxEnt < maxmaxcode {
        var hval, j := FreeCell(oldcode, finchar);
        Take(hval, oldcode, finchar, j);
        if maxEnt >= MaxCode(nBits) && maxEnt < maxmaxcode {
          nBits := nBits + 1;
        }
      }
    }

    /** Decode one code other than CLEAR and learn what it implies. */
    method TakeCode(oldcode: nat, incode: nat, explen: nat) returns (verdict: Ending, s: seq<byte>)
      requires Valid() && decomp && Cur().Settled() && MayFollow(Cur(), oldcode) && incode != CLEAR
      modifies this`maxEnt, this`entries, this`depth, this`nBits, dict, lens
      ensures Valid() && verdict == Judge(old(Cur()), mru, oldcode, explen, incode)
      ensures verdict != Finished ==> Cur() == old(Cur())
      ensures verdict == Finished ==>
                s == Step(old(Cur()), oldcode, incode) && Cur() == After(old(Cur()), oldcode, s[0])
    {
      hide Path, Pow2, Hash, Table, LensRight, UsedBefore, HashSize, Dict.Valid;
      s := [];
      if incode > maxEnt + 2 || incode > maxmaxcode || (incode > maxEnt && oldcode == CLEAR) {
        return Corrupt, s;
      }
      if incode > maxEnt && oldcode > maxEnt {
        return Stray, s;
      }
      var finchar, extra := if incode > maxEnt then oldcode else incode, if incode > maxEnt then 1 else 0;
      LensBounds(finchar);
      var codelen := lens[finchar];
      StepLength(Cur(), oldcode, incode);
      if explen + codelen + extra > mru + 1 {
        return Corrupt, s;
      }
      if oldcode > maxEnt {
        return Stray, s;
      }
      s := Unwind(finchar);
      if extra == 1 {
        s := s + [s[0]];
      }
      Install(oldcode, s[0]);
      return Finished, s;
    }

    /** The loop of bsd_decompress: gather bytes until there is a code, and take it. */
    method ReceiveBody(body: seq<byte>) returns (ending: Ending, out: seq<byte>, explen: nat)
      requires Valid() && decomp && Cur().Settled()
      modifies this, dict, lens
      ensures Valid()
      ensures var r := Decode(old(Cur()), mru, CLEAR, 0, BytesToBits(body));
              && ending == r.ending
              && (ending == Finished || ending == Cleared ==> out == r.out)
              && (ending == Finished ==> explen == r.explen)
              && Abs() == if ending == Cleared then BsdCoder.Clear(old(Abs())) else old(Abs()).(dict := r.dict)
    {
      hide Path, Pow2, Hash, Table, LensRight, UsedBefore, HashSize, Dict.Valid, Decode, BytesToBits, ToBits, FromBits,
           After, Step, Judge, Known, Accepted, Dict.Settled, CanFollow, MayFollow, Holds;
      ghost var db, all := Abs(), BytesToBits(body);
      ReceiveStart(Cur(), mru, body);
      ghost var whole := Decode(Cur(), mru, CLEAR, 0, all);
      out, explen := [], 0;
      var oldcode: nat := CLEAR;
      var accm: nat, bitno: nat, i := 0, 32, 0;
      ghost var pending: seq<bool> := [];
      while i < |body|
        invariant 0 <= i <= |body| && Valid() && Cur().Settled() && MayFollow(Cur(), oldcode)
        invariant Holds(accm, bitno, pending) && |pending| == 32 - bitno < nBits && MIN_BITS <= nBits <= MAX_BITS
        invariant Abs() == db.(dict := Cur())
        invariant UpTo(whole, out, Decode(Cur(), mru, oldcode, explen, pending + BytesToBits(body[i..])))
      {
        MoreBits(accm, bitno, pending, body, i);
        bitno := bitno - 8;
        accm := accm + body[i] * Pow2(bitno);
        ghost var rest := BytesToBits(body[i + 1..]);
        pending := pending + ToBits(body[i], 8);
        i := i + 1;
        if 32 - nBits < bitno {
          continue;
        }
        DecodeRound(Cur(), mru, oldcode, explen, pending, rest);
        TakeTop(accm, bitno, pending, nBits);
        var incode := accm / Pow2(32 - nBits);
        accm := accm * Pow2(nBits) % WORD;
        bitno := bitno + nBits;
        pending := pending[nBits..];
        if incode == CLEAR {
          if i < |body| {
            return Corrupt, out, explen;
          }
          Clear();
          return Cleared, out, 0;
        }
        ghost var d := Cur();
        var verdict, s := TakeCode(oldcode, incode, explen);
        if verdict != Finished {
          return verdict, out, explen;
        }
        WidthBounds(Cur());
        UpToStep(whole, out, s, Decode(Cur(), mru, incode, explen + |s|, pending + rest));
        out := out + s;
        explen := explen + |s|;
        oldcode := incode;
      }
      ReceiveEnd(Cur(), mru, oldcode, explen, pending, body[i..]);
      ending := Finished;
    }

    /** bsd_decompress */
    method Decompress(msg: seq<byte>) returns (status: Status)
      requires Valid() && decomp && Cur().Settled()
      modifies this, dict, lens
      ensures Valid() && Cur().Settled()
      ensures Received(status, Abs()) == BsdCoder.Decompress(old(Abs()), mru, msg)
    {
      hide Path, Pow2, Hash, Table, LensRight, UsedBefore, HashSize, Dict.Valid, Decode, BytesToBits, Dict.Settled,
           BsdCoder.Check, Word;
      if |msg| <= PPP_HDRLEN + BSD_OVHD {
        return DecompError;
      }
      var seq' := 256 * (msg[4] as int) + msg[5];
      var expected := seqno;
      seqno := (seqno + 1) % 0x1_0000;
      if seq' != expected {
        return DecompError;
      }
      var body := msg[PPP_HDRLEN + BSD_OVHD..];
      var header := msg[..2] + [0];
      ghost var db := Abs();
      var ending, out, explen := ReceiveBody(body);
      if ending == Corrupt {
        return DecompFatal;
      }
      if ending == Stray {
        return DecompStray;
      }
      var ilen := |body|;
      if ending == Cleared {
        explen, ilen := 0, 0;
      }
      SettledAfter(Tally(Abs(), ilen, explen));
      bytesOut := Word(bytesOut + ilen);
      inCount := Word(inCount + explen);
      var _ := Check();
      status := DecompOk(header + out);
    }
  }

  lemma WidthBounds(d: Dict)
    requires d.Valid()
    ensures MIN_BITS <= d.nBits <= MAX_BITS
  {
  }

  lemma ReceiveStart(d: Dict, mru: nat, body: seq<byte>)
    requires d.Valid() && d.Settled()
    ensures MIN_BITS <= d.nBits <= MAX_BITS && MayFollow(d, CLEAR) && Holds(0, 32, [])
    ensures body[0..] == body && [] + BytesToBits(body) == BytesToBits(body)
    ensures var whole := Decode(d, mru, CLEAR, 0, BytesToBits(body)); UpTo(whole, [], whole)
  {
    hide Decode, BytesToBits;
    var whole := Decode(d, mru, CLEAR, 0, BytesToBits(body));
    assert [] + whole.out == whole.out;
  }

  /** One more byte of the message joins the accumulator. */
  lemma MoreBits(accm: nat, bitno: nat, pending: seq<bool>, body: seq<byte>, i: nat)
    requires Holds(accm, bitno, pending) && 8 <= bitno && i < |body|
    ensures Holds(accm + body[i] * Pow2(bitno - 8), bitno - 8, pending + ToBits(body[i], 8))
    ensures pending + BytesToBits(body[i..]) == (pending + ToBits(body[i], 8)) + BytesToBits(body[i + 1..])
  {
    hide BytesToBits, ToBits, Pow2, Holds;
    ByteFits();
    PutBottom(accm, bitno, pending, body[i], 8);
    BytesSnoc([], body[i]);
    BytesToBitsConcat([body[i]], body[i + 1..]);
    assert [] + [body[i]] == [body[i]] && [] + ToBits(body[i], 8) == ToBits(body[i], 8);
    assert body[i..] == [body[i]] + body[i + 1..];
  }

  lemma ByteFits()
    ensures Pow2(8) == 256
  {
    Pow2Values();
  }

  lemma ReceiveEnd(d: Dict, mru: nat, prev: nat, explen: nat, pending: seq<bool>, rest: seq<byte>)
    requires d.Valid() && d.Settled() && MayFollow(d, prev) && |pending| < d.nBits && rest == []
    ensures Decode(d, mru, prev, explen, pending + BytesToBits(rest)) == Decoded(Finished, [], d, explen)
  {
    assert pending + BytesToBits(rest) == pending;
  }

  lemma SettledAfter(db: Db)
    requires db.dict.Valid() && (db.dict.Settled() || db.dict.entries == [])
    ensures BsdCoder.Check(db).0.dict.Settled()
  {
    CheckClearsOrKeeps(db);
    Pow2Values();
  }

  ghost predicate UpTo(whole: Decoded, out: seq<byte>, rest: Decoded) {
    whole == rest.(out := out + rest.out)
  }

  lemma UpToStep(whole: Decoded, out: seq<byte>, s: seq<byte>, rest: Decoded)
    requires UpTo(whole, out, rest.(out := s + rest.out))
    ensures UpTo(whole, out + s, rest)
  {
    assert out + (s + rest.out) == (out + s) + rest.out;
  }

  /** One round of decoding, whatever the code. */
  lemma DecodeRound(d: Dict, mru: nat, prev: nat, explen: nat, pending: seq<bool>, rest: seq<bool>)
    requires d.Valid() && d.Settled() && MayFollow(d, prev) && |pending| >= d.nBits
    ensures var code := FromBits(pending[..d.nBits]);
            var r := Decode(d, mru, prev, explen, pending + rest);
            if code == CLEAR then
              r == if |pending[d.nBits..] + rest| >= 8 then Decoded(Corrupt, [], d, explen)
                   else Decoded(Cleared, [], d.(entries := [], nBits := MIN_BITS), 0)
            else if Judge(d, mru, prev, explen, code) != Finished then
              r == Decoded(Judge(d, mru, prev, explen, code), [], d, explen)
            else
              var s := Step(d, prev, code);
              var d' := After(d, prev, s[0]);
              && d'.Valid() && d'.Settled() && MayFollow(d', code)
              && var q := Decode(d', mru, code, explen + |s|, pending[d.nBits..] + rest); r == q.(out := s + q.out)
  {
    var bits := pending + rest;
    assert bits[..d.nBits] == pending[..d.nBits] && bits[d.nBits..] == pending[d.nBits..] + rest;
    hide ToBits, FromBits, Expand, Step, Pow2, Judge;
    var code := FromBits(bits[..d.nBits]);
    if code != CLEAR && Judge(d, mru, prev, explen, code) == Finished {
      JudgedFine(d, mru, prev, explen, code);
      DecodeOne(d, mru, prev, explen, code, bits, After(d, prev, Step(d, prev, code)[0]), Step(d, prev, code));
    }
  }

  lemma JudgedFine(d: Dict, mru: nat, prev: nat, explen: nat, code: nat)
    requires d.Valid() && d.Settled() && MayFollow(d, prev) && code != CLEAR
    requires Judge(d, mru, prev, explen, code) == Finished
    ensures CanFollow(d, prev) && Accepted(d, prev, code) && Known(d, prev, code) && explen + |Step(d, prev, code)| <= mru + 1
    ensures var d' := After(d, prev, Step(d, prev, code)[0]);
            d'.Valid() && d'.Settled() && MayFollow(d', code)
  {
    LearnValid(d, prev, Step(d, prev, code)[0]);
  }

  lemma StepLength(d: Dict, prev: nat, code: nat)
    requires d.Valid() && Known(d, prev, code)
    ensures |Step(d, prev, code)| ==
            if code > d.MaxEnt() then |Expand(d.entries, prev)| + 1 else |Expand(d.entries, code)|
  {
  }

  lemma LastOfPrefix(x: seq<byte>, k: nat, y: seq<byte>, c: byte)
    requires k <= |x| && x[..k] == y + [c] && |y| >= 1
    ensures 2 <= k && x[k - 1] == c && y == x[..k - 1]
  {
    assert |x[..k]| == |y| + 1;
    assert x[k - 1] == x[..k][k - 1];
    assert x[..k - 1] == x[..k][..k - 1];
  }

  lemma LiteralExpands(entries: seq<Entry>, code: nat)
    requires Grounded(entries) && IsCode(code, |entries|) && code <= LAST
    ensures code < 256 && Expand(entries, code) == [code]
  {
  }

  /** The cell that a code points to holds its entry. */
  lemma ChainCell(t: seq<Cell>, bits: nat, entries: seq<Entry>, depth: seq<nat>, code: nat)
    requires Table(t, bits, entries, depth) && Grounded(entries) && IsCode(code, |entries|) && code > LAST
    ensures code < |t| && t[code].cptr < |t|
    ensures var cell := t[t[code].cptr];
            && cell.prefix < code && IsCode(cell.prefix, |entries|)
            && Expand(entries, code) == Expand(entries, cell.prefix) + [cell.suffix]
  {
    hide Path, Pow2;
    var k := code - FIRST;
    assert Placed(t, bits, entries[k], FIRST + k, depth[k]);
  }

  lemma HeaderLength(pkt: seq<byte>, seqno: nat)
    requires |pkt| >= PPP_HDRLEN
    ensures |Header(pkt, seqno)| == PPP_HDRLEN + BSD_OVHD
  {
  }

  lemma ClearFits(d: Dict)
    requires d.Valid()
    ensures MIN_BITS <= d.nBits <= MAX_BITS && CLEAR < Pow2(d.nBits)
  {
    Pow2Values();
    Pow2Monotone(9, d.nBits);
  }

  lemma RemainingStart(d: Dict, ent: nat, data: seq<byte>)
    ensures OutBits([]) == [] && Remaining(Encode(d, ent, data), [], d, ent, data)
  {
    assert [] + Encode(d, ent, data).toks == Encode(d, ent, data).toks;
  }

  lemma WordTwice(a: nat, b: nat)
    ensures Word(Word(a + b) + 1) == Word(a + (b + 1))
  {
  }

  /** Close, spelled out. */
  lemma CloseValid(db: Db, dict: Dict, bytes: nat, ilen: nat)
    requires dict.Valid()
    ensures var (checked, clear) := BsdCoder.Check(Tally(db.(dict := dict, seqno := (db.seqno + 1) % 0x1_0000), bytes, ilen));
            && (clear ==> dict.Full())
            && Close(db, dict, bytes, ilen) ==
               (if dict.MaxEnt() >= MaxCode(dict.nBits) && dict.MaxEnt() < MaxCode(dict.maxbits)
                then checked.(dict := checked.dict.(nBits := checked.dict.nBits + 1)) else checked, clear)
            && Close(db, dict, bytes, ilen).0.dict.Valid()
  {
    CheckClearsOrKeeps(Tally(db.(dict := dict, seqno := (db.seqno + 1) % 0x1_0000), bytes, ilen));
    WidenValid(dict);
    ClearedDict(dict);
  }

  lemma FoundCode(entries: seq<Entry>, prefix: nat, suffix: byte)
    ensures var r := Find(entries, prefix, suffix); r.Some? ==> IsCode(r.value, |entries|)
  {
  }

  /** p is what has been sent so far plus what the coder at ent sends for the rest. */
  ghost predicate Remaining(p: Parse, toks: seq<Tok>, d: Dict, ent: nat, rest: seq<byte>) {
    var q := Encode(d, ent, rest);
    p == Parse(toks + q.toks, q.dict)
  }

  lemma RemainingStep(p: Parse, toks: seq<Tok>, d: Dict, ent: nat, rest: seq<byte>)
    requires Remaining(p, toks, d, ent, rest)
    ensures rest == [] ==> p == Parse(toks + [Tok(ent, d.nBits)], d)
    ensures rest != [] ==>
              match Find(d.entries, ent, rest[0])
              case Some(code) => Remaining(p, toks, d, code, rest[1..])
              case None => Remaining(p, toks + [Tok(ent, d.nBits)], d.Grow(ent, rest[0]), rest[0], rest[1..])
  {
    if rest != [] && Find(d.entries, ent, rest[0]).None? {
      var q := Encode(d.Grow(ent, rest[0]), rest[0], rest[1..]);
      assert toks + ([Tok(ent, d.nBits)] + q.toks) == (toks + [Tok(ent, d.nBits)]) + q.toks;
    }
  }

  lemma TakeBounds(t: seq<Cell>, bits: nat, entries: seq<Entry>, depth: seq<nat>)
    requires Table(t, bits, entries, depth) && FIRST - 1 + |entries| < MaxCode(bits)
    ensures FIRST + |entries| < |t| && t[FIRST + |entries|].cptr < |t|
  {
  }

  datatype Verdict = Free | Match | Other

  lemma InitTables(t: seq<Cell>, bits: nat)
    requires MIN_BITS <= bits <= MAX_BITS && |t| == HashSize(bits)
    ensures Dict(bits, [], MIN_BITS).Valid() && LAST + 2 < MaxCode(bits)
    ensures (forall s :: 0 <= s < |t| ==> t[s].codem1 == BADCODEM1 && t[s].cptr == 0) ==> Table(t, bits, [], [])
    ensures forall l: seq<nat> ::
              |l| == MaxCode(bits) + 1 && (forall c :: 0 <= c <= LAST ==> l[c] == 1) ==> LensRight(l, MaxCode(bits), [])
  {
    Pow2Values();
    Pow2Monotone(9, bits);
    HashBelowSize(0, 0, bits);
    forall l: seq<nat> | |l| == MaxCode(bits) + 1 && (forall c :: 0 <= c <= LAST ==> l[c] == 1)
      ensures LensRight(l, MaxCode(bits), [])
    {
      LensInitial(l, MaxCode(bits));
    }
  }

  lemma LensInitial(l: seq<nat>, maxmaxcode: nat)
    requires |l| == maxmaxcode + 1 && FIRST < maxmaxcode && forall c :: 0 <= c <= LAST ==> l[c] == 1
    ensures LensRight(l, maxmaxcode, [])
  {
  }

  lemma OneMoreValid(d: Dict, e: Entry)
    requires d.Valid() && IsCode(e.prefix, |d.entries|) && d.MaxEnt() + 1 <= MaxCode(d.nBits)
    ensures d.(entries := d.entries + [e]).Valid()
  {
  }

  lemma ClearedDict(d: Dict)
    requires d.Valid()
    ensures d.(entries := [], nBits := MIN_BITS).Valid()
  {
    Pow2Values();
  }

  lemma LensCleared(l: seq<nat>, maxmaxcode: nat, entries: seq<Entry>)
    requires LensRight(l, maxmaxcode, entries)
    ensures LensRight(l, maxmaxcode, [])
  {
    forall c | 0 <= c <= LAST
      ensures l[c] == |Expand([], c)|
    {
      assert IsCode(c, |entries|);
      assert Expand(entries, c) == [c];
    }
  }

  lemma PathStart(t: seq<Cell>, bits: nat, entries: seq<Entry>, depth: seq<nat>, prefix: nat, suffix: byte)
    requires Table(t, bits, entries, depth) && IsCode(prefix, |entries|)
    ensures prefix <= MaxCode(bits)
    ensures Path(prefix, suffix, bits, 0) == Hash(prefix, suffix, bits) < HashSize(bits)
    ensures UsedBefore(t, bits, FIRST - 1 + |entries|, prefix, suffix, 0)
    ensures NoMatchBefore(t, bits, prefix, suffix, 0)
  {
    HashBelowSize(prefix, suffix, bits);
  }

  lemma PathStep(prefix: nat, suffix: byte, bits: nat, j: nat)
    requires Hash(prefix, suffix, bits) < HashSize(bits)
    ensures var next := Path(prefix, suffix, bits, j) + Disp(Hash(prefix, suffix, bits));
            Path(prefix, suffix, bits, j + 1) == if next >= HashSize(bits) then next - HashSize(bits) else next
  {
    var h := Hash(prefix, suffix, bits);
    SlotStep(h, Disp(h), HashSize(bits), j);
  }

  /** lens[c] is the length of the expansion of every code c in use. */
  ghost predicate LensRight(l: seq<nat>, maxmaxcode: nat, entries: seq<Entry>)
  {
    && |l| == maxmaxcode + 1 && LAST <= maxmaxcode && FIRST - 1 + |entries| <= maxmaxcode && Grounded(entries)
    && forall c :: 0 <= c < |l| && IsCode(c, |entries|) ==> l[c] == |Expand(entries, c)|
  }

  lemma LensExtended(l: seq<nat>, maxmaxcode: nat, entries: seq<Entry>, prefix: nat, suffix: byte)
    requires LensRight(l, maxmaxcode, entries) && IsCode(prefix, |entries|) && FIRST + |entries| <= maxmaxcode
    ensures LensRight(l[FIRST + |entries| := l[prefix] + 1], maxmaxcode, entries + [Entry(prefix, suffix)])
  {
    var more := [Entry(prefix, suffix)];
    forall c | 0 <= c < |l| && IsCode(c, |entries|)
      ensures Expand(entries + more, c) == Expand(entries, c)
    {
      ExpandExtended(entries, more, c);
    }
  }
}
