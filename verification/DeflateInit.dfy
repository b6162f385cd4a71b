/** A new stream: _tr_init, with the constant tables that tr_static_init makes. */
module DeflateInit {
  import opened Alphabet
  import opened BitOrder
  import opened BlockTrees
  import opened StaticTrees
  import opened BlockFlush
  import Codebook

  /** The code books in use are the fixed ones. */
  ghost predicate FixedBooks(sl: Codebook.Code, sd: Codebook.Code) {
    && |sl.len| == FIXED_CODES && (forall n :: 0 <= n < FIXED_CODES ==> sl.len[n] == StaticLen(n))
    && (exists c :: Ready(Upto(FIXED_CODES), FIXED_CODES, 9, sl.code, sl.len, c))
    && |sd.code| == |sd.len| == D_CODES && forall n :: 0 <= n < D_CODES ==> sd.len[n] == 5 && sd.code[n] == Reversed(n, 5)
  }

  /** Both fixed trees give every symbol a code word. */
  lemma FixedBooksServe(code: seq<nat>, len: seq<nat>, c: seq<nat>, dcode: seq<nat>, dlen: seq<nat>)
    requires Ready(Upto(FIXED_CODES), FIXED_CODES, 9, code, len, c) && |code| == |len| == FIXED_CODES
    requires forall n :: 0 <= n < FIXED_CODES ==> len[n] == StaticLen(n)
    requires |dcode| == |dlen| == D_CODES && forall n :: 0 <= n < D_CODES ==> dlen[n] == 5 && dcode[n] == Reversed(n, 5)
    ensures Books(Codebook.Code(code, len), Codebook.Code(dcode, dlen))
    ensures FixedBooks(Codebook.Code(code, len), Codebook.Code(dcode, dlen))
  {
    hide Ready, Reversed, StaticLen, Codebook.Code.Has;
    StaticHas(code, len, c, dcode, dlen);
  }

  /** _tr_init, for buffers of the given size. */
  method TrInit(litBufsize: nat, level: nat) returns (d: Deflater)
    requires litBufsize <= MAX_LIT_BUFSIZE
    ensures fresh(d) && fresh(d.w) && fresh(d.s) && fresh({d.s.heap, d.s.depth, d.s.blCount}) && fresh({d.dBuf, d.lBuf})
    ensures fresh({d.lt, d.dt, d.bt}) && fresh({d.lt.fc, d.dt.fc, d.bt.fc}) && fresh({d.lt.dl, d.dt.dl, d.bt.dl})
    ensures d.Valid() && d.Block() == [] && d.w.Bits() == [] && d.level == level && d.lBuf.Length == litBufsize
    ensures FixedBooks(d.StaticLit(), d.StaticDist())
  {
    hide Ready, Reversed, StaticLen, Upto, Books, FixedBooks, Tables.Valid, Deflater.Valid, Deflater.Fixed, Deflater.Block;
    var tables := TrStaticInit();
    ghost var c;
    var lcode, llen, dcode, dlen;
    lcode, llen, c := StaticLitTree();
    dcode, dlen := StaticDistTree();
    FixedBooksServe(lcode[..], llen[..], c, dcode[..], dlen[..]);
    d := new Deflater(litBufsize, level, tables, lcode, llen, dcode, dlen);
    d.InitBlock();
  }
}
