/** Code words as deflate keeps them: values to be sent least significant bit first, and lengths. */
module Codebook {
  import opened Bits
  import opened BitOrder
  import opened BitWriting

  datatype Code = Code(code: seq<nat>, len: seq<nat>) {
    /** Symbol n has a code word. */
    predicate Has(n: nat) {
      n < |code| && n < |len| && 1 <= len[n] <= 15 && code[n] < Pow2(len[n])
    }

    /** The bits of the code word of symbol n, as they are sent. */
    function Word(n: nat): seq<bool> {
      if n < |code| && n < |len| then LowBits(code[n], len[n]) else []
    }
  }

  /** send_code */
  method SendCode(w: BitWriter, code: array<nat>, len: array<nat>, n: nat)
    requires w.Valid() && Code(code[..], len[..]).Has(n)
    modifies w
    ensures w.Valid() && w.Bits() == old(w.Bits()) + Code(code[..], len[..]).Word(n)
  {
    w.SendBits(code[n], len[n]);
  }
}
