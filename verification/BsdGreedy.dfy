/**
 What BSD Compress makes of a packet: every code sent stands for the longest string of the
 dictionary that the data go on with, and the packet is returned exactly if that saves room.
 */
module BsdGreedy {
  import opened Arith
  import opened Bits
  import opened Options
  import opened BsdCoder
  import opened BsdLockstep

  /** The dictionary has every beginning of its strings. */
  lemma {:induction false} Ancestor(entries: seq<Entry>, x: nat, n: nat) returns (z: nat)
    requires Grounded(entries) && IsCode(x, |entries|) && 1 <= n <= |Expand(entries, x)|
    ensures IsCode(z, |entries|) && Expand(entries, z) == Expand(entries, x)[..n]
    decreases x
  {
    if n == |Expand(entries, x)| {
      z := x;
    } else {
      var e := entries[x - FIRST];
      z := Ancestor(entries, e.prefix, n);
      assert Expand(entries, x)[..n] == Expand(entries, e.prefix)[..n];
    }
  }

  /** And each string once. */
  lemma {:induction false} OneCode(entries: seq<Entry>, x: nat, y: nat)
    requires Grounded(entries) && Distinct(entries) && IsCode(x, |entries|) && IsCode(y, |entries|)
    requires Expand(entries, x) == Expand(entries, y)
    ensures x == y
    decreases x
  {
    if x > LAST && y > LAST {
      var a, b := entries[x - FIRST], entries[y - FIRST];
      var s, t := Expand(entries, a.prefix), Expand(entries, b.prefix);
      assert s + [a.suffix] == t + [b.suffix];
      assert s == (s + [a.suffix])[..|s|] && t == (t + [b.suffix])[..|t|];
      assert (s + [a.suffix])[|s|] == (t + [b.suffix])[|t|];
      OneCode(entries, a.prefix, b.prefix);
    }
  }

  /** If no code stands for (c, b), no string goes on from that of c with b. */
  lemma NoneLonger(entries: seq<Entry>, c: nat, data: seq<byte>, x: nat)
    requires Grounded(entries) && Distinct(entries) && IsCode(c, |entries|) && IsCode(x, |entries|)
    requires data == [] || Entry(c, data[0]) !in entries
    requires Expand(entries, x) <= Expand(entries, c) + data
    ensures |Expand(entries, x)| <= |Expand(entries, c)|
  {
    hide Expand;
    var s := Expand(entries, c);
    if |Expand(entries, x)| > |s| {
      var z := Ancestor(entries, x, |s| + 1);
      assert Expand(entries, z) == s + [data[0]];
      LastByte(entries, z, s, data[0]);
      var e := entries[z - FIRST];
      OneCode(entries, e.prefix, c);
      assert false;
    }
  }

  lemma LastByte(entries: seq<Entry>, z: nat, s: seq<byte>, b: byte)
    requires Grounded(entries) && IsCode(z, |entries|) && Expand(entries, z) == s + [b] && s != []
    ensures FIRST <= z < FIRST + |entries| && entries[z - FIRST].suffix == b && IsCode(entries[z - FIRST].prefix, |entries|)
    ensures Expand(entries, entries[z - FIRST].prefix) == s
  {
    var e := entries[z - FIRST];
    var t := Expand(entries, e.prefix);
    assert t == (t + [e.suffix])[..|t|] && s == (s + [b])[..|s|];
    assert (t + [e.suffix])[|t|] == (s + [b])[|s|];
  }

  /** No string of the dictionary is a longer beginning of w. */
  ghost predicate NoLonger(entries: seq<Entry>, w: seq<byte>, n: nat)
    requires Grounded(entries)
  {
    forall x :: IsCode(x, |entries|) && Expand(entries, x) <= w ==> |Expand(entries, x)| <= n
  }

  lemma PhraseEnds(entries: seq<Entry>, c: nat, data: seq<byte>)
    requires Grounded(entries) && Distinct(entries) && IsCode(c, |entries|)
    requires data == [] || Entry(c, data[0]) !in entries
    ensures NoLonger(entries, Expand(entries, c) + data, |Expand(entries, c)|)
  {
    hide Expand;
    forall x | IsCode(x, |entries|) && Expand(entries, x) <= Expand(entries, c) + data
      ensures |Expand(entries, x)| <= |Expand(entries, c)|
    {
      NoneLonger(entries, c, data, x);
    }
  }

  /** The coder stands at code ent.  The code c that it sends next stands for the phrase in progress with the first k bytes of
      the data, and no code in use stands for a longer beginning; it goes on at the next byte, with the dictionary grown by that
      phrase and that byte. */
  lemma {:induction false} LongestPhrase(d: Dict, ent: nat, data: seq<byte>) returns (c: nat, k: nat)
    requires d.Valid() && Distinct(d.entries) && IsCode(ent, |d.entries|)
    ensures k <= |data| && IsCode(c, |d.entries|) && Expand(d.entries, c) == Expand(d.entries, ent) + data[..k]
    ensures NoLonger(d.entries, Expand(d.entries, ent) + data, |Expand(d.entries, c)|)
    ensures Encode(d, ent, data).toks
         == [Tok(c, d.nBits)] + if k == |data| then [] else Encode(d.Grow(c, data[k]), data[k], data[k + 1..]).toks
    decreases |data|
  {
    hide Dict.Grow, NoLonger, Pow2, Distinct, Grounded;
    var s := Expand(d.entries, ent);
    if data != [] && Find(d.entries, ent, data[0]).Some? {
      var v := Find(d.entries, ent, data[0]).value;
      var next := data[1..];
      FoundLonger(d.entries, ent, data[0], v);
      c, k := LongestPhrase(d, v, next);
      Shifted(s, data, k);
      k := k + 1;
    } else {
      c, k := ent, 0;
      PhraseEnds(d.entries, ent, data);
      assert s + data[..0] == s && (data != [] ==> data[0 + 1..] == data[1..]);
    }
  }

  lemma FoundLonger(entries: seq<Entry>, ent: nat, b: byte, v: nat)
    requires Grounded(entries) && IsCode(ent, |entries|) && Find(entries, ent, b) == Some(v)
    ensures IsCode(v, |entries|) && Expand(entries, v) == Expand(entries, ent) + [b]
  {
    hide Find;
  }

  lemma Shifted(s: seq<byte>, data: seq<byte>, k: nat)
    requires k < |data|
    ensures (s + [data[0]]) + data[1..] == s + data && (s + [data[0]]) + data[1..][..k] == s + data[..k + 1]
    ensures k + 1 < |data| ==> data[1..][k] == data[k + 1] && data[1..][k + 1..] == data[k + 2..]
  {
  }

  /** bsd_compress returns a packet exactly if its protocol is one of those compressed and the codes, with header and sequence
      number, take no more room than either limit allows. */
  lemma ReturnedExactly(db: Db, pkt: seq<byte>, slen: int, maxolen: int)
    ensures var r := Compress(db, pkt, slen, maxolen);
            var seen := |pkt| >= 4 && 0x21 <= 256 * (pkt[2] as int) + pkt[3] <= 0xf9;
            && (r.msg.Some? <==> seen && 6 + (|OutBits(SentToks(db, pkt).0)| + 7) / 8 <= slen && r.size <= maxolen)
            && (seen ==> r.size == 6 + (|OutBits(SentToks(db, pkt).0)| + 7) / 8)
            && (!seen ==> r.size == 0 && r.db == db)
            && (r.msg.Some? ==> |r.msg.value| == r.size
                                && r.msg.value[..6] == [pkt[0], pkt[1], 0, 0xfd, db.seqno / 256 % 256, db.seqno % 256])
  {
    hide SentToks, OutBits, Pack;
    if Eligible(pkt) {
      var head, body := Header(pkt, db.seqno), Pack(OutBits(SentToks(db, pkt).0));
      assert (head + body)[..6] == head;
    }
  }
}
