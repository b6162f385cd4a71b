/**
 The frame check sequence of PPP (appendix C of RFC 1662), by a table of 256 words.  The table
 is what the polynomial makes of each octet, and a frame folds to the good value exactly if it
 ends with the check sequence of what comes before.
 */
module FrameCheck {

  type Octet = v: bv16 | v < 0x100

  const INIT_FCS: bv16 := 0xffff
  const GOOD_FCS: bv16 := 0xf0b8

  // ----- ppp_crc16_table, 16 words a row

  function Row0(): (t: seq<bv16>)
    ensures |t| == 16
  {
    [0x0000, 0x1189, 0x2312, 0x329b, 0x4624, 0x57ad, 0x6536, 0x74bf,
     0x8c48, 0x9dc1, 0xaf5a, 0xbed3, 0xca6c, 0xdbe5, 0xe97e, 0xf8f7]
  }

  function Row1(): (t: seq<bv16>)
    ensures |t| == 16
  {
    [0x1081, 0x0108, 0x3393, 0x221a, 0x56a5, 0x472c, 0x75b7, 0x643e,
     0x9cc9, 0x8d40, 0xbfdb, 0xae52, 0xdaed, 0xcb64, 0xf9ff, 0xe876]
  }

  function Row2(): (t: seq<bv16>)
    ensures |t| == 16
  {
    [0x2102, 0x308b, 0x0210, 0x1399, 0x6726, 0x76af, 0x4434, 0x55bd,
     0xad4a, 0xbcc3, 0x8e58, 0x9fd1, 0xeb6e, 0xfae7, 0xc87c, 0xd9f5]
  }

  function Row3(): (t: seq<bv16>)
    ensures |t| == 16
  {
    [0x3183, 0x200a, 0x1291, 0x0318, 0x77a7, 0x662e, 0x54b5, 0x453c,
     0xbdcb, 0xac42, 0x9ed9, 0x8f50, 0xfbef, 0xea66, 0xd8fd, 0xc974]
  }

  function Row4(): (t: seq<bv16>)
    ensures |t| == 16
  {
    [0x4204, 0x538d, 0x6116, 0x709f, 0x0420, 0x15a9, 0x2732, 0x36bb,
     0xce4c, 0xdfc5, 0xed5e, 0xfcd7, 0x8868, 0x99e1, 0xab7a, 0xbaf3]
  }

  function Row5(): (t: seq<bv16>)
    ensures |t| == 16
  {
    [0x5285, 0x430c, 0x7197, 0x601e, 0x14a1, 0x0528, 0x37b3, 0x263a,
     0xdecd, 0xcf44, 0xfddf, 0xec56, 0x98e9, 0x8960, 0xbbfb, 0xaa72]
  }

  function Row6(): (t: seq<bv16>)
    ensures |t| == 16
  {
    [0x6306, 0x728f, 0x4014, 0x519d, 0x2522, 0x34ab, 0x0630, 0x17b9,
     0xef4e, 0xfec7, 0xcc5c, 0xddd5, 0xa96a, 0xb8e3, 0x8a78, 0x9bf1]
  }

  function Row7(): (t: seq<bv16>)
    ensures |t| == 16
  {
    [0x7387, 0x620e, 0x5095, 0x411c, 0x35a3, 0x242a, 0x16b1, 0x0738,
     0xffcf, 0xee46, 0xdcdd, 0xcd54, 0xb9eb, 0xa862, 0x9af9, 0x8b70]
  }

  function Row8(): (t: seq<bv16>)
    ensures |t| == 16
  {
    [0x8408, 0x9581, 0xa71a, 0xb693, 0xc22c, 0xd3a5, 0xe13e, 0xf0b7,
     0x0840, 0x19c9, 0x2b52, 0x3adb, 0x4e64, 0x5fed, 0x6d76, 0x7cff]
  }

  function Row9(): (t: seq<bv16>)
    ensures |t| == 16
  {
    [0x9489, 0x8500, 0xb79b, 0xa612, 0xd2ad, 0xc324, 0xf1bf, 0xe036,
     0x18c1, 0x0948, 0x3bd3, 0x2a5a, 0x5ee5, 0x4f6c, 0x7df7, 0x6c7e]
  }

  function RowA(): (t: seq<bv16>)
    ensures |t| == 16
  {
    [0xa50a, 0xb483, 0x8618, 0x9791, 0xe32e, 0xf2a7, 0xc03c, 0xd1b5,
     0x2942, 0x38cb, 0x0a50, 0x1bd9, 0x6f66, 0x7eef, 0x4c74, 0x5dfd]
  }

  function RowB(): (t: seq<bv16>)
    ensures |t| == 16
  {
    [0xb58b, 0xa402, 0x9699, 0x8710, 0xf3af, 0xe226, 0xd0bd, 0xc134,
     0x39c3, 0x284a, 0x1ad1, 0x0b58, 0x7fe7, 0x6e6e, 0x5cf5, 0x4d7c]
  }

  function RowC(): (t: seq<bv16>)
    ensures |t| == 16
  {
    [0xc60c, 0xd785, 0xe51e, 0xf497, 0x8028, 0x91a1, 0xa33a, 0xb2b3,
     0x4a44, 0x5bcd, 0x6956, 0x78df, 0x0c60, 0x1de9, 0x2f72, 0x3efb]
  }

  function RowD(): (t: seq<bv16>)
    ensures |t| == 16
  {
    [0xd68d, 0xc704, 0xf59f, 0xe416, 0x90a9, 0x8120, 0xb3bb, 0xa232,
     0x5ac5, 0x4b4c, 0x79d7, 0x685e, 0x1ce1, 0x0d68, 0x3ff3, 0x2e7a]
  }

  function RowE(): (t: seq<bv16>)
    ensures |t| == 16
  {
    [0xe70e, 0xf687, 0xc41c, 0xd595, 0xa12a, 0xb0a3, 0x8238, 0x93b1,
     0x6b46, 0x7acf, 0x4854, 0x59dd, 0x2d62, 0x3ceb, 0x0e70, 0x1ff9]
  }

  function RowF(): (t: seq<bv16>)
    ensures |t| == 16
  {
    [0xf78f, 0xe606, 0xd49d, 0xc514, 0xb1ab, 0xa022, 0x92b9, 0x8330,
     0x7bc7, 0x6a4e, 0x58d5, 0x495c, 0x3de3, 0x2c6a, 0x1ef1, 0x0f78]
  }

  function Rows(): (t: seq<seq<bv16>>)
    ensures |t| == 16 && forall r :: 0 <= r < 16 ==> |t[r]| == 16
  {
    [Row0(), Row1(), Row2(), Row3(), Row4(), Row5(), Row6(), Row7(), Row8(), Row9(), RowA(), RowB(), RowC(), RowD(), RowE(), RowF()]
  }

  /** fcstab[i] */
  function Entry(i: bv16): bv16
    requires i < 0x100
  {
    Rows()[(i >> 4) as nat][(i & 0xf) as nat]
  }

  /** One bit through the shift register with polynomial x^16 + x^12 + x^5 + 1, low bit first. */
  function Shift(v: bv16): bv16 {
    if v & 1 == 1 then (v >> 1) ^ 0x8408 else v >> 1
  }

  /** An octet through the register. */
  function Crc(v: bv16): bv16 {
    Shift(Shift(Shift(Shift(Shift(Shift(Shift(Shift(v))))))))
  }

  /** Every word of the table is what the polynomial makes of its index. */
  lemma EntryIs(i: bv16)
    requires i < 0x100
    ensures Entry(i) == Crc(i)
  {
  }

  /** PPP_FCS */
  function Step(fcs: bv16, c: Octet): bv16 {
    (fcs >> 8) ^ Entry((fcs ^ c) & 0xff)
  }

  function Fold(fcs: bv16, data: seq<Octet>): bv16 {
    if data == [] then fcs else Step(Fold(fcs, data[..|data| - 1]), data[|data| - 1])
  }

  function Low(fcs: bv16): Octet
  {
    (fcs ^ 0xffff) & 0xff
  }

  function High(fcs: bv16): Octet
  {
    ((fcs ^ 0xffff) >> 8) & 0xff
  }

  /** The check sequence that is sent: complemented, low octet first. */
  function Check(fcs: bv16): seq<Octet> {
    [Low(fcs), High(fcs)]
  }

  lemma StepCrc(fcs: bv16, c: Octet)
    ensures Step(fcs, c) == (fcs >> 8) ^ Crc((fcs ^ c) & 0xff)
  {
    EntryIs((fcs ^ c) & 0xff);
  }

  /** Two octets lead from a value to the good one exactly if they are the value's check sequence. */
  lemma TwoSteps(fcs: bv16, a: Octet, b: Octet)
    ensures Step(Step(fcs, a), b) == GOOD_FCS <==> [a, b] == Check(fcs)
  {
    hide Step, Crc, Entry, Low, High;
    StepCrc(fcs, a);
    StepCrc(Step(fcs, a), b);
    TwoCrcs(fcs, a, b, Step(fcs, a), Step(Step(fcs, a), b));
  }

  lemma TwoCrcs(fcs: bv16, a: Octet, b: Octet, f: bv16, g: bv16)
    requires f == (fcs >> 8) ^ Crc((fcs ^ a) & 0xff) && g == (f >> 8) ^ Crc((f ^ b) & 0xff)
    ensures g == GOOD_FCS <==> a == Low(fcs) && b == High(fcs)
  {
  }

  /** A frame folds to the good value exactly if its last two octets are the check sequence of the rest. */
  lemma GoodExactly(data: seq<Octet>, a: Octet, b: Octet)
    ensures Fold(INIT_FCS, data + [a, b]) == GOOD_FCS <==> [a, b] == Check(Fold(INIT_FCS, data))
  {
    var all := data + [a, b];
    assert all[..|all| - 1] == data + [a] && (data + [a])[..|data|] == data;
    hide Step, Check, Crc;
    TwoSteps(Fold(INIT_FCS, data), a, b);
  }

  lemma FoldNext(fcs: bv16, data: seq<Octet>, c: Octet)
    ensures Fold(fcs, data + [c]) == Step(Fold(fcs, data), c)
  {
    assert (data + [c])[..|data|] == data;
  }

  lemma {:induction false} FoldFirst(fcs: bv16, c: Octet, data: seq<Octet>)
    ensures Fold(fcs, [c] + data) == Fold(Step(fcs, c), data)
    decreases |data|
  {
    hide Step;
    if data == [] {
      assert [c] + data == [] + [c];
      FoldNext(fcs, [], c);
    } else {
      var front, last := data[..|data| - 1], data[|data| - 1];
      FoldFirst(fcs, c, front);
      assert [c] + data == ([c] + front) + [last] && data == front + [last];
      FoldNext(fcs, [c] + front, last);
      FoldNext(Step(fcs, c), front, last);
    }
  }

  function Index(fcs: bv16, c: bv16): bv16 {
    (fcs ^ c) & 0xff
  }

  function Upper(v: bv16): bv16 {
    v >> 8
  }

  function Mix(a: bv16, b: bv16): bv16 {
    a ^ b
  }

  lemma StepMixes(fcs: bv16, c: Octet)
    ensures Step(fcs, c) == Mix(Upper(fcs), Crc(Index(fcs, c))) && Index(fcs, c) < 0x100 && Upper(fcs) < 0x100
  {
    hide Crc, Entry, Step;
    StepCrc(fcs, c);
  }

  /** The upper octets of the table tell its entries apart. */
  lemma UpperOctets(u: bv16, v: bv16)
    requires u < 0x100 && v < 0x100 && Upper(Crc(u)) == Upper(Crc(v))
    ensures u == v
  {
  }

  lemma MixParts(a: bv16, b: bv16, p: bv16, q: bv16)
    requires a < 0x100 && b < 0x100 && Mix(a, p) == Mix(b, q)
    ensures Upper(p) == Upper(q) && (p == q ==> a == b)
  {
  }

  lemma Together(f: bv16, g: bv16, c: bv16)
    requires Upper(f) == Upper(g) && Index(f, c) == Index(g, c)
    ensures f == g
  {
  }

  lemma IndexesDiffer(f: bv16, a: Octet, b: Octet)
    requires Index(f, a) == Index(f, b)
    ensures a == b
  {
  }

  /** An octet leads from different values to different values, and different octets do so from one. */
  lemma StepOneToOne(f: bv16, g: bv16, a: Octet, b: Octet)
    requires Step(f, a) == Step(g, b)
    ensures Index(f, a) == Index(g, b) && Upper(f) == Upper(g)
  {
    hide *;
    StepMixes(f, a);
    StepMixes(g, b);
    MixParts(Upper(f), Upper(g), Crc(Index(f, a)), Crc(Index(g, b)));
    UpperOctets(Index(f, a), Index(g, b));
  }

  lemma {:induction false} FoldOneToOne(f: bv16, g: bv16, data: seq<Octet>)
    requires f != g
    ensures Fold(f, data) != Fold(g, data)
    decreases |data|
  {
    hide Step, Index, Upper;
    if data != [] {
      var x, y, c := Fold(f, data[..|data| - 1]), Fold(g, data[..|data| - 1]), data[|data| - 1];
      FoldOneToOne(f, g, data[..|data| - 1]);
      if Step(x, c) == Step(y, c) {
        StepOneToOne(x, y, c, c);
        Together(x, y, c);
        assert false;
      }
    }
  }

  /** Octets lost or added in front are noticed, zeros too: that is what the initial value is for. */
  lemma LeadingZero(data: seq<Octet>)
    ensures Fold(INIT_FCS, [0] + data) != Fold(INIT_FCS, data)
  {
    FoldFirst(INIT_FCS, 0, data);
    StepCrc(INIT_FCS, 0);
    assert Step(INIT_FCS, 0) == 0x0f87;
    hide Step, Fold;
    FoldOneToOne(0x0f87, INIT_FCS, data);
  }

  /** So is every change of one octet. */
  lemma OneOctet(before: seq<Octet>, a: Octet, b: Octet, behind: seq<Octet>)
    requires a != b
    ensures Fold(INIT_FCS, before + ([a] + behind)) != Fold(INIT_FCS, before + ([b] + behind))
  {
    hide Step, Fold;
    var f := Fold(INIT_FCS, before);
    FoldJoin(INIT_FCS, before, [a] + behind);
    FoldJoin(INIT_FCS, before, [b] + behind);
    FoldFirst(f, a, behind);
    FoldFirst(f, b, behind);
    OctetsDiffer(f, a, b);
    FoldOneToOne(Step(f, a), Step(f, b), behind);
  }

  lemma {:induction false} FoldJoin(fcs: bv16, x: seq<Octet>, y: seq<Octet>)
    ensures Fold(fcs, x + y) == Fold(Fold(fcs, x), y)
    decreases |x|
  {
    if x == [] {
      assert x + y == y && Fold(fcs, x) == fcs;
    } else {
      hide Step, Fold;
      var t := x[1..];
      assert x == [x[0]] + t && x + y == [x[0]] + (t + y);
      FoldFirst(fcs, x[0], t);
      FoldFirst(fcs, x[0], t + y);
      FoldJoin(Step(fcs, x[0]), t, y);
    }
  }

  lemma OctetsDiffer(f: bv16, a: Octet, b: Octet)
    requires a != b
    ensures Step(f, a) != Step(f, b)
  {
    hide *;
    if Step(f, a) == Step(f, b) {
      StepOneToOne(f, f, a, b);
      IndexesDiffer(f, a, b);
      assert false;
    }
  }

  lemma StepIs(data: seq<Octet>, fcs: bv16, c: Octet, next: bv16)
    requires Fold(INIT_FCS, data) == fcs && (fcs >> 8) ^ Crc((fcs ^ c) & 0xff) == next
    ensures Fold(INIT_FCS, data + [c]) == next
  {
    hide Step, Fold, Crc;
    StepCrc(fcs, c);
    FoldNext(INIT_FCS, data, c);
  }

  lemma FourSteps()
    ensures (0xffff >> 8) ^ Crc((0xffff ^ 0x31) & 0xff) == 0x2f8d && (0x2f8d >> 8) ^ Crc((0x2f8d ^ 0x32) & 0xff) == 0x4d53
    ensures (0x4d53 >> 8) ^ Crc((0x4d53 ^ 0x33) & 0xff) == 0x634b && (0x634b >> 8) ^ Crc((0x634b ^ 0x34) & 0xff) == 0x8b13
  {
  }

  lemma NothingFolded()
    ensures Fold(INIT_FCS, []) == 0xffff && Check(0x8b13) == [0xec, 0x74]
  {
  }

  /** The check sequence of the digits 1 to 4. */
  lemma Digits()
    ensures Check(Fold(INIT_FCS, [0x31, 0x32, 0x33, 0x34])) == [0xec, 0x74]
  {
    hide *;
    FourSteps();
    NothingFolded();
    var d0: seq<Octet>, d1: seq<Octet>, d2: seq<Octet>, d3: seq<Octet> := [], [0x31], [0x31, 0x32], [0x31, 0x32, 0x33];
    var d4: seq<Octet> := [0x31, 0x32, 0x33, 0x34];
    StepIs(d0, 0xffff, 0x31, 0x2f8d);
    assert d0 + [0x31] == d1 && d1 + [0x32] == d2 && d2 + [0x33] == d3 && d3 + [0x34] == d4;
    StepIs(d1, 0x2f8d, 0x32, 0x4d53);
    StepIs(d2, 0x4d53, 0x33, 0x634b);
    StepIs(d3, 0x634b, 0x34, 0x8b13);
  }
}
