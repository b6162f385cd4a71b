/**
 Hidden attribute-value pairs (section 4.3 of RFC 2661): the value, its length and some padding
 are xor-ed in segments of 16 with digests, each of which depends on the segment before.  Both
 ends rewrite the pair in place, the header overlapping its old self by two bytes.
 */
module HiddenAvp {
  import opened Bits
  import opened Options

  const SIG: nat := 16
  const HEADER: nat := 6

  /** The digest, of any hash function with 16-byte results, and what both ends know. */
  datatype Keys = Keys(hash: seq<byte> -> seq<byte>, secret: seq<byte>, vector: seq<byte>) {
    ghost predicate Valid() {
      forall x :: |hash(x)| == SIG
    }
  }

  // ----- the cipher

  /** The digest for segment i: of the attribute number and the vector, then of the segment before. */
  function DigestAt(k: Keys, attr: seq<byte>, c: seq<byte>, i: nat): seq<byte>
    requires i > 0 ==> SIG * i <= |c|
  {
    if i == 0 then k.hash(attr + k.secret + k.vector) else k.hash(k.secret + c[SIG * (i - 1)..SIG * i])
  }

  lemma DigestSize(k: Keys, attr: seq<byte>, c: seq<byte>, i: nat)
    requires k.Valid() && (i > 0 ==> SIG * i <= |c|)
    ensures |DigestAt(k, attr, c, i)| == SIG
  {
  }

  /** The byte that is xor-ed in at j. */
  function Mask(k: Keys, attr: seq<byte>, c: seq<byte>, j: nat): byte
    requires k.Valid() && j <= |c|
  {
    DigestAt(k, attr, c, j / SIG)[j % SIG]
  }

  function XorByte(a: byte, b: byte): byte {
    XorFits(a, b);
    Xor(a, b)
  }

  lemma XorFits(a: byte, b: byte)
    ensures Xor(a, b) < 256
  {
    Pow2Values();
    XorBelow(a, b, 8);
  }

  /** c hides p. */
  ghost predicate Hides(k: Keys, attr: seq<byte>, p: seq<byte>, c: seq<byte>)
    requires k.Valid()
  {
    |p| == |c| && forall j :: 0 <= j < |c| ==> c[j] == XorByte(p[j], Mask(k, attr, c, j))
  }

  /** What is hidden in c. */
  function Revealed(k: Keys, attr: seq<byte>, c: seq<byte>): (p: seq<byte>)
    requires k.Valid()
    ensures |p| == |c|
  {
    seq(|c|, j requires 0 <= j < |c| => XorByte(c[j], Mask(k, attr, c, j)))
  }

  lemma RevealHidden(k: Keys, attr: seq<byte>, p: seq<byte>, c: seq<byte>)
    requires k.Valid() && Hides(k, attr, p, c)
    ensures Revealed(k, attr, c) == p
  {
    forall j | 0 <= j < |c|
      ensures XorByte(c[j], Mask(k, attr, c, j)) == p[j]
    {
      XorTwice(p[j], Mask(k, attr, c, j));
    }
  }

  /** Nothing else hides p. */
  lemma {:induction false} HiddenOnce(k: Keys, attr: seq<byte>, p: seq<byte>, c: seq<byte>, c': seq<byte>, n: nat)
    requires k.Valid() && Hides(k, attr, p, c) && Hides(k, attr, p, c') && n <= |p|
    ensures c[..n] == c'[..n]
  {
    if n > 0 {
      HiddenOnce(k, attr, p, c, c', n - 1);
      var i := (n - 1) / SIG;
      if i > 0 {
        assert c[SIG * (i - 1)..SIG * i] == c[..n - 1][SIG * (i - 1)..SIG * i];
        assert c'[SIG * (i - 1)..SIG * i] == c'[..n - 1][SIG * (i - 1)..SIG * i];
      }
      assert Mask(k, attr, c, n - 1) == Mask(k, attr, c', n - 1);
      assert c[..n] == c[..n - 1] + [c[n - 1]] && c'[..n] == c'[..n - 1] + [c'[n - 1]];
    }
  }

  // ----- 16-bit fields in memory

  /** A field as the machine keeps it: high byte first or last. */
  function Field(v: nat, big: bool): (b: seq<byte>)
    requires v < 0x10000
    ensures |b| == 2
  {
    if big then [v / 256, v % 256] else [v % 256, v / 256]
  }

  /** htons and ntohs. */
  function Htons(v: nat, big: bool): (r: nat)
    requires v < 0x10000
    ensures r < 0x10000 && Field(r, big) == Field(v, true)
  {
    if big then v else (v % 256) * 256 + v / 256
  }

  method Get(a: array<byte>, i: nat, big: bool) returns (v: nat)
    requires i + 2 <= a.Length
    ensures v < 0x10000 && Field(v, big) == a[i..i + 2]
  {
    var x: nat, y: nat := a[i], a[i + 1];
    v := if big then 256 * x + y else x + 256 * y;
  }

  method Put(a: array<byte>, i: nat, v: nat, big: bool)
    requires i + 2 <= a.Length && v < 0x10000
    modifies a
    ensures a[..] == old(a[..i]) + Field(v, big) + old(a[i + 2..])
  {
    a[i], a[i + 1] := Field(v, big)[0], Field(v, big)[1];
  }

  lemma FieldOnce(v: nat, w: nat, big: bool)
    requires v < 0x10000 && w < 0x10000 && Field(v, big) == Field(w, big)
    ensures v == w
  {
    assert Field(v, big)[0] == Field(w, big)[0] && Field(v, big)[1] == Field(w, big)[1];
  }

  // ----- the pairs

  /** Flags are the four high bits of the length field: mandatory 8, hidden 4 and two reserved. */
  datatype Avp = Avp(flags: nat, vendor: nat, attr: nat, value: seq<byte>) {
    predicate Valid() {
      flags < 16 && vendor < 0x10000 && attr < 0x10000 && HEADER + |value| < 0x1000
    }

    /** In memory, with the header in the order given: `true` on the wire. */
    function Bytes(big: bool): (b: seq<byte>)
      requires Valid()
      ensures |b| == HEADER + |value|
    {
      Field(flags * 0x1000 + HEADER + |value|, big) + Field(vendor, big) + Field(attr, big) + value
    }
  }

  function SetHidden(flags: nat): nat {
    if (flags / 4) % 2 == 1 then flags else flags + 4
  }

  function ClearHidden(flags: nat): nat {
    if (flags / 4) % 2 == 1 then flags - 4 else flags
  }

  /** The length of the hidden pair for a value of n bytes. */
  function HiddenLength(n: nat): (l: nat)
    ensures (l - HEADER) % SIG == 0 && l - HEADER >= n + 2
  {
    ((n + 1) / 16 + 1) * 16 + HEADER
  }

  /** The hidden flag, or-ed to the flags and the length: a length beyond twelve bits runs into the lowest flag. */
  function LengthField(flags: nat, total: nat): (f: nat)
    requires flags < 16 && total < 0x2000
    ensures f < 0x10000
  {
    SetHidden(if total >= 0x1000 && flags % 2 == 0 then flags + 1 else flags) * 0x1000 + total % 0x1000
  }

  /** What encrypt_avp leaves in memory. */
  function HiddenBytes(avp: Avp, cipher: seq<byte>): (b: seq<byte>)
    requires avp.Valid() && HEADER + |cipher| < 0x2000
    ensures |b| == HEADER + |cipher|
  {
    Field(LengthField(avp.flags, HEADER + |cipher|), true) + Field(avp.vendor, true) + Field(avp.attr, true) + cipher
  }

  /** The pair that the reader finds there, going by its length field. */
  function Seen(avp: Avp, cipher: seq<byte>): (hidden: Avp)
    requires avp.Valid() && HEADER + |cipher| < 0x2000 && (HEADER + |cipher|) % 0x1000 >= HEADER
    ensures hidden.Valid() && |hidden.value| == (HEADER + |cipher|) % 0x1000 - HEADER
  {
    Avp(LengthField(avp.flags, HEADER + |cipher|) / 0x1000, avp.vendor, avp.attr, cipher[..(HEADER + |cipher|) % 0x1000 - HEADER])
  }

  lemma SeenBytes(avp: Avp, cipher: seq<byte>)
    requires avp.Valid() && HEADER + |cipher| < 0x2000 && (HEADER + |cipher|) % 0x1000 >= HEADER
    ensures Seen(avp, cipher).Bytes(true) <= HiddenBytes(avp, cipher)
  {
    hide Field, SetHidden;
  }

  /** The pair with its value hidden: c hides the value's length, the value and padding. */
  ghost predicate HiddenOf(k: Keys, avp: Avp, pad: seq<byte>, hidden: Avp)
    requires k.Valid() && avp.Valid()
  {
    && hidden == Avp(SetHidden(avp.flags), avp.vendor, avp.attr, hidden.value)
    && HEADER + |hidden.value| == HiddenLength(|avp.value|)
    && Hides(k, Field(avp.attr, true), Field(|avp.value|, true) + avp.value + pad, hidden.value)
  }

  /** One xor-ed segment. */
  method XorSegment(a: array<byte>, at: nat, digest: seq<byte>)
    requires at + SIG <= a.Length && |digest| == SIG
    modifies a
    ensures forall j :: 0 <= j < a.Length ==> a[j] == if at <= j < at + SIG then XorByte(old(a[j]), digest[j - at]) else old(a[j])
  {
    var cnt: nat := 0;
    while cnt < SIG
      invariant cnt <= SIG
      invariant forall j :: 0 <= j < a.Length ==> a[j] == if at <= j < at + cnt then XorByte(old(a[j]), digest[j - at]) else old(a[j])
    {
      a[at + cnt] := XorByte(a[at + cnt], digest[cnt]);
      cnt := cnt + 1;
    }
  }

  /** The bytes from start to ptr are hidden, the rest is as it was. */
  ghost predicate HiddenTo(k: Keys, attr: seq<byte>, was: seq<byte>, now: seq<byte>, start: nat, ptr: nat)
    requires k.Valid()
  {
    && start <= ptr <= |was| == |now| && (ptr - start) % SIG == 0
    && now[..start] == was[..start] && now[ptr..] == was[ptr..] && Hides(k, attr, was[start..ptr], now[start..ptr])
  }

  lemma HiddenNext(k: Keys, attr: seq<byte>, was: seq<byte>, now: seq<byte>, next: seq<byte>, start: nat, ptr: nat, digest: seq<byte>)
    requires k.Valid() && HiddenTo(k, attr, was, now, start, ptr) && ptr + SIG <= |was| == |next|
    requires digest == DigestAt(k, attr, now[start..ptr], (ptr - start) / SIG)
    requires forall j :: 0 <= j < |now| ==> next[j] == if ptr <= j < ptr + SIG then XorByte(now[j], digest[j - ptr]) else now[j]
    ensures HiddenTo(k, attr, was, next, start, ptr + SIG)
    ensures k.hash(k.secret + next[ptr..ptr + SIG]) == DigestAt(k, attr, next[start..ptr + SIG], (ptr + SIG - start) / SIG)
  {
    hide Hides, XorByte;
    var p, c, c' := was[start..ptr + SIG], now[start..ptr], next[start..ptr + SIG];
    DigestSize(k, attr, c, (ptr - start) / SIG);
    assert p[..ptr - start] == was[start..ptr] && p[..|c'|] == p;
    forall j | |c| <= j < |c'|
      ensures c'[j] == XorByte(p[j], digest[j - |c|])
    {
      assert now[ptr..][j - |c|] == was[ptr..][j - |c|];
    }
    NextSegment(k, attr, p, c, c', digest);
    assert c'[ptr - start..ptr + SIG - start] == next[ptr..ptr + SIG];
    assert next[ptr + SIG..] == now[ptr..][SIG..];
  }

  /** One segment of the encrypting loop. */
  method EncryptSegment(k: Keys, attr: seq<byte>, a: array<byte>, ptr: nat, digest: seq<byte>, ghost was: seq<byte>, ghost start: nat)
    requires k.Valid() && start <= ptr && ptr + SIG <= a.Length == |was| && HiddenTo(k, attr, was, a[..], start, ptr)
    requires digest == DigestAt(k, attr, a[start..ptr], (ptr - start) / SIG)
    modifies a
    ensures HiddenTo(k, attr, was, a[..], start, ptr + SIG)
    ensures k.hash(k.secret + a[ptr..ptr + SIG]) == DigestAt(k, attr, a[start..ptr + SIG], (ptr + SIG - start) / SIG)
  {
    hide DigestAt, XorByte, Hides;
    ghost var now := a[..];
    assert now[start..ptr] == a[start..ptr];
    DigestSize(k, attr, a[start..ptr], (ptr - start) / SIG);
    XorSegment(a, ptr, digest);
    HiddenNext(k, attr, was, now, a[..], start, ptr, digest);
    assert a[ptr..ptr + SIG] == a[..][ptr..ptr + SIG] && a[start..ptr + SIG] == a[..][start..ptr + SIG];
  }

  /** The encrypting loop of encrypt_avp. */
  method EncryptSegments(k: Keys, attr: seq<byte>, a: array<byte>, start: nat, end: nat)
    requires k.Valid() && start <= end <= a.Length && (end - start) % SIG == 0
    modifies a
    ensures HiddenTo(k, attr, old(a[..]), a[..], start, end)
  {
    var digest := k.hash(attr + k.secret + k.vector);
    var ptr, previous := start, start;
    ghost var was := a[..];
    NothingHidden(k, attr, was, start);
    hide HiddenTo, DigestAt, XorByte;
    while ptr < end
      invariant start <= ptr <= end && (ptr - start) % SIG == 0 && previous == ptr
      invariant HiddenTo(k, attr, was, a[..], start, ptr)
      invariant ptr < end ==> digest == DigestAt(k, attr, a[start..ptr], (ptr - start) / SIG)
    {
      EncryptSegment(k, attr, a, ptr, digest, was, start);
      ptr := ptr + SIG;
      if ptr < end {
        digest := k.hash(k.secret + a[previous..previous + SIG]);
      }
      previous := ptr;
    }
  }

  lemma NothingHidden(k: Keys, attr: seq<byte>, was: seq<byte>, start: nat)
    requires k.Valid() && start <= |was|
    ensures HiddenTo(k, attr, was, was, start, start)
    ensures k.hash(attr + k.secret + k.vector) == DigestAt(k, attr, was[start..start], 0)
  {
  }

  lemma SegmentKept(c: seq<byte>, c': seq<byte>, i: nat, j: nat)
    requires |c| % SIG == 0 && |c'| == |c| + SIG && c'[..|c|] == c && j < |c'| && i == j / SIG > 0
    ensures SIG * i <= |c| && c'[SIG * (i - 1)..SIG * i] == c[SIG * (i - 1)..SIG * i]
  {
    SliceOfSlice(c', 0, |c|, SIG * (i - 1), SIG * i);
  }

  lemma NextSegment(k: Keys, attr: seq<byte>, p: seq<byte>, c: seq<byte>, c': seq<byte>, digest: seq<byte>)
    requires k.Valid() && |c| % SIG == 0 && |c'| == |c| + SIG <= |p| && c'[..|c|] == c && Hides(k, attr, p[..|c|], c)
    requires digest == DigestAt(k, attr, c, |c| / SIG)
    requires forall j :: |c| <= j < |c'| ==> c'[j] == XorByte(p[j], digest[j - |c|])
    ensures Hides(k, attr, p[..|c'|], c')
  {
    forall j | 0 <= j < |c'|
      ensures c'[j] == XorByte(p[j], Mask(k, attr, c', j))
    {
      var i := j / SIG;
      if i > 0 {
        SegmentKept(c, c', i, j);
      }
      if j < |c| {
        assert c[j] == XorByte(p[..|c|][j], Mask(k, attr, c, j));
      } else {
        assert i == |c| / SIG && j % SIG == j - |c|;
      }
    }
  }

  // ----- headers

  lemma NetOrder(v: nat, x: nat, big: bool)
    requires v < 0x10000 && x < 0x10000 && Field(v, big) == Field(x, true)
    ensures Htons(v, big) == x
  {
    FieldOnce(Htons(v, big), if big then v else x, big);
    assert Field(v, big)[0] == Field(x, true)[0] && Field(v, big)[1] == Field(x, true)[1];
  }

  /** A length field with its four flags. */
  lemma FlagParts(flags: nat, len: nat)
    requires flags < 16 && len < 0x1000
    ensures flags * 0x1000 + len < 0x10000
    ensures (flags * 0x1000 + len) / 0x1000 == flags && (flags * 0x1000 + len) % 0x1000 == len
  {
  }

  /** The new header over the two spare bytes and the old one; the old attribute field becomes the length of the value. */
  method HideHeader(a: array<byte>, at: nat, len: nat, total: nat, big: bool, ghost flags: nat)
    requires at + 8 <= a.Length && HEADER <= len < 0x1000 && total < 0x2000 && flags < 16
    requires a[at + 2..at + 4] == Field(flags * 0x1000 + len, true)
    modifies a
    ensures a[..] == old(a[..at]) + Field(LengthField(flags, total), true) + old(a[at + 4..at + 8])
                     + Field(len - HEADER, true) + old(a[at + 8..])
  {
    hide Field, LengthField, Htons;
    ghost var w0 := a[..];
    var oldLength := Get(a, at + 2, big);
    FlagParts(flags, len);
    NetOrder(oldLength, flags * 0x1000 + len, big);
    var f := Htons(oldLength, big) / 0x1000;
    Put(a, at, Htons(LengthField(f, total), big), big);
    ghost var w1 := a[..];
    var vendor := Get(a, at + 4, big);
    Put(a, at + 2, vendor, big);
    ghost var w2 := a[..];
    var attr := Get(a, at + 6, big);
    Put(a, at + 4, attr, big);
    ghost var w3 := a[..];
    Put(a, at + 6, Htons(len - HEADER, big), big);
    Rewritten(w0, w1, w2, w3, a[..], at, Field(LengthField(flags, total), true), Field(len - HEADER, true));
  }

  lemma Rewritten(w0: seq<byte>, w1: seq<byte>, w2: seq<byte>, w3: seq<byte>, w4: seq<byte>, at: nat, x: seq<byte>, y: seq<byte>)
    requires at + 8 <= |w0| && |x| == |y| == 2 && w1 == w0[..at] + x + w0[at + 2..]
    requires w2 == w1[..at + 2] + w1[at + 4..at + 6] + w1[at + 4..] && w3 == w2[..at + 4] + w2[at + 6..at + 8] + w2[at + 6..]
    requires w4 == w3[..at + 6] + y + w3[at + 8..]
    ensures w4 == w0[..at] + x + w0[at + 4..at + 8] + y + w0[at + 8..]
  {
    assert |w1| == |w2| == |w3| == |w4| == |w0|;
    forall j | 0 <= j < |w0|
      ensures w1[j] == if at <= j < at + 2 then x[j - at] else w0[j]
    {
    }
    forall j | 0 <= j < |w0|
      ensures w3[j] == if at + 2 <= j < at + 6 then w0[j + 2] else w1[j]
    {
      assert w2[j] == if at + 2 <= j < at + 4 then w1[j + 2] else w1[j];
      assert w3[j] == if at + 4 <= j < at + 6 then w2[j + 2] else w2[j];
    }
  }

  /** encrypt_avp: the pair lies two bytes behind where the hidden one begins. */
  method EncryptAvp(k: Keys, a: array<byte>, at: nat, len: nat, big: bool, ghost avp: Avp) returns (total: nat, ghost cipher: seq<byte>)
    requires k.Valid() && avp.Valid() && len == HEADER + |avp.value|
    requires at + HiddenLength(|avp.value|) <= a.Length && a[at + 2..at + 2 + len] == avp.Bytes(true)
    modifies a
    ensures total == HiddenLength(|avp.value|) == HEADER + |cipher| < 0x2000
    ensures Hides(k, Field(avp.attr, true), Field(|avp.value|, true) + avp.value + old(a[at + 2 + len..at + total]), cipher)
    ensures a[..] == old(a[..at]) + HiddenBytes(avp, cipher) + old(a[at + total..])
  {
    hide Field, HiddenTo, LengthField, Hides, Avp.Bytes;
    total := ((len - HEADER + 1) / 16 + 1) * 16 + HEADER;
    ghost var was := a[..];
    HeaderParts(avp, was[at + 2..at + 2 + len]);
    assert a[at + 2..at + 4] == was[at + 2..at + 2 + len][..2];
    HideHeader(a, at, len, total, big, avp.flags);
    var attr := a[at + 4..at + 6];
    ghost var mid := a[..];
    ghost var p := Field(|avp.value|, true) + avp.value + was[at + 2 + len..at + total];
    HeaderHidden(avp, was, mid, at, total);
    EncryptSegments(k, attr, a, at + HEADER, at + total);
    cipher := a[at + HEADER..at + total];
    SegmentsHidden(k, attr, mid, a[..], at, total, p);
    Assembled(was, mid, a[..], at, total, avp, cipher);
  }

  lemma HiddenHeader(avp: Avp, c: seq<byte>)
    requires avp.Valid() && HEADER + |c| < 0x1000
    ensures HiddenBytes(avp, c)[..6]
         == [16 * (if avp.flags / 4 % 2 == 1 then avp.flags else avp.flags + 4) + (6 + |c|) / 256, (6 + |c|) % 256,
             avp.vendor / 256, avp.vendor % 256, avp.attr / 256, avp.attr % 256]
  {
  }

  /** What is sent, byte by byte: flags with the hidden bit and twelve bits of length, vendor and attribute, high bytes first;
      then the first 16 bytes under the digest of attribute, secret and vector, all others under that of the secret and the 16
      bytes sent before. */
  lemma OnTheWire(k: Keys, avp: Avp, p: seq<byte>, c: seq<byte>, j: nat)
    requires k.Valid() && avp.Valid() && HEADER + |c| < 0x1000 && j < |c| && Hides(k, [avp.attr / 256, avp.attr % 256], p, c)
    ensures HiddenBytes(avp, c)[..6]
         == [16 * (if avp.flags / 4 % 2 == 1 then avp.flags else avp.flags + 4) + (6 + |c|) / 256, (6 + |c|) % 256,
             avp.vendor / 256, avp.vendor % 256, avp.attr / 256, avp.attr % 256]
    ensures var digest := if j < 16 then k.hash([avp.attr / 256, avp.attr % 256] + k.secret + k.vector)
                          else k.hash(k.secret + c[j / 16 * 16 - 16..j / 16 * 16]);
            |digest| == 16 && |p| == |c| && HiddenBytes(avp, c)[6 + j] == Xor(p[j], digest[j % 16])
  {
    hide Xor;
    hide LengthField, SetHidden;
    HiddenHeader(avp, c);
    if j >= 16 {
      assert SIG * (j / SIG - 1) == j / 16 * 16 - 16;
    }
  }

  lemma Assembled(was: seq<byte>, mid: seq<byte>, now: seq<byte>, at: nat, total: nat, avp: Avp, cipher: seq<byte>)
    requires avp.Valid() && HEADER + |cipher| == total < 0x2000 && at + total <= |was| == |mid|
    requires mid[..at + HEADER] == was[..at] + (Field(LengthField(avp.flags, total), true) + Field(avp.vendor, true) + Field(avp.attr, true))
    requires now == mid[..at + HEADER] + cipher + mid[at + total..] && mid[at + total..] == was[at + total..]
    ensures now == was[..at] + HiddenBytes(avp, cipher) + was[at + total..]
  {
    hide Field, LengthField;
    var x := Field(LengthField(avp.flags, total), true) + Field(avp.vendor, true) + Field(avp.attr, true);
    assert HiddenBytes(avp, cipher) == x + cipher;
    assert (was[..at] + x) + cipher + was[at + total..] == was[..at] + (x + cipher) + was[at + total..];
  }

  lemma HeaderParts(avp: Avp, b: seq<byte>)
    requires avp.Valid() && b == avp.Bytes(true)
    ensures b[..2] == Field(avp.flags * 0x1000 + HEADER + |avp.value|, true)
    ensures b[2..4] == Field(avp.vendor, true) && b[4..6] == Field(avp.attr, true) && b[6..] == avp.value
  {
    hide Field;
  }

  /** The memory between the header and the cipher. */
  lemma HeaderHidden(avp: Avp, was: seq<byte>, mid: seq<byte>, at: nat, total: nat)
    requires avp.Valid() && total == HiddenLength(|avp.value|) < 0x2000 && at + total <= |was|
    requires was[at + 2..at + 8 + |avp.value|] == avp.Bytes(true)
    requires mid == was[..at] + Field(LengthField(avp.flags, total), true) + was[at + 4..at + 8]
                    + Field(|avp.value|, true) + was[at + 8..]
    ensures |mid| == |was| && mid[at + 4..at + 6] == Field(avp.attr, true)
    ensures mid[..at + HEADER] == was[..at] + (Field(LengthField(avp.flags, total), true) + Field(avp.vendor, true) + Field(avp.attr, true))
    ensures mid[at + HEADER..at + total] == Field(|avp.value|, true) + avp.value + was[at + 8 + |avp.value|..at + total]
    ensures mid[at + total..] == was[at + total..]
  {
    hide Field, LengthField;
    var b, v := was[at + 2..at + 8 + |avp.value|], |avp.value|;
    HeaderParts(avp, b);
    Within(was, b, at, v);
    var x, y := Field(LengthField(avp.flags, total), true), Field(v, true);
    Pieces(was, mid, at, total, x, Field(avp.vendor, true), Field(avp.attr, true), y, avp.value);
  }

  lemma Within(was: seq<byte>, b: seq<byte>, at: nat, v: nat)
    requires at + 8 + v <= |was| && b == was[at + 2..at + 8 + v]
    ensures was[at + 4..at + 6] == b[2..4] && was[at + 6..at + 8] == b[4..6] && was[at + 8..at + 8 + v] == b[6..]
  {
    SliceOfSlice(was, at + 2, at + 8 + v, 2, 4);
    SliceOfSlice(was, at + 2, at + 8 + v, 4, 6);
    SliceOfSlice(was, at + 2, at + 8 + v, 6, 6 + v);
  }

  lemma SliceOfSlice(s: seq<byte>, i: nat, j: nat, m: nat, n: nat)
    requires i <= j <= |s| && m <= n <= j - i
    ensures s[i..j][m..n] == s[i + m..i + n]
  {
    forall q | 0 <= q < n - m
      ensures s[i..j][m..n][q] == s[i + m..i + n][q]
    {
      assert s[i..j][m + q] == s[i + m + q];
    }
  }

  lemma Pieces(was: seq<byte>, mid: seq<byte>, at: nat, total: nat, x: seq<byte>, vendor: seq<byte>, attr: seq<byte>, y: seq<byte>, value: seq<byte>)
    requires at + total <= |was| && |x| == |y| == |vendor| == |attr| == 2 && 8 + |value| <= total
    requires was[at + 4..at + 6] == vendor && was[at + 6..at + 8] == attr && was[at + 8..at + 8 + |value|] == value
    requires mid == was[..at] + x + was[at + 4..at + 8] + y + was[at + 8..]
    ensures |mid| == |was| && mid[at + 4..at + 6] == attr && mid[..at + HEADER] == was[..at] + (x + vendor + attr)
    ensures mid[at + HEADER..at + total] == y + value + was[at + 8 + |value|..at + total]
    ensures mid[at + total..] == was[at + total..]
  {
    assert was[at + 4..at + 8] == vendor + attr;
    assert was[at + 8..] == value + was[at + 8 + |value|..at + total] + was[at + total..];
    assert mid[..at] == was[..at] && mid[at..at + 2] == x && mid[at + 2..at + 6] == vendor + attr;
  }

  lemma SegmentsHidden(k: Keys, attr: seq<byte>, mid: seq<byte>, now: seq<byte>, at: nat, total: nat, p: seq<byte>)
    requires k.Valid() && total >= HEADER && HiddenTo(k, attr, mid, now, at + HEADER, at + total) && mid[at + HEADER..at + total] == p
    ensures Hides(k, attr, p, now[at + HEADER..at + total]) && |now| == |mid|
    ensures now == mid[..at + HEADER] + now[at + HEADER..at + total] + mid[at + total..]
  {
    hide Hides;
    assert now == now[..at + HEADER] + now[at + HEADER..at + total] + now[at + total..];
  }

  // ----- decrypt_avp

  /** How far the decrypting loop is: n bytes revealed, cnt bytes of the digest used, the current segment of cipher saved. */
  ghost predicate Revealing(k: Keys, attr: seq<byte>, c: seq<byte>, now: seq<byte>, n: nat, cnt: nat, digest: seq<byte>, saved: seq<byte>)
    requires k.Valid()
  {
    && n <= |c| == |now| && cnt <= n && cnt <= SIG && (n - cnt) % SIG == 0 && (n > 0 ==> cnt > 0)
    && (forall j :: 0 <= j < |c| ==> now[j] == if j < n then Revealed(k, attr, c)[j] else c[j])
    && digest == DigestAt(k, attr, c, (n - cnt) / SIG)
    && (cnt > 0 ==> saved <= c[n - cnt..] && |saved| == (if |c| - (n - cnt) < SIG then |c| - (n - cnt) else SIG))
  }

  /** The digest for the next byte, and the segment saved for the one after. */
  lemma NextDigest(k: Keys, attr: seq<byte>, c: seq<byte>, now: seq<byte>, n: nat, digest: seq<byte>, saved: seq<byte>)
    requires k.Valid() && Revealing(k, attr, c, now, n, SIG, digest, saved) && n < |c|
    ensures k.hash(k.secret + saved) == DigestAt(k, attr, c, n / SIG) && n % SIG == 0
  {
    assert saved == c[n - SIG..n];
  }

  /** The digest is that of the byte at n, and the segment it lies in is saved. */
  ghost predicate Digested(k: Keys, attr: seq<byte>, c: seq<byte>, now: seq<byte>, n: nat, cnt: nat, digest: seq<byte>, saved: seq<byte>)
    requires k.Valid()
  {
    && n < |c| == |now| && cnt < SIG && cnt <= n && (n - cnt) % SIG == 0
    && (forall j :: 0 <= j < |c| ==> now[j] == if j < n then Revealed(k, attr, c)[j] else c[j])
    && digest == DigestAt(k, attr, c, (n - cnt) / SIG)
    && saved <= c[n - cnt..] && |saved| == (if |c| - (n - cnt) < SIG then |c| - (n - cnt) else SIG)
  }

  lemma NextRevealed(k: Keys, attr: seq<byte>, c: seq<byte>, now: seq<byte>, next: seq<byte>, n: nat, cnt: nat, digest: seq<byte>, saved: seq<byte>)
    requires k.Valid() && Digested(k, attr, c, now, n, cnt, digest, saved) && |digest| == SIG
    requires next == now[n := XorByte(now[n], digest[cnt])]
    ensures Revealing(k, attr, c, next, n + 1, cnt + 1, digest, saved)
  {
    hide XorByte;
    assert n / SIG == (n - cnt) / SIG && n % SIG == cnt;
    assert Mask(k, attr, c, n) == digest[cnt];
  }

  lemma DigestedSize(k: Keys, attr: seq<byte>, c: seq<byte>, now: seq<byte>, n: nat, cnt: nat, digest: seq<byte>, saved: seq<byte>)
    requires k.Valid() && Digested(k, attr, c, now, n, cnt, digest, saved)
    ensures |digest| == SIG && cnt < SIG
  {
    DigestSize(k, attr, c, (n - cnt) / SIG);
  }

  /** A new digest after 16 bytes; where a segment begins, as much of it as is left is saved. */
  method Refresh(k: Keys, left: seq<byte>, cnt0: nat, digest0: seq<byte>, saved0: seq<byte>, ghost attr: seq<byte>, ghost c: seq<byte>,
                 ghost now: seq<byte>, ghost n: nat)
    returns (cnt: nat, digest: seq<byte>, saved: seq<byte>)
    requires k.Valid() && n < |c| && left == c[n..] && Revealing(k, attr, c, now, n, cnt0, digest0, saved0)
    ensures Digested(k, attr, c, now, n, cnt, digest, saved)
  {
    hide Revealed, DigestAt, XorByte;
    cnt, digest, saved := cnt0, digest0, saved0;
    if cnt >= SIG {
      NextDigest(k, attr, c, now, n, digest, saved);
      digest := k.hash(k.secret + saved);
      cnt := 0;
    }
    if cnt == 0 {
      saved := left[..if |left| < SIG then |left| else SIG];
    }
  }

  /** One byte of the decrypting loop. */
  method DecryptByte(k: Keys, a: array<byte>, start: nat, ptr: nat, end: nat, cnt0: nat, digest0: seq<byte>, saved0: seq<byte>,
                     ghost attr: seq<byte>, ghost c: seq<byte>)
    returns (cnt: nat, digest: seq<byte>, saved: seq<byte>)
    requires k.Valid() && start <= ptr < end <= a.Length && |c| == end - start
    requires Revealing(k, attr, c, a[start..end], ptr - start, cnt0, digest0, saved0)
    modifies a
    ensures Revealing(k, attr, c, a[start..end], ptr + 1 - start, cnt, digest, saved)
    ensures a[..start] == old(a[..start]) && a[end..] == old(a[end..])
  {
    hide Revealing, Digested, XorByte;
    ghost var now := a[start..end];
    StillHidden(k, attr, c, now, ptr - start, cnt0, digest0, saved0);
    assert a[ptr..end] == now[ptr - start..];
    cnt, digest, saved := Refresh(k, a[ptr..end], cnt0, digest0, saved0, attr, c, now, ptr - start);
    DigestedSize(k, attr, c, now, ptr - start, cnt, digest, saved);
    a[ptr] := XorByte(a[ptr], digest[cnt]);
    assert a[start..end] == now[ptr - start := a[ptr]];
    NextRevealed(k, attr, c, now, a[start..end], ptr - start, cnt, digest, saved);
    cnt := cnt + 1;
  }

  lemma StillHidden(k: Keys, attr: seq<byte>, c: seq<byte>, now: seq<byte>, n: nat, cnt: nat, digest: seq<byte>, saved: seq<byte>)
    requires k.Valid() && Revealing(k, attr, c, now, n, cnt, digest, saved)
    ensures n <= |c| == |now| && now[n..] == c[n..]
  {
    hide Revealed, DigestAt;
  }

  /** The decrypting loop, byte by byte, for any number of bytes. */
  method DecryptBytes(k: Keys, attr: seq<byte>, a: array<byte>, start: nat, end: nat)
    requires k.Valid() && start <= end <= a.Length
    modifies a
    ensures a[..] == old(a[..start]) + Revealed(k, attr, old(a[start..end])) + old(a[end..])
  {
    hide Revealing, DigestAt;
    var digest := k.hash(attr + k.secret + k.vector);
    var saved: seq<byte>, ptr, cnt: nat := [], start, 0;
    ghost var was, c := a[..], a[start..end];
    StartRevealing(k, attr, c);
    while ptr < end
      invariant start <= ptr <= end && a[..start] == was[..start] && a[end..] == was[end..]
      invariant Revealing(k, attr, c, a[start..end], ptr - start, cnt, digest, saved)
    {
      cnt, digest, saved := DecryptByte(k, a, start, ptr, end, cnt, digest, saved, attr, c);
      ptr := ptr + 1;
    }
    AllRevealed(k, attr, c, a[start..end], cnt, digest, saved);
    assert a[..] == a[..start] + a[start..end] + a[end..];
  }

  lemma AllRevealed(k: Keys, attr: seq<byte>, c: seq<byte>, now: seq<byte>, cnt: nat, digest: seq<byte>, saved: seq<byte>)
    requires k.Valid() && Revealing(k, attr, c, now, |c|, cnt, digest, saved)
    ensures now == Revealed(k, attr, c)
  {
    hide Revealed, DigestAt;
  }

  lemma StartRevealing(k: Keys, attr: seq<byte>, c: seq<byte>)
    requires k.Valid()
    ensures Revealing(k, attr, c, c, 0, 0, k.hash(attr + k.secret + k.vector), [])
  {
  }

  /** The number in the first two bytes. */
  function Leading(p: seq<byte>): (n: nat)
    requires |p| >= 2
    ensures n < 0x10000 && Field(n, true) == p[..2]
  {
    var x: nat, y: nat := p[0], p[1];
    256 * x + y
  }

  /** What a hidden pair stands for, if the length it hides is possible. */
  function Plain(k: Keys, hidden: Avp): Option<Avp>
    requires k.Valid() && hidden.Valid()
  {
    var p := Revealed(k, Field(hidden.attr, true), hidden.value);
    if |p| < 2 || Leading(p) + HEADER > HEADER + |p| - 2 then None
    else Some(Avp(ClearHidden(hidden.flags), hidden.vendor, hidden.attr, p[2..2 + Leading(p)]))
  }

  /** The old header moves back two bytes, last field first, and gets the length that was hidden. */
  method RevealHeader(a: array<byte>, at: nat, olen: nat, big: bool, ghost hidden: Avp) returns (ok: bool)
    requires at + 8 <= a.Length && hidden.Valid() && olen == HEADER + |hidden.value|
    requires a[at..at + 6] == Field(hidden.flags * 0x1000 + olen, big) + Field(hidden.vendor, big) + Field(hidden.attr, big)
    modifies a
    ensures ok <==> Leading(old(a[at + 6..at + 8])) + HEADER <= olen - 2
    ensures !ok ==> a[..] == old(a[..])
    ensures ok ==>
              && Leading(old(a[at + 6..at + 8])) + HEADER < 0x1000 && ClearHidden(hidden.flags) < 16
              && a[..] == old(a[..at + 2]) + (Field(ClearHidden(hidden.flags) * 0x1000 + Leading(old(a[at + 6..at + 8])) + HEADER, big)
                             + Field(hidden.vendor, big) + Field(hidden.attr, big)) + old(a[at + 8..])
  {
    hide Field, ClearHidden, Htons, Leading;
    ghost var w0 := a[..];
    var oldLength := Get(a, at, big);
    assert a[at..at + 2] == a[at..at + 6][..2];
    FieldOnce(oldLength, hidden.flags * 0x1000 + olen, big);
    FlagParts(hidden.flags, olen);
    ClearFits(hidden.flags);
    var flags := oldLength / 0x1000;
    var attr := Get(a, at + 6, big);
    NetOrder(attr, Leading(a[at + 6..at + 8]), big);
    var len := Htons(attr, big) + HEADER;
    ok := len <= olen - 2;
    if ok {
      attr := Get(a, at + 4, big);
      Put(a, at + 6, attr, big);
      ghost var w1 := a[..];
      var vendor := Get(a, at + 2, big);
      Put(a, at + 4, vendor, big);
      ghost var w2 := a[..];
      Put(a, at + 2, ClearHidden(flags) * 0x1000 + len, big);
      ThreeFields(w0, at, Field(hidden.flags * 0x1000 + olen, big), Field(hidden.vendor, big), Field(hidden.attr, big));
      assert w1[at + 2..at + 4] == w0[at + 2..at + 4];
      MovedBack(w0, w1, w2, a[..], at, Field(ClearHidden(hidden.flags) * 0x1000 + len, big), Field(hidden.vendor, big), Field(hidden.attr, big));
    }
  }

  lemma ClearFits(flags: nat)
    requires flags < 16
    ensures ClearHidden(flags) < 16
  {
  }

  lemma ThreeFields(w: seq<byte>, at: nat, x: seq<byte>, vendor: seq<byte>, attr: seq<byte>)
    requires at + 6 <= |w| && |x| == |vendor| == |attr| == 2 && w[at..at + 6] == x + vendor + attr
    ensures w[at..at + 2] == x && w[at + 2..at + 4] == vendor && w[at + 4..at + 6] == attr
  {
    SliceOfSlice(w, at, at + 6, 0, 2);
    SliceOfSlice(w, at, at + 6, 2, 4);
    SliceOfSlice(w, at, at + 6, 4, 6);
  }

  lemma MovedBack(w0: seq<byte>, w1: seq<byte>, w2: seq<byte>, w3: seq<byte>, at: nat, x: seq<byte>, vendor: seq<byte>, attr: seq<byte>)
    requires at + 8 <= |w0| && |x| == |vendor| == |attr| == 2 && w0[at + 2..at + 4] == vendor && w0[at + 4..at + 6] == attr
    requires w1 == w0[..at + 6] + w0[at + 4..at + 6] + w0[at + 8..] && w2 == w1[..at + 4] + w1[at + 2..at + 4] + w1[at + 6..]
    requires w3 == w2[..at + 2] + x + w2[at + 4..]
    ensures w3 == w0[..at + 2] + (x + vendor + attr) + w0[at + 8..]
  {
    assert |w1| == |w2| == |w3| == |w0|;
    forall j | 0 <= j < |w0|
      ensures w2[j] == if at + 4 <= j < at + 8 then w0[j - 2] else w0[j]
    {
      assert w1[j] == if at + 6 <= j < at + 8 then w0[j - 2] else w0[j];
      assert w2[j] == if at + 4 <= j < at + 6 then w1[j - 2] else w1[j];
    }
    hide *;
    var e, w := x + vendor + attr, w0[..at + 2] + (x + vendor + attr) + w0[at + 8..];
    forall j | 0 <= j < |w0|
      ensures w3[j] == w[j]
    {
      if at + 4 <= j < at + 6 {
        assert w3[j] == w2[j] == w0[j - 2] == w0[at + 2..at + 4][j - at - 4] && w[j] == e[j - at - 2] == vendor[j - at - 4];
      } else if at + 6 <= j < at + 8 {
        assert w3[j] == w2[j] == w0[j - 2] == w0[at + 4..at + 6][j - at - 6] && w[j] == e[j - at - 2] == attr[j - at - 6];
      }
    }
  }

  /** decrypt_avp, for a pair whose header is in the machine's order already. */
  method DecryptAvp(k: Keys, vectorKnown: bool, a: array<byte>, at: nat, big: bool, ghost hidden: Avp) returns (ok: bool)
    requires k.Valid() && hidden.Valid() && at + HEADER + |hidden.value| <= a.Length && at + 8 <= a.Length
    requires a[at..at + HEADER + |hidden.value|] == hidden.Bytes(big)
    modifies a
    ensures ok <==> vectorKnown && Plain(k, hidden).Some?
    ensures ok ==> Plain(k, hidden).value.Valid()
                   && |Plain(k, hidden).value.value| + 8 <= |hidden.value| + HEADER
                   && a[at + 2..at + 8 + |Plain(k, hidden).value.value|] == Plain(k, hidden).value.Bytes(big)
  {
    hide Field, ClearHidden, Htons, Leading, Revealed, Avp.Bytes, DigestAt;
    if !vectorKnown {
      return false;
    }
    ghost var w0 := a[..];
    OrderedParts(hidden, big, w0, at);
    var oldLength := Get(a, at, big);
    FieldOnce(oldLength, hidden.flags * 0x1000 + HEADER + |hidden.value|, big);
    FlagParts(hidden.flags, HEADER + |hidden.value|);
    var olen := oldLength % 0x1000;
    var v := Get(a, at + 4, big);
    FieldOnce(v, hidden.attr, big);
    HostOrder(hidden.attr, big);
    DecryptBytes(k, Field(Htons(v, big), big), a, at + HEADER, at + olen);
    AfterReveal(w0, a[..], Revealed(k, Field(hidden.attr, true), hidden.value), at);
    ok := RevealPair(k, a, at, olen, big, hidden);
  }

  /** The part of decrypt_avp after the loop: "Let's rewrite the header." */
  method RevealPair(k: Keys, a: array<byte>, at: nat, olen: nat, big: bool, ghost hidden: Avp) returns (ok: bool)
    requires k.Valid() && hidden.Valid() && olen == HEADER + |hidden.value| && at + olen <= a.Length && at + 8 <= a.Length
    requires a[..][at..at + 6] == Field(hidden.flags * 0x1000 + olen, big) + Field(hidden.vendor, big) + Field(hidden.attr, big)
    requires a[..][at + 6..at + olen] == Revealed(k, Field(hidden.attr, true), hidden.value)
    modifies a
    ensures ok <==> Plain(k, hidden).Some?
    ensures ok ==> Plain(k, hidden).value.Valid()
                   && |Plain(k, hidden).value.value| + 8 <= |hidden.value| + HEADER
                   && a[at + 2..at + 8 + |Plain(k, hidden).value.value|] == Plain(k, hidden).value.Bytes(big)
  {
    hide Field, ClearHidden, Htons, Leading, Revealed, Avp.Bytes, DigestAt, Plain;
    ghost var w := a[..];
    assert a[at..at + 6] == w[at..at + 6] && a[at + 6..at + 8] == w[at + 6..at + 8];
    PlainParts(k, hidden, w, at);
    ok := RevealHeader(a, at, olen, big, hidden);
    if ok {
      PlainKept(k, hidden);
      PlainBytes(k, hidden, big, w, a[..], at);
    }
  }

  lemma PlainKept(k: Keys, hidden: Avp)
    requires k.Valid() && hidden.Valid() && Plain(k, hidden).Some?
    ensures |Plain(k, hidden).value.value| + 8 <= |hidden.value| + HEADER
  {
  }

  lemma OrderedParts(hidden: Avp, big: bool, w: seq<byte>, at: nat)
    requires hidden.Valid() && at + HEADER + |hidden.value| <= |w| && w[at..at + HEADER + |hidden.value|] == hidden.Bytes(big)
    ensures w[at..at + 2] == Field(hidden.flags * 0x1000 + HEADER + |hidden.value|, big) && w[at + 4..at + 6] == Field(hidden.attr, big)
    ensures w[at..at + 6] == Field(hidden.flags * 0x1000 + HEADER + |hidden.value|, big) + Field(hidden.vendor, big) + Field(hidden.attr, big)
    ensures w[at + 6..at + HEADER + |hidden.value|] == hidden.value
  {
    hide Field;
    var n := HEADER + |hidden.value|;
    SliceOfSlice(w, at, at + n, 0, 2);
    SliceOfSlice(w, at, at + n, 4, 6);
    SliceOfSlice(w, at, at + n, 0, 6);
    SliceOfSlice(w, at, at + n, 6, n);
  }

  lemma HostOrder(v: nat, big: bool)
    requires v < 0x10000
    ensures Field(Htons(v, big), big) == Field(v, true)
  {
  }

  lemma AfterReveal(w0: seq<byte>, w1: seq<byte>, p: seq<byte>, at: nat)
    requires at + HEADER + |p| <= |w0| && at + 8 <= |w0| && w1 == w0[..at + HEADER] + p + w0[at + HEADER + |p|..]
    ensures |w1| == |w0| && w1[at..at + 6] == w0[at..at + 6] && w1[at + 6..at + 6 + |p|] == p
  {
  }

  /** Whether the hidden length is possible. */
  lemma PlainParts(k: Keys, hidden: Avp, w: seq<byte>, at: nat)
    requires k.Valid() && hidden.Valid() && at + 6 + |hidden.value| <= |w| && at + 8 <= |w|
    requires w[at + 6..at + 6 + |hidden.value|] == Revealed(k, Field(hidden.attr, true), hidden.value)
    ensures Plain(k, hidden).Some? <==> Leading(w[at + 6..at + 8]) + HEADER <= HEADER + |hidden.value| - 2
    ensures Plain(k, hidden).Some? ==>
              && Plain(k, hidden).value.Valid() && |Plain(k, hidden).value.value| == Leading(w[at + 6..at + 8])
              && Plain(k, hidden).value.value == w[at + 8..at + 8 + Leading(w[at + 6..at + 8])]
  {
    var p := Revealed(k, Field(hidden.attr, true), hidden.value);
    hide Revealed, Field;
    ClearFits(hidden.flags);
    if |p| >= 2 {
      SliceOfSlice(w, at + 6, at + 6 + |p|, 0, 2);
      LeadingPrefix(p);
      var n := Leading(p);
      if n + 2 <= |p| {
        SliceOfSlice(w, at + 6, at + 6 + |p|, 2, 2 + n);
      }
    }
  }

  lemma LeadingPrefix(p: seq<byte>)
    requires |p| >= 2
    ensures Leading(p) == Leading(p[..2])
  {
  }

  lemma PlainBytes(k: Keys, hidden: Avp, big: bool, w1: seq<byte>, w2: seq<byte>, at: nat)
    requires k.Valid() && hidden.Valid() && Plain(k, hidden).Some? && Plain(k, hidden).value.Valid()
    requires at + 8 + |Plain(k, hidden).value.value| <= |w1| && ClearHidden(hidden.flags) < 16
    requires Plain(k, hidden).value.value == w1[at + 8..at + 8 + |Plain(k, hidden).value.value|]
    requires w2 == w1[..at + 2] + (Field(ClearHidden(hidden.flags) * 0x1000 + |Plain(k, hidden).value.value| + HEADER, big)
                     + Field(hidden.vendor, big) + Field(hidden.attr, big)) + w1[at + 8..]
    ensures w2[at + 2..at + 8 + |Plain(k, hidden).value.value|] == Plain(k, hidden).value.Bytes(big)
  {
    hide Field, Revealed, Leading, ClearHidden;
    var q := Plain(k, hidden).value;
    var x := Field(q.flags * 0x1000 + HEADER + |q.value|, big) + Field(q.vendor, big) + Field(q.attr, big);
    assert w2[at + 2..at + 8] == x;
    assert w2[at + 8..] == w1[at + 8..];
    assert w2[at + 2..at + 8 + |q.value|] == x + q.value;
  }

  // ----- both ends

  /** swaps: the header from the order of the network to that of the machine. */
  method SwapHeader(a: array<byte>, at: nat, big: bool, ghost avp: Avp)
    requires avp.Valid() && at + HEADER + |avp.value| <= a.Length && a[at..at + HEADER + |avp.value|] == avp.Bytes(true)
    modifies a
    ensures a[..] == old(a[..at]) + avp.Bytes(big) + old(a[at + HEADER + |avp.value|..])
  {
    hide Field, Htons;
    ghost var w0 := a[..];
    OrderedParts(avp, true, w0, at);
    SliceOfSlice(w0, at, at + 6, 2, 4);
    var length := Get(a, at, big);
    NetOrder(length, avp.flags * 0x1000 + HEADER + |avp.value|, big);
    Put(a, at, Htons(length, big), big);
    ghost var w1 := a[..];
    Behind(w0, w1, at, 2, 4);
    Behind(w0, w1, at, 4, 6);
    var vendor := Get(a, at + 2, big);
    NetOrder(vendor, avp.vendor, big);
    Put(a, at + 2, Htons(vendor, big), big);
    ghost var w2 := a[..];
    Behind(w1, w2, at + 2, 2, 4);
    var attr := Get(a, at + 4, big);
    NetOrder(attr, avp.attr, big);
    Put(a, at + 4, Htons(attr, big), big);
    Swapped(avp, big, w0, w1, w2, a[..], at);
  }

  /** A field written leaves what is behind it. */
  lemma Behind(w: seq<byte>, w': seq<byte>, at: nat, i: nat, j: nat)
    requires at + j <= |w| == |w'| && 2 <= i <= j && |w'| - at >= 2 && w'[at + 2..] == w[at + 2..]
    ensures w'[at + i..at + j] == w[at + i..at + j]
  {
    SliceOfSlice(w, at + 2, |w|, i - 2, j - 2);
    SliceOfSlice(w', at + 2, |w'|, i - 2, j - 2);
    assert w[at + 2..|w|] == w[at + 2..] && w'[at + 2..|w'|] == w'[at + 2..];
  }

  lemma Swapped(avp: Avp, big: bool, w0: seq<byte>, w1: seq<byte>, w2: seq<byte>, w3: seq<byte>, at: nat)
    requires avp.Valid() && at + HEADER + |avp.value| <= |w0| && w0[at + 6..at + HEADER + |avp.value|] == avp.value
    requires w1 == w0[..at] + Field(avp.flags * 0x1000 + HEADER + |avp.value|, big) + w0[at + 2..]
    requires w2 == w1[..at + 2] + Field(avp.vendor, big) + w1[at + 4..] && w3 == w2[..at + 4] + Field(avp.attr, big) + w2[at + 6..]
    ensures w3 == w0[..at] + avp.Bytes(big) + w0[at + HEADER + |avp.value|..]
  {
    var x, y, z := Field(avp.flags * 0x1000 + HEADER + |avp.value|, big), Field(avp.vendor, big), Field(avp.attr, big);
    assert avp.Bytes(big) == x + y + z + avp.value;
    hide *;
    ThreeWritten(w0, w1, w2, w3, at, x, y, z);
    var head, tail := w0[..at], w0[at + HEADER + |avp.value|..];
    assert w0[at + 6..] == avp.value + tail;
    Grouped(head, x + y + z, avp.value, tail);
  }

  lemma Grouped(a: seq<byte>, b: seq<byte>, c: seq<byte>, d: seq<byte>)
    ensures a + b + (c + d) == a + (b + c) + d
  {
  }

  lemma ThreeWritten(w0: seq<byte>, w1: seq<byte>, w2: seq<byte>, w3: seq<byte>, at: nat, x: seq<byte>, y: seq<byte>, z: seq<byte>)
    requires at + 6 <= |w0| && |x| == |y| == |z| == 2 && w1 == w0[..at] + x + w0[at + 2..]
    requires |w1| == |w0| && w2 == w1[..at + 2] + y + w1[at + 4..] && |w2| == |w0| && w3 == w2[..at + 4] + z + w2[at + 6..]
    ensures w3 == w0[..at] + (x + y + z) + w0[at + 6..]
  {
    Written(w0, w1, at, x);
    Written(w1, w2, at + 2, y);
    Further(w0, w1, at + 2, 4);
    Further(w1, w2, at + 4, 2);
    assert w2[..at + 4] + z == w0[..at] + (x + y + z);
  }

  /** A field written goes between what is before it and what is behind it. */
  lemma Written(w: seq<byte>, w': seq<byte>, at: nat, x: seq<byte>)
    requires at + 2 <= |w| && |x| == 2 && w' == w[..at] + x + w[at + 2..]
    ensures |w'| == |w| && w'[..at + 2] == w[..at] + x && w'[at + 2..] == w[at + 2..]
  {
  }

  lemma Further(w: seq<byte>, w': seq<byte>, at: nat, n: nat)
    requires at + n <= |w| == |w'| && w'[at..] == w[at..]
    ensures w'[at + n..] == w[at + n..]
  {
    assert w'[at + n..] == w'[at..][n..] && w[at + n..] == w[at..][n..];
  }

  /** What is revealed of a hidden pair is the pair, with the hidden flag clear: the padding leaves room for the length, so
      the check on it never fails. */
  lemma HiddenPairRevealed(k: Keys, avp: Avp, pad: seq<byte>, hidden: Avp)
    requires k.Valid() && avp.Valid() && hidden.Valid() && HiddenOf(k, avp, pad, hidden)
    ensures Plain(k, hidden) == Some(avp.(flags := ClearHidden(avp.flags)))
  {
    hide Revealed, Field, Hides, Leading;
    var p := Field(|avp.value|, true) + avp.value + pad;
    HidesSize(k, Field(avp.attr, true), p, hidden.value);
    RevealHidden(k, Field(avp.attr, true), p, hidden.value);
    FieldOnce(Leading(p), |avp.value|, true);
    assert p[2..2 + |avp.value|] == avp.value;
  }

  lemma HidesSize(k: Keys, attr: seq<byte>, p: seq<byte>, c: seq<byte>)
    requires k.Valid() && Hides(k, attr, p, c)
    ensures |p| == |c|
  {
  }

  /** Up to 4078 bytes of value, the reader finds what was hidden. */
  lemma SeenHides(k: Keys, avp: Avp, pad: seq<byte>, cipher: seq<byte>)
    requires k.Valid() && avp.Valid() && |avp.value| <= 4078 && HEADER + |cipher| == HiddenLength(|avp.value|)
    requires Hides(k, Field(avp.attr, true), Field(|avp.value|, true) + avp.value + pad, cipher)
    ensures HiddenOf(k, avp, pad, Seen(avp, cipher))
  {
    hide Hides, Field;
    assert cipher[..|cipher|] == cipher;
  }

  /** From 4079 bytes on, the length field says that there is no value at all. */
  lemma SeenEmpty(k: Keys, avp: Avp, cipher: seq<byte>)
    requires k.Valid() && avp.Valid() && |avp.value| > 4078 && HEADER + |cipher| == HiddenLength(|avp.value|)
    ensures (HEADER + |cipher|) % 0x1000 == HEADER && Plain(k, Seen(avp, cipher)).None?
  {
  }

  /** So the reader finds the pair if and only if its value has at most 4078 bytes. */
  lemma SeenExactly(k: Keys, avp: Avp, pad: seq<byte>, cipher: seq<byte>)
    requires k.Valid() && avp.Valid() && HEADER + |cipher| == HiddenLength(|avp.value|)
    requires Hides(k, Field(avp.attr, true), Field(|avp.value|, true) + avp.value + pad, cipher)
    ensures Plain(k, Seen(avp, cipher)) == if |avp.value| <= 4078 then Some(avp.(flags := ClearHidden(avp.flags))) else None
  {
    hide Hides, Field, Plain, HiddenOf;
    if |avp.value| <= 4078 {
      SeenHides(k, avp, pad, cipher);
      HiddenPairRevealed(k, avp, pad, Seen(avp, cipher));
    } else {
      SeenEmpty(k, avp, cipher);
    }
  }

  /** The sending end. */
  method SendHidden(k: Keys, a: array<byte>, at: nat, len: nat, big: bool, ghost avp: Avp) returns (ghost seen: Avp)
    requires k.Valid() && avp.Valid() && len == HEADER + |avp.value|
    requires at + HiddenLength(|avp.value|) <= a.Length && a[at + 2..at + 2 + len] == avp.Bytes(true)
    modifies a
    ensures seen.Valid() && at + HEADER + |seen.value| <= a.Length && a[at..at + HEADER + |seen.value|] == seen.Bytes(true)
    ensures Plain(k, seen) == if |avp.value| <= 4078 then Some(avp.(flags := ClearHidden(avp.flags))) else None
  {
    hide Avp.Bytes, Hides, ClearHidden, Plain, Seen, HiddenBytes;
    ghost var pad := a[at + 2 + len..at + HiddenLength(|avp.value|)];
    var total;
    ghost var cipher;
    total, cipher := EncryptAvp(k, a, at, len, big, avp);
    assert a[at..at + total] == HiddenBytes(avp, cipher);
    seen := Seen(avp, cipher);
    SeenBytes(avp, cipher);
    SeenExactly(k, avp, pad, cipher);
  }

  /** The whole way, hidden by one end, revealed by the other: the pair is restored if and only if its value has at most 4078
      bytes.  The length field has twelve bits; for a longer value, the length of the hidden pair runs into the flags, and the
      reader refuses the pair. */
  method Roundtrip(k: Keys, a: array<byte>, at: nat, len: nat, bigHere: bool, bigThere: bool, ghost avp: Avp) returns (ok: bool)
    requires k.Valid() && avp.Valid() && len == HEADER + |avp.value|
    requires at + HiddenLength(|avp.value|) <= a.Length && a[at + 2..at + 2 + len] == avp.Bytes(true)
    modifies a
    ensures ok <==> |avp.value| <= 4078
    ensures ok ==> avp.(flags := ClearHidden(avp.flags)).Valid()
                   && a[at + 2..at + 2 + len] == avp.(flags := ClearHidden(avp.flags)).Bytes(bigThere)
  {
    hide Avp.Bytes, ClearHidden, Plain;
    ghost var seen := SendHidden(k, a, at, len, bigHere, avp);
    SwapHeader(a, at, bigThere, seen);
    assert a[at..at + HEADER + |seen.value|] == seen.Bytes(bigThere);
    ok := DecryptAvp(k, true, a, at, bigThere, seen);
  }
}
