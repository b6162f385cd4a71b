/**
 The open-addressed hash table of BSD Compress, as a sequence of cells, and what it
 stands for: the list of dictionary entries.  A cell whose codem1 is not below max_ent is
 free, whatever it held before the dictionary was last cleared.
 */
module BsdTable {
  import opened Arith
  import opened Bits
  import opened Options
  import opened BsdCoder
  import opened Probing

  const BADCODEM1: nat := 32767

  /** One dictionary cell: the key, the code minus one, and, under the cell's own index as a code, that code's cell. */
  datatype Cell = Cell(prefix: nat, suffix: byte, codem1: nat, cptr: nat)

  function HashSize(bits: nat): (n: nat)
    ensures n >= 5003
  {
    if bits <= 12 then 5003 else if bits == 13 then 9001 else if bits == 14 then 18013 else 35023
  }

  function HashShift(bits: nat): nat {
    if bits <= 12 then 4 else bits - 8
  }

  function Hash(prefix: nat, suffix: byte, bits: nat): nat {
    Xor(suffix * Pow2(HashShift(bits)), prefix)
  }

  function Disp(hval: nat): nat { if hval == 0 then 1 else hval }

  /** The j-th cell probed for a key. */
  function Path(prefix: nat, suffix: byte, bits: nat, j: nat): (s: nat)
    ensures s < HashSize(bits)
  {
    var h := Hash(prefix, suffix, bits);
    Slot(h, Disp(h), HashSize(bits), j)
  }

  lemma HashBelowSize(prefix: nat, suffix: byte, bits: nat)
    requires MIN_BITS <= bits <= MAX_BITS && prefix <= MaxCode(bits)
    ensures Hash(prefix, suffix, bits) < HashSize(bits)
    ensures MaxCode(bits) < HashSize(bits)
  {
    var w := if bits <= 12 then 12 else bits;
    Pow2Monotone(bits, w);
    Pow2Values();
    Pow2Add(8, HashShift(bits));
    MulLess(suffix, 256, Pow2(HashShift(bits)));
    XorBelow(suffix * Pow2(HashShift(bits)), prefix, w);
  }

  lemma MaxCodeSmall(bits: nat)
    requires bits <= MAX_BITS
    ensures MaxCode(bits) <= BADCODEM1
  {
    Pow2Monotone(bits, 15);
    Pow2Values();
  }

  /** The invariant of the table; depth[k] is how many probes the key of code FIRST + k takes. */
  ghost predicate Table(t: seq<Cell>, bits: nat, entries: seq<Entry>, depth: seq<nat>) {
    && MIN_BITS <= bits <= MAX_BITS
    && |t| == HashSize(bits) && |depth| == |entries| && FIRST - 1 + |entries| <= MaxCode(bits) < |t|
    && Indexed(t, MaxCode(bits))
    && AllPlaced(t, bits, entries, depth)
  }

  ghost predicate AllPlaced(t: seq<Cell>, bits: nat, entries: seq<Entry>, depth: seq<nat>)
    requires |t| == HashSize(bits) && FIRST - 1 + |entries| < |t| && |depth| == |entries|
  {
    forall k :: 0 <= k < |entries| ==> Placed(t, bits, entries[k], FIRST + k, depth[k])
  }

  /** cptr inverts codem1, for cells in use and for cells left over from before a clear alike. */
  ghost predicate Indexed(t: seq<Cell>, maxmaxcode: nat)
    requires maxmaxcode < |t|
  {
    && (forall s :: 0 <= s < |t| ==> t[s].cptr < |t|)
    && (forall s :: 0 <= s < |t| && t[s].codem1 != BADCODEM1 ==>
          FIRST - 1 <= t[s].codem1 < maxmaxcode && t[t[s].codem1 + 1].cptr == s)
  }

  /** The cell of a code holds its key, on the key's probe path after cells of older codes only. */
  ghost predicate Placed(t: seq<Cell>, bits: nat, e: Entry, code: nat, j: nat)
    requires |t| == HashSize(bits) && FIRST <= code < |t|
  {
    && t[code].cptr < |t|
    && t[t[code].cptr].codem1 == code - 1
    && t[t[code].cptr].prefix == e.prefix && t[t[code].cptr].suffix == e.suffix
    && j < HashSize(bits) && Path(e.prefix, e.suffix, bits, j) == t[code].cptr
    && (forall i :: 0 <= i < j ==> t[Path(e.prefix, e.suffix, bits, i)].codem1 < code - 1)
  }

  /** The cells 0..j-1 of the key's path are in use. */
  ghost predicate UsedBefore(t: seq<Cell>, bits: nat, maxEnt: nat, prefix: nat, suffix: byte, j: nat)
    requires |t| == HashSize(bits)
  {
    forall i :: 0 <= i < j ==> t[Path(prefix, suffix, bits, i)].codem1 < maxEnt
  }

  /** None of the cells 0..j-1 of the key's path holds the key. */
  ghost predicate NoMatchBefore(t: seq<Cell>, bits: nat, prefix: nat, suffix: byte, j: nat)
    requires |t| == HashSize(bits)
  {
    forall i :: 0 <= i < j ==>
      var c := t[Path(prefix, suffix, bits, i)];
      !(c.prefix == prefix && c.suffix == suffix)
  }

  lemma UsedOneMore(t: seq<Cell>, bits: nat, maxEnt: nat, prefix: nat, suffix: byte, j: nat)
    requires |t| == HashSize(bits) && UsedBefore(t, bits, maxEnt, prefix, suffix, j)
    requires t[Path(prefix, suffix, bits, j)].codem1 < maxEnt
    ensures UsedBefore(t, bits, maxEnt, prefix, suffix, j + 1)
  {
  }

  lemma NoMatchOneMore(t: seq<Cell>, bits: nat, prefix: nat, suffix: byte, j: nat)
    requires |t| == HashSize(bits) && NoMatchBefore(t, bits, prefix, suffix, j)
    requires var c := t[Path(prefix, suffix, bits, j)]; !(c.prefix == prefix && c.suffix == suffix)
    ensures NoMatchBefore(t, bits, prefix, suffix, j + 1)
  {
  }

  lemma PathsDiffer(prefix: nat, suffix: byte, bits: nat, i: nat, j: nat)
    requires MIN_BITS <= bits <= MAX_BITS && prefix <= MaxCode(bits) && i < j < HashSize(bits)
    ensures Path(prefix, suffix, bits, i) != Path(prefix, suffix, bits, j)
  {
    HashBelowSize(prefix, suffix, bits);
    TableSizesPrime();
    SlotsDiffer(Hash(prefix, suffix, bits), Disp(Hash(prefix, suffix, bits)), HashSize(bits), i, j);
  }

  /** A path meets a free cell within |entries| steps: the table is never full. */
  lemma UsedPrefixShort(t: seq<Cell>, bits: nat, entries: seq<Entry>, depth: seq<nat>,
                        prefix: nat, suffix: byte, j: nat)
    requires Table(t, bits, entries, depth) && prefix <= MaxCode(bits) && j <= |t|
    requires UsedBefore(t, bits, FIRST - 1 + |entries|, prefix, suffix, j)
    ensures j <= |entries| < |t|
  {
    hide Path, Pow2, Placed;
    MaxCodeSmall(bits);
    var codes := seq(j, i requires 0 <= i < j => t[Path(prefix, suffix, bits, i)].codem1 - (FIRST - 1));
    forall i | 0 <= i < |codes|
      ensures 0 <= codes[i] < |entries|
    {
      assert t[Path(prefix, suffix, bits, i)].codem1 < FIRST - 1 + |entries|;
    }
    forall i, k | 0 <= i < k < |codes|
      ensures codes[i] != codes[k]
    {
      var a, b := Path(prefix, suffix, bits, i), Path(prefix, suffix, bits, k);
      assert t[a].codem1 < FIRST - 1 + |entries| && t[b].codem1 < FIRST - 1 + |entries|;
      assert t[t[a].codem1 + 1].cptr == a && t[t[b].codem1 + 1].cptr == b;
      PathsDiffer(prefix, suffix, bits, i, k);
    }
    Pigeonhole(codes, |entries|);
  }

  /** A used cell holds the key of its code. */
  lemma UsedCell(t: seq<Cell>, bits: nat, entries: seq<Entry>, depth: seq<nat>, s: nat)
    requires Table(t, bits, entries, depth) && s < |t| && t[s].codem1 < FIRST - 1 + |entries|
    ensures FIRST <= t[s].codem1 + 1 < FIRST + |entries| && t[t[s].codem1 + 1].cptr == s
    ensures entries[t[s].codem1 + 1 - FIRST] == Entry(t[s].prefix, t[s].suffix)
  {
    hide Path, Pow2;
    MaxCodeSmall(bits);
    assert t[s].codem1 != BADCODEM1;
    var k := t[s].codem1 + 1 - FIRST;
    assert Placed(t, bits, entries[k], FIRST + k, depth[k]);
  }

  /** The first cell of the path with the key is the one of the first code for the key. */
  lemma ProbeFinds(t: seq<Cell>, bits: nat, entries: seq<Entry>, depth: seq<nat>, prefix: nat, suffix: byte, j: nat)
    requires Table(t, bits, entries, depth) && j < |t|
    requires UsedBefore(t, bits, FIRST - 1 + |entries|, prefix, suffix, j + 1)
    requires NoMatchBefore(t, bits, prefix, suffix, j)
    requires var c := t[Path(prefix, suffix, bits, j)]; c.prefix == prefix && c.suffix == suffix
    ensures Find(entries, prefix, suffix) == Some(t[Path(prefix, suffix, bits, j)].codem1 + 1)
  {
    hide Path, Pow2, Indexed;
    var s := Path(prefix, suffix, bits, j);
    assert t[s].codem1 < FIRST - 1 + |entries|;
    UsedCell(t, bits, entries, depth, s);
    var k := t[s].codem1 + 1 - FIRST;
    var r := Find(entries, prefix, suffix);
    assert entries[k] == Entry(prefix, suffix);
    var k' := r.value - FIRST;
    assert Placed(t, bits, entries[k'], FIRST + k', depth[k']);
  }

  /** If the path reaches a free cell without the key, the key has no code. */
  lemma ProbeMisses(t: seq<Cell>, bits: nat, entries: seq<Entry>, depth: seq<nat>, prefix: nat, suffix: byte, j: nat)
    requires Table(t, bits, entries, depth) && j < |t|
    requires UsedBefore(t, bits, FIRST - 1 + |entries|, prefix, suffix, j)
    requires NoMatchBefore(t, bits, prefix, suffix, j)
    requires t[Path(prefix, suffix, bits, j)].codem1 >= FIRST - 1 + |entries|
    ensures Find(entries, prefix, suffix) == None
  {
    forall k | 0 <= k < |entries|
      ensures entries[k] != Entry(prefix, suffix)
    {
      assert Placed(t, bits, entries[k], FIRST + k, depth[k]);
    }
  }

  /** The three writes that give the next code to a key: drop a stale holder, point to the cell, fill it. */
  function Enter(t: seq<Cell>, maxEnt: nat, hval: nat, prefix: nat, suffix: byte): (t': seq<Cell>)
    requires maxEnt + 1 < |t| && hval < |t| && t[maxEnt + 1].cptr < |t|
    ensures |t'| == |t|
  {
    var stale := t[maxEnt + 1].cptr;
    var t1 := if t[stale].codem1 == maxEnt then t[stale := t[stale].(codem1 := BADCODEM1)] else t;
    var t2 := t1[maxEnt + 1 := t1[maxEnt + 1].(cptr := hval)];
    t2[hval := t2[hval].(codem1 := maxEnt, prefix := prefix, suffix := suffix)]
  }

  /** What Enter changes. */
  ghost predicate Entered(t: seq<Cell>, t': seq<Cell>, m: nat, hval: nat, e: Entry)
    requires m + 1 < |t| && hval < |t|
  {
    && |t'| == |t|
    && t'[hval].codem1 == m && t'[hval].prefix == e.prefix && t'[hval].suffix == e.suffix
    && t'[m + 1].cptr == hval
    && (forall s :: 0 <= s < |t| && s != m + 1 ==> t'[s].cptr == t[s].cptr)
    && (forall s :: 0 <= s < |t| && s != hval ==>
          && t'[s].codem1 == (if t[s].codem1 == m then BADCODEM1 else t[s].codem1)
          && t'[s].prefix == t[s].prefix && t'[s].suffix == t[s].suffix)
  }

  lemma EnterCells(t: seq<Cell>, maxmaxcode: nat, m: nat, hval: nat, prefix: nat, suffix: byte)
    requires maxmaxcode < |t| && maxmaxcode <= BADCODEM1 && Indexed(t, maxmaxcode)
    requires FIRST - 1 <= m < maxmaxcode && hval < |t|
    ensures Entered(t, Enter(t, m, hval, prefix, suffix), m, hval, Entry(prefix, suffix))
  {
  }

  /** Entering a key at the first free cell of its path adds one entry and keeps the invariant. */
  lemma EnterKeepsTable(t: seq<Cell>, bits: nat, entries: seq<Entry>, depth: seq<nat>,
                        prefix: nat, suffix: byte, j: nat)
    requires Table(t, bits, entries, depth) && FIRST - 1 + |entries| < MaxCode(bits) && j < |t|
    requires UsedBefore(t, bits, FIRST - 1 + |entries|, prefix, suffix, j)
    requires t[Path(prefix, suffix, bits, j)].codem1 >= FIRST - 1 + |entries|
    ensures Table(Enter(t, FIRST - 1 + |entries|, Path(prefix, suffix, bits, j), prefix, suffix), bits,
                  entries + [Entry(prefix, suffix)], depth + [j])
  {
    var m, hval := FIRST - 1 + |entries|, Path(prefix, suffix, bits, j);
    var e := Entry(prefix, suffix);
    var t' := Enter(t, m, hval, prefix, suffix);
    MaxCodeSmall(bits);
    hide Path, Enter, Pow2, Placed, MaxCode, Entered, Indexed, UsedBefore, AllPlaced;
    EnterCells(t, MaxCode(bits), m, hval, prefix, suffix);
    EnterKeepsIndexed(t, t', MaxCode(bits), m, hval, e);
    NewPlaced(t, t', bits, e, j, m, hval);
    AllPlacedExtends(t, t', bits, entries, depth, e, j, hval);
  }

  lemma AllPlacedExtends(t: seq<Cell>, t': seq<Cell>, bits: nat, entries: seq<Entry>, depth: seq<nat>,
                         e: Entry, j: nat, hval: nat)
    requires |t| == |t'| == HashSize(bits) && |depth| == |entries|
    requires var m := FIRST - 1 + |entries|;
             && m < BADCODEM1 && m + 1 < |t| && hval < |t| && t[hval].codem1 >= m
             && AllPlaced(t, bits, entries, depth) && Entered(t, t', m, hval, e) && Placed(t', bits, e, m + 1, j)
    ensures AllPlaced(t', bits, entries + [e], depth + [j])
  {
    hide Placed, Entered;
    forall k | 0 <= k < |entries|
      ensures Placed(t', bits, entries[k], FIRST + k, depth[k])
    {
      OldPlaced(t, t', bits, entries[k], FIRST + k, depth[k], FIRST - 1 + |entries|, hval, e);
    }
  }

  lemma EnterKeepsIndexed(t: seq<Cell>, t': seq<Cell>, maxmaxcode: nat, m: nat, hval: nat, e: Entry)
    requires maxmaxcode < |t| && Indexed(t, maxmaxcode)
    requires FIRST - 1 <= m < maxmaxcode && hval < |t| && Entered(t, t', m, hval, e)
    ensures Indexed(t', maxmaxcode)
  {
    forall s | 0 <= s < |t'| && t'[s].codem1 != BADCODEM1
      ensures FIRST - 1 <= t'[s].codem1 < maxmaxcode && t'[t'[s].codem1 + 1].cptr == s
    {
      if s != hval {
        assert t'[s].codem1 == t[s].codem1 != m;
      }
    }
  }

  lemma NewPlaced(t: seq<Cell>, t': seq<Cell>, bits: nat, e: Entry, j: nat, m: nat, hval: nat)
    requires |t| == HashSize(bits) && FIRST - 1 <= m < BADCODEM1 && m + 1 < |t| && j < |t|
    requires hval == Path(e.prefix, e.suffix, bits, j) && t[hval].codem1 >= m
    requires UsedBefore(t, bits, m, e.prefix, e.suffix, j) && Entered(t, t', m, hval, e)
    ensures Placed(t', bits, e, m + 1, j)
  {
    hide Path;
    forall i | 0 <= i < j
      ensures t'[Path(e.prefix, e.suffix, bits, i)].codem1 < m
    {
      assert t[Path(e.prefix, e.suffix, bits, i)].codem1 < m;
    }
  }

  lemma OldPlaced(t: seq<Cell>, t': seq<Cell>, bits: nat, e: Entry, code: nat, j: nat, m: nat, hval: nat, e': Entry)
    requires |t| == HashSize(bits) && FIRST <= code <= m < BADCODEM1 && m + 1 < |t| && hval < |t|
    requires Placed(t, bits, e, code, j) && t[hval].codem1 >= m
    requires Entered(t, t', m, hval, e')
    ensures Placed(t', bits, e, code, j)
  {
    hide Path;
    forall i | 0 <= i < j
      ensures t'[Path(e.prefix, e.suffix, bits, i)].codem1 < code - 1
    {
      assert t[Path(e.prefix, e.suffix, bits, i)].codem1 < code - 1;
    }
  }

  /** Clearing the dictionary frees every cell without touching the table. */
  lemma ClearKeepsTable(t: seq<Cell>, bits: nat, entries: seq<Entry>, depth: seq<nat>)
    requires Table(t, bits, entries, depth)
    ensures Table(t, bits, [], [])
  {
  }
}
