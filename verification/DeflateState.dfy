/**
 The parts of deflate_state that the construction of Huffman trees works on, and the tree
 descriptors.
 */
module DeflateState {
  import opened Options
  import opened Bits
  import opened TreeMerging
  import opened LengthRepair

  const MAX_BITS: nat := 15

  /** static_tree_desc: lengths of the static tree if there is one, extra bits from symbol base on, bounds. */
  datatype StaticDesc = StaticDesc(lengths: Option<seq<nat>>, extra: seq<nat>, base: nat, elems: nat, maxLength: nat) {
    ghost predicate Valid() {
      && 3 <= elems <= Pow2(maxLength) && 2 * elems + 1 <= HEAP_SIZE && 1 <= maxLength <= MAX_BITS
      && base + |extra| >= elems
      && (forall i :: 0 <= i < 3 ==> ExtraOf(i) == 0)
      && (lengths.Some? ==> |lengths.value| >= elems)
    }

    function Size(): nat {
      2 * elems + 1
    }

    /** The extra bits of symbol n. */
    function ExtraOf(n: nat): nat {
      if n >= base && n - base < |extra| then extra[n - base] else 0
    }

    /** The static length of symbol n. */
    function StaticOf(n: nat): nat {
      if lengths.Some? && n < |lengths.value| then lengths.value[n] else 0
    }

    function Extras(): (x: seq<nat>)
      ensures |x| == Size()
    {
      seq(Size(), i requires 0 <= i < Size() => ExtraOf(i))
    }

    function Statics(): (x: seq<nat>)
      ensures |x| == Size()
    {
      seq(Size(), i requires 0 <= i < Size() => StaticOf(i))
    }
  }

  /** tree_desc with its ct_data array: fc is the union of frequency and code, dl that of father and length. */
  class Tree {
    const desc: StaticDesc
    const fc: array<nat>
    const dl: array<nat>
    var maxCode: int

    constructor (d: StaticDesc)
      ensures desc == d && Shaped() && fresh(fc) && fresh(dl)
    {
      desc := d;
      maxCode := 0;
      var f, l := new nat[d.Size()](i => 0), new nat[d.Size()](i => 0);
      fc, dl := f, l;
    }

    ghost predicate Shaped() {
      fc.Length == dl.Length == desc.Size() && fc != dl
    }
  }

  /** The queue, the counts by length and the running totals, shared by the three trees. */
  class State {
    const heap: array<nat>
    const depth: array<nat>
    const blCount: array<nat>
    var heapLen: nat
    var heapMax: nat
    var optLen: int
    var staticLen: int

    constructor ()
      ensures Shaped() && fresh(heap) && fresh(depth) && fresh(blCount) && optLen == 0 && staticLen == 0
    {
      heap := new nat[HEAP_SIZE](i => 0);
      depth := new nat[HEAP_SIZE](i => 0);
      blCount := new nat[MAX_BITS + 1](i => 0);
      heapLen, heapMax, optLen, staticLen := 0, HEAP_SIZE, 0, 0;
    }

    ghost predicate Shaped() {
      && heap.Length == depth.Length == HEAP_SIZE && blCount.Length == MAX_BITS + 1
      && heap != depth && heap != blCount && depth != blCount
    }
  }

  /** A state and a tree with no array in common. */
  ghost predicate Apart(s: State, t: Tree) {
    && s.Shaped() && t.Shaped() && t.desc.Valid()
    && s.heap !in {t.fc, t.dl} && s.depth !in {t.fc, t.dl} && s.blCount !in {t.fc, t.dl}
  }
}
