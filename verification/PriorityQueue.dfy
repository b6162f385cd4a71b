/**
 pqdownheap: the binary heap of nodes, least frequent on top, with the depth of the
 subtree as tie breaker.
 */
module PriorityQueue {

  /** The `smaller` macro: n may stand above m. */
  predicate Smaller(freq: seq<nat>, depth: seq<nat>, n: nat, m: nat)
    requires n < |freq| && m < |freq| && n < |depth| && m < |depth|
  {
    freq[n] < freq[m] || (freq[n] == freq[m] && depth[n] <= depth[m])
  }

  /** All entries of the queue are nodes. */
  ghost predicate Nodes(heap: seq<nat>, len: nat, size: nat) {
    len < |heap| && forall i :: 1 <= i <= len ==> heap[i] < size
  }

  /** Every father at or above index k stands above its sons. */
  ghost predicate HeapFrom(heap: seq<nat>, len: nat, freq: seq<nat>, depth: seq<nat>, k: nat)
    requires |freq| <= |depth| && Nodes(heap, len, |freq|)
  {
    forall j :: 2 <= j <= len && j / 2 >= k ==> j / 2 >= 1 && Smaller(freq, depth, heap[j / 2], heap[j])
  }

  /** The least element is on top: the lightest, and of several of the same weight the lowest. */
  lemma {:induction false} TopIsLeast(heap: seq<nat>, len: nat, freq: seq<nat>, depth: seq<nat>, j: nat)
    requires |freq| <= |depth| && Nodes(heap, len, |freq|) && HeapFrom(heap, len, freq, depth, 1) && 1 <= j <= len
    ensures freq[heap[1]] < freq[heap[j]] || (freq[heap[1]] == freq[heap[j]] && depth[heap[1]] <= depth[heap[j]])
    decreases j
  {
    if j > 1 {
      assert Smaller(freq, depth, heap[j / 2], heap[j]);
      TopIsLeast(heap, len, freq, depth, j / 2);
    }
  }

  /** The heap with v in the hole at k, while v is on its way down from `top`. */
  ghost predicate Sifting(heap: seq<nat>, len: nat, freq: seq<nat>, depth: seq<nat>, top: nat, k: nat, v: nat)
    requires |freq| <= |depth| && Nodes(heap, len, |freq|) && v < |freq|
  {
    && 1 <= top <= k <= len
    && (forall j :: 2 <= j <= len && j / 2 >= top && j / 2 != k && j != k ==> Smaller(freq, depth, heap[j / 2], heap[j]))
    && (k / 2 >= top ==>
          && Smaller(freq, depth, heap[k / 2], v)
          && forall j :: 2 <= j <= len && j / 2 == k ==> Smaller(freq, depth, heap[k / 2], heap[j]))
  }

  /** The son that the sift looks at: the smaller of the two. */
  ghost predicate LeastSon(heap: seq<nat>, len: nat, freq: seq<nat>, depth: seq<nat>, k: nat, j: nat)
    requires |freq| <= |depth| && Nodes(heap, len, |freq|)
  {
    && 1 <= k && 2 <= j <= len && j / 2 == k
    && forall i :: 2 <= i <= len && i / 2 == k ==> Smaller(freq, depth, heap[j], heap[i])
  }

  /** Moving the smaller son up. */
  lemma SiftDown(heap: seq<nat>, len: nat, freq: seq<nat>, depth: seq<nat>, top: nat, k: nat, v: nat, j: nat)
    requires |freq| <= |depth| && Nodes(heap, len, |freq|) && v < |freq|
    requires Sifting(heap, len, freq, depth, top, k, v) && LeastSon(heap, len, freq, depth, k, j)
    requires !Smaller(freq, depth, v, heap[j])
    ensures Nodes(heap[k := heap[j]], len, |freq|) && Sifting(heap[k := heap[j]], len, freq, depth, top, j, v)
  {
    var heap' := heap[k := heap[j]];
    forall i | 2 <= i <= len && i / 2 >= top && i / 2 != j && i != j
      ensures Smaller(freq, depth, heap'[i / 2], heap'[i])
    {
      if i == k {
        assert k / 2 >= top;
      } else if i / 2 == k {
        assert Smaller(freq, depth, heap[j], heap[i]);
      }
    }
    forall i | 2 <= i <= len && i / 2 == j
      ensures Smaller(freq, depth, heap'[j / 2], heap'[i])
    {
      assert Smaller(freq, depth, heap[i / 2], heap[i]);
    }
  }

  /** v is below neither son of k. */
  ghost predicate Seated(heap: seq<nat>, len: nat, freq: seq<nat>, depth: seq<nat>, k: nat, v: nat)
    requires |freq| <= |depth| && Nodes(heap, len, |freq|) && v < |freq|
  {
    forall i :: 2 <= i <= len && i / 2 == k ==> Smaller(freq, depth, v, heap[i])
  }

  lemma SeatedOverLeast(heap: seq<nat>, len: nat, freq: seq<nat>, depth: seq<nat>, k: nat, v: nat, j: nat)
    requires |freq| <= |depth| && Nodes(heap, len, |freq|) && v < |freq|
    requires LeastSon(heap, len, freq, depth, k, j) && Smaller(freq, depth, v, heap[j])
    ensures Seated(heap, len, freq, depth, k, v)
  {
  }

  lemma SeatedAtBottom(heap: seq<nat>, len: nat, freq: seq<nat>, depth: seq<nat>, k: nat, v: nat)
    requires |freq| <= |depth| && Nodes(heap, len, |freq|) && v < |freq| && 2 * k > len
    ensures Seated(heap, len, freq, depth, k, v)
  {
  }

  /** Putting v into the hole once it is below neither son. */
  lemma SiftDone(heap: seq<nat>, len: nat, freq: seq<nat>, depth: seq<nat>, top: nat, k: nat, v: nat)
    requires |freq| <= |depth| && Nodes(heap, len, |freq|) && v < |freq|
    requires Sifting(heap, len, freq, depth, top, k, v) && Seated(heap, len, freq, depth, k, v)
    ensures Nodes(heap[k := v], len, |freq|) && HeapFrom(heap[k := v], len, freq, depth, top)
  {
    var heap' := heap[k := v];
    forall i | 2 <= i <= len && i / 2 >= top
      ensures Smaller(freq, depth, heap'[i / 2], heap'[i])
    {
      if i == k {
        assert k / 2 >= top;
      }
    }
  }

  /** The entries outside lo..hi are as they were. */
  ghost predicate SameOutside(s: seq<nat>, h: seq<nat>, lo: nat, hi: nat) {
    |s| == |h| && forall i :: 0 <= i < |s| && (i < lo || i > hi) ==> h[i] == s[i]
  }

  /** The queue s with v lifted out, leaving the hole at k. */
  ghost predicate Lifted(s: seq<nat>, h: seq<nat>, lo: nat, hi: nat, k: nat, v: nat) {
    lo <= k <= hi < |h| && SameOutside(s, h, lo, hi) && multiset(h[k := v]) == multiset(s)
  }

  lemma LiftedStart(s: seq<nat>, lo: nat, hi: nat)
    requires lo <= hi < |s|
    ensures Lifted(s, s, lo, hi, lo, s[lo])
  {
    assert s[lo := s[lo]] == s;
  }

  lemma LiftedStep(s: seq<nat>, h: seq<nat>, lo: nat, hi: nat, k: nat, v: nat, j: nat)
    requires Lifted(s, h, lo, hi, k, v) && k < j <= hi
    ensures Lifted(s, h[k := h[j]], lo, hi, j, v)
  {
    var g := h[k := v];
    assert h[k := h[j]][j := v] == g[k := g[j]][j := g[k]];
  }

  lemma SiftStart(heap: seq<nat>, len: nat, freq: seq<nat>, depth: seq<nat>, top: nat)
    requires |freq| <= |depth| && Nodes(heap, len, |freq|) && 1 <= top <= len
    requires HeapFrom(heap, len, freq, depth, top + 1)
    ensures heap[top] < |freq| && Sifting(heap, len, freq, depth, top, top, heap[top])
  {
  }

  /** pqdownheap: restore the heap order at and below k, moving only entries from k on. */
  method PqDownHeap(heap: array<nat>, len: nat, freq: array<nat>, depth: array<nat>, k0: nat)
    requires heap != freq && heap != depth && freq.Length <= depth.Length
    requires 1 <= k0 <= len && Nodes(heap[..], len, freq.Length)
    requires HeapFrom(heap[..], len, freq[..], depth[..], k0 + 1)
    modifies heap
    ensures Nodes(heap[..], len, freq.Length) && HeapFrom(heap[..], len, freq[..], depth[..], k0)
    ensures multiset(heap[..]) == multiset(old(heap[..]))
    ensures SameOutside(old(heap[..]), heap[..], k0, len)
  {
    hide Smaller, HeapFrom, Sifting, LeastSon, Seated, Lifted;
    ghost var s, f, d := heap[..], freq[..], depth[..];
    SiftStart(s, len, f, d, k0);
    LiftedStart(s, k0, len);
    var k: nat := k0;
    var v: nat := heap[k];
    var j: nat := 2 * k;
    while j <= len
      invariant 1 <= k0 <= k <= len && j == 2 * k && v < |f|
      invariant Nodes(heap[..], len, |f|) && Sifting(heap[..], len, f, d, k0, k, v)
      invariant Lifted(s, heap[..], k0, len, k, v)
      decreases len - k
    {
      j := SmallestSon(heap, len, freq, depth, k);
      var done := Less(freq, depth, v, heap[j]);
      if done {
        SeatedOverLeast(heap[..], len, f, d, k, v, j);
        break;
      }
      ghost var h := heap[..];
      SiftDown(h, len, f, d, k0, k, v, j);
      LiftedStep(s, h, k0, len, k, v, j);
      heap[k] := heap[j];
      assert heap[..] == h[k := h[j]];
      k := j;
      j := 2 * j;
    }
    if 2 * k > len {
      SeatedAtBottom(heap[..], len, f, d, k, v);
    }
    SiftDone(heap[..], len, f, d, k0, k, v);
    LiftedEnd(s, heap[..], k0, len, k, v);
    ghost var h := heap[..];
    heap[k] := v;
    assert heap[..] == h[k := v];
  }

  lemma LiftedEnd(s: seq<nat>, h: seq<nat>, lo: nat, hi: nat, k: nat, v: nat)
    requires Lifted(s, h, lo, hi, k, v)
    ensures SameOutside(s, h[k := v], lo, hi) && multiset(h[k := v]) == multiset(s)
  {
  }

  /** The smaller son of k, the left one if they tie the other way. */
  method SmallestSon(heap: array<nat>, len: nat, freq: array<nat>, depth: array<nat>, k: nat) returns (j: nat)
    requires freq.Length <= depth.Length && 1 <= k && 2 * k <= len && Nodes(heap[..], len, freq.Length)
    ensures k < j <= len && LeastSon(heap[..], len, freq[..], depth[..], k, j)
  {
    j := 2 * k;
    if j < len {
      var right := Less(freq, depth, heap[j + 1], heap[j]);
      if right {
        j := j + 1;
      }
    }
  }

  method Less(freq: array<nat>, depth: array<nat>, n: nat, m: nat) returns (b: bool)
    requires freq.Length <= depth.Length && n < freq.Length && m < freq.Length
    ensures b == Smaller(freq[..], depth[..], n, m)
  {
    b := freq[n] < freq[m] || (freq[n] == freq[m] && depth[n] <= depth[m]);
  }

  // ----- the queue as a set of nodes

  /** The queue holds the nodes of a, each once. */
  ghost predicate Queue(heap: seq<nat>, len: nat, a: set<nat>) {
    len < |heap| && multiset(heap[1..len + 1]) == multiset(a)
  }

  lemma QueueHas(heap: seq<nat>, len: nat, a: set<nat>, j: nat)
    requires Queue(heap, len, a) && 1 <= j <= len
    ensures heap[j] in a
  {
    assert heap[1..len + 1][j - 1] in multiset(heap[1..len + 1]);
  }

  lemma QueueFinds(heap: seq<nat>, len: nat, a: set<nat>, x: nat) returns (j: nat)
    requires Queue(heap, len, a) && x in a
    ensures 1 <= j <= len && heap[j] == x
  {
    assert x in multiset(heap[1..len + 1]);
    var i :| 0 <= i < len && heap[1..len + 1][i] == x;
    j := i + 1;
  }

  lemma QueueSize(heap: seq<nat>, len: nat, a: set<nat>)
    requires Queue(heap, len, a)
    ensures |a| == len
  {
    assert |multiset(a)| == |a|;
  }

  lemma MultisetParts(s: seq<nat>, i: nat, j: nat)
    requires i <= j <= |s|
    ensures multiset(s) == multiset(s[..i]) + multiset(s[j..]) + multiset(s[i..j])
  {
    assert s == s[..i] + s[i..j] + s[j..];
  }

  lemma SameRest(ends: multiset<nat>, x: multiset<nat>, y: multiset<nat>, all: multiset<nat>)
    requires ends + x == all && ends + y == all
    ensures x == y
  {
    assert x == all - ends && y == all - ends;
  }

  /** Sifting keeps the nodes. */
  lemma QueueSifted(s: seq<nat>, h: seq<nat>, len: nat, a: set<nat>, k: nat)
    requires Queue(s, len, a) && SameOutside(s, h, k, len) && multiset(s) == multiset(h) && k >= 1
    ensures Queue(h, len, a)
  {
    MultisetParts(s, 1, len + 1);
    MultisetParts(h, 1, len + 1);
    assert s[..1] == h[..1] && s[len + 1..] == h[len + 1..];
    var ends := multiset(s[..1]) + multiset(s[len + 1..]);
    SameRest(ends, multiset(s[1..len + 1]), multiset(h[1..len + 1]), multiset(s));
  }

  /** Overwriting the top with the last entry takes the top out. */
  lemma QueuePopped(heap: seq<nat>, len: nat, a: set<nat>)
    requires Queue(heap, len, a) && len >= 2
    ensures heap[1] in a && Queue(heap[1 := heap[len]], len - 1, a - {heap[1]})
  {
    var h := heap[1 := heap[len]];
    QueueHas(heap, len, a, 1);
    assert heap[1..len + 1] == [heap[1]] + heap[2..len] + [heap[len]];
    assert h[1..len] == [heap[len]] + heap[2..len];
    assert multiset(a - {heap[1]}) == multiset(a) - multiset{heap[1]};
  }

  /** Overwriting the top with a new node. */
  lemma QueueReplaced(heap: seq<nat>, len: nat, a: set<nat>, node: nat)
    requires Queue(heap, len, a) && len >= 1 && node !in a
    ensures heap[1] in a && Queue(heap[1 := node], len, a - {heap[1]} + {node})
  {
    var h := heap[1 := node];
    QueueHas(heap, len, a, 1);
    assert heap[1..len + 1] == [heap[1]] + heap[2..len + 1];
    assert h[1..len + 1] == [node] + heap[2..len + 1];
    assert multiset(a - {heap[1]} + {node}) == multiset(a) - multiset{heap[1]} + multiset{node};
  }

  /** The top is a lightest node. */
  lemma QueueTop(heap: seq<nat>, len: nat, freq: seq<nat>, depth: seq<nat>, a: set<nat>)
    requires |freq| <= |depth| && Nodes(heap, len, |freq|) && HeapFrom(heap, len, freq, depth, 1)
    requires Queue(heap, len, a) && len >= 1
    ensures heap[1] in a
    ensures forall x :: x in a ==> x < |freq| && (freq[heap[1]] < freq[x] || (freq[heap[1]] == freq[x] && depth[heap[1]] <= depth[x]))
  {
    QueueHas(heap, len, a, 1);
    forall x | x in a
      ensures x < |freq| && (freq[heap[1]] < freq[x] || (freq[heap[1]] == freq[x] && depth[heap[1]] <= depth[x]))
    {
      var j := QueueFinds(heap, len, a, x);
      TopIsLeast(heap, len, freq, depth, j);
    }
  }

  /** The heap order looks at the nodes in the queue only, and below the top not at the top. */
  lemma HeapKept(heap: seq<nat>, len: nat, freq: seq<nat>, depth: seq<nat>,
                 heap': seq<nat>, len': nat, freq': seq<nat>, depth': seq<nat>)
    requires |freq| <= |depth| && Nodes(heap, len, |freq|) && HeapFrom(heap, len, freq, depth, 1)
    requires |freq'| <= |depth'| && Nodes(heap', len', |freq'|) && len' <= len && |freq| <= |freq'|
    requires forall j :: 2 <= j <= len' ==> heap'[j] == heap[j]
    requires forall j :: 2 <= j <= len' ==> freq'[heap[j]] == freq[heap[j]] && depth'[heap[j]] == depth[heap[j]]
    ensures HeapFrom(heap', len', freq', depth', 2)
  {
    forall j | 2 <= j <= len' && j / 2 >= 2
      ensures Smaller(freq', depth', heap'[j / 2], heap'[j])
    {
      assert Smaller(freq, depth, heap[j / 2], heap[j]);
    }
  }
}
