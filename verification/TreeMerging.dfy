/**
 One round of the merge loop of build_tree, on the values of the arrays: the queue, the nodes
 that left it stacked from the top of heap[] downward, and the fathers.
 */
module TreeMerging {
  import opened Sums
  import opened HuffmanTheory
  import opened HuffmanRuns
  import opened HuffmanHeights
  import opened PriorityQueue

  /** HEAP_SIZE: room for the 2 * 286 + 1 nodes of the largest tree. */
  const HEAP_SIZE: nat := 573

  /** The arrays that the merge loop works on; dad shares its array with the lengths. */
  datatype Forest = Forest(heap: seq<nat>, len: nat, freq: seq<nat>, depth: seq<nat>, dad: seq<nat>)

  /** The nodes that left the queue lie at the end of the heap array, the first of them last. */
  ghost predicate Ordered(heap: seq<nat>, merges: seq<Merge>) {
    |heap| == HEAP_SIZE && 2 * |merges| < HEAP_SIZE
    && forall p :: 0 <= p < 2 * |merges| ==> heap[HEAP_SIZE - 1 - p] == Son(merges, p)
  }

  /** The sons of merge t have node first + t for father. */
  ghost predicate Fathered(dad: seq<nat>, merges: seq<Merge>, first: nat) {
    forall p :: 0 <= p < 2 * |merges| ==> Son(merges, p) < |dad| && dad[Son(merges, p)] == first + p / 2
  }

  ghost predicate Sized(s: Forest, first: nat) {
    && |s.freq| == |s.dad| == 2 * first + 1 <= HEAP_SIZE
    && |s.heap| == |s.depth| == HEAP_SIZE
    && Nodes(s.heap, s.len, |s.freq|)
  }

  ghost predicate Merging(leaves: set<nat>, merges: seq<Merge>, first: nat, s: Forest) {
    && Sized(s, first) && 1 <= s.len && s.len + |merges| == |leaves| <= first
    && RunTo(leaves, s.freq, merges, first)
    && Queue(s.heap, s.len, Active(leaves, merges, first, |merges|))
    && HeapFrom(s.heap, s.len, s.freq, s.depth, 1)
    && Ordered(s.heap, merges) && Fathered(s.dad, merges, first)
    && (forall i :: i in leaves ==> s.freq[i] >= 1) && Deep(s.depth, leaves, merges, first)
    && LowestRun(leaves, s.freq, merges, first)
  }

  // ----- taking the lightest node off

  ghost function Popped(s: Forest): (p: Forest)
    requires 2 <= s.len < |s.heap|
    ensures |p.heap| == |s.heap|
  {
    s.(heap := s.heap[1 := s.heap[s.len]], len := s.len - 1)
  }

  lemma PoppedQueue(s: Forest, first: nat, a: set<nat>)
    requires Sized(s, first) && s.len >= 2 && Queue(s.heap, s.len, a) && HeapFrom(s.heap, s.len, s.freq, s.depth, 1)
    ensures s.heap[1] in a
    ensures forall x :: x in a ==>
              && x < |s.freq|
              && (s.freq[s.heap[1]] < s.freq[x] || (s.freq[s.heap[1]] == s.freq[x] && s.depth[s.heap[1]] <= s.depth[x]))
    ensures var p := Popped(s);
            && Sized(p, first) && Queue(p.heap, p.len, a - {s.heap[1]}) && HeapFrom(p.heap, p.len, s.freq, s.depth, 2)
  {
    hide HeapFrom, Queue;
    QueueTop(s.heap, s.len, s.freq, s.depth, a);
    QueuePopped(s.heap, s.len, a);
    var p := Popped(s);
    HeapKept(s.heap, s.len, s.freq, s.depth, p.heap, p.len, s.freq, s.depth);
  }

  /** Once the queue is in order again, its top is the next lightest. */
  lemma NextLightest(s: Forest, first: nat, a: set<nat>, h: seq<nat>)
    requires Sized(s, first) && s.len >= 2 && Queue(s.heap, s.len, a) && HeapFrom(s.heap, s.len, s.freq, s.depth, 1)
    requires Nodes(h, s.len - 1, |s.freq|) && HeapFrom(h, s.len - 1, s.freq, s.depth, 1)
    requires multiset(h) == multiset(Popped(s).heap) && SameOutside(Popped(s).heap, h, 1, s.len - 1)
    ensures TwoLightest(a, s.freq, s.heap[1], h[1]) && LowestTwo(a, s.freq, s.depth, s.heap[1], h[1])
    ensures Queue(h, s.len - 1, a - {s.heap[1]})
  {
    hide HeapFrom, Queue, SameOutside;
    PoppedQueue(s, first, a);
    var p := Popped(s);
    QueueSifted(p.heap, h, p.len, a - {s.heap[1]}, 1);
    QueueTop(h, p.len, s.freq, s.depth, a - {s.heap[1]});
  }

  // ----- putting their father in

  /** n and m stacked, their father made and put on top of the queue. */
  ghost function Joined(s: Forest, h: seq<nat>, n: nat, m: nat, depthOfNode: nat, node: nat, max: nat): (j: Forest)
    requires n < |s.freq| && m < |s.freq| && node < |s.freq| <= |s.depth| && |s.freq| == |s.dad|
    requires 2 <= max <= |h| && 1 < |h| && s.len >= 1
    ensures |j.heap| == |h| && |j.freq| == |s.freq| && |j.depth| == |s.depth| && |j.dad| == |s.dad|
  {
    Forest(h[max - 1 := n][max - 2 := m][1 := node], s.len - 1, s.freq[node := s.freq[n] + s.freq[m]],
           s.depth[node := depthOfNode], s.dad[n := node][m := node])
  }

  /** What is needed of the state just after the pop has been sifted. */
  ghost predicate Sifted(leaves: set<nat>, merges: seq<Merge>, first: nat, s: Forest, h: seq<nat>) {
    && Merging(leaves, merges, first, s) && s.len >= 2
    && Nodes(h, s.len - 1, |s.freq|) && HeapFrom(h, s.len - 1, s.freq, s.depth, 1)
    && multiset(h) == multiset(Popped(s).heap) && SameOutside(Popped(s).heap, h, 1, s.len - 1)
  }

  lemma SiftedSizes(leaves: set<nat>, merges: seq<Merge>, first: nat, s: Forest, h: seq<nat>)
    requires Sifted(leaves, merges, first, s, h)
    ensures Sized(s, first) && |h| == HEAP_SIZE && 2 <= s.len && s.len + |merges| == |leaves| <= first
    ensures TwoLightest(Active(leaves, merges, first, |merges|), s.freq, s.heap[1], h[1])
    ensures LowestTwo(Active(leaves, merges, first, |merges|), s.freq, s.depth, s.heap[1], h[1])
    ensures s.heap[1] < first + |merges| && h[1] < first + |merges|
    ensures Queue(h, s.len - 1, Active(leaves, merges, first, |merges|) - {s.heap[1]})
    ensures s.freq[s.heap[1]] + s.freq[h[1]] <= SumOver(leaves, s.freq, |s.freq|)
  {
    hide RunTo, Active, SumOver, HeapFrom, Queue, Ordered, Fathered, Deep, LowestRun;
    NextLightest(s, first, Active(leaves, merges, first, |merges|), h);
    PairBounded(leaves, s.freq, merges, first, s.heap[1], h[1]);
    QueueBelow(leaves, s.freq, merges, first, |merges|);
  }

  /** The heap order below the top does not notice. */
  lemma JoinedHeap(s: Forest, first: nat, a: set<nat>, h: seq<nat>, n: nat, m: nat, dv: nat, node: nat, max: nat)
    requires Sized(s, first) && |h| == HEAP_SIZE && s.len >= 2 && s.len - 1 < max - 2 && max <= HEAP_SIZE
    requires Nodes(h, s.len - 1, |s.freq|) && HeapFrom(h, s.len - 1, s.freq, s.depth, 1)
    requires Queue(h, s.len - 1, a - {n}) && n in a && m == h[1] && node !in a && node < |s.freq| && n < |s.freq|
    ensures var j := Joined(s, h, n, m, dv, node, max);
            && Sized(j, first) && Queue(j.heap, j.len, Merged(a, n, m, node))
            && HeapFrom(j.heap, j.len, j.freq, j.depth, 2)
  {
    hide HeapFrom, Queue;
    var j := Joined(s, h, n, m, dv, node, max);
    var g := h[max - 1 := n][max - 2 := m];
    QueueStacked(h, g, s.len - 1, a - {n});
    QueueReplaced(g, s.len - 1, a - {n}, node);
    assert a - {n} - {m} + {node} == Merged(a, n, m, node);
    forall i | 2 <= i <= s.len - 1
      ensures j.freq[h[i]] == s.freq[h[i]] && j.depth[h[i]] == s.depth[h[i]] && j.heap[i] == h[i]
    {
      QueueHas(h, s.len - 1, a - {n}, i);
    }
    HeapKept(h, s.len - 1, s.freq, s.depth, j.heap, j.len, j.freq, j.depth);
  }

  lemma QueueStacked(h: seq<nat>, g: seq<nat>, len: nat, a: set<nat>)
    requires Queue(h, len, a) && |g| == |h| && forall i :: 1 <= i <= len ==> g[i] == h[i]
    ensures Queue(g, len, a)
  {
    assert g[1..len + 1] == h[1..len + 1];
  }

  lemma OrderGrows(heap: seq<nat>, merges: seq<Merge>, x: Merge, h: seq<nat>, len: nat)
    requires Ordered(heap, merges) && |h| == HEAP_SIZE && 2 * |merges| + 2 < HEAP_SIZE - len
    requires forall i :: HEAP_SIZE - 2 * |merges| <= i < HEAP_SIZE ==> h[i] == heap[i]
    requires h[HEAP_SIZE - 2 * |merges| - 1] == x.n && h[HEAP_SIZE - 2 * |merges| - 2] == x.m
    ensures Ordered(h, merges + [x])
  {
    forall p | 0 <= p < 2 * |merges + [x]|
      ensures h[HEAP_SIZE - 1 - p] == Son(merges + [x], p)
    {
      if p < 2 * |merges| {
        assert Son(merges + [x], p) == Son(merges, p);
      }
    }
  }

  lemma FathersGrow(leaves: set<nat>, w: seq<nat>, dad: seq<nat>, merges: seq<Merge>, first: nat, x: Merge)
    requires RunTo(leaves, w, merges, first) && TwoLightest(Active(leaves, merges, first, |merges|), w, x.n, x.m)
    requires Fathered(dad, merges, first) && x.n < |dad| && x.m < |dad|
    ensures Fathered(dad[x.n := first + |merges|][x.m := first + |merges|], merges + [x], first)
  {
    hide RunTo, Active;
    forall p | 0 <= p < 2 * |merges + [x]|
      ensures var d := dad[x.n := first + |merges|][x.m := first + |merges|];
              Son(merges + [x], p) < |d| && d[Son(merges + [x], p)] == first + p / 2
    {
      if p < 2 * |merges| {
        assert Son(merges + [x], p) == Son(merges, p);
        Gone(leaves, w, merges, first, p / 2, |merges|);
      }
    }
  }

  /** r is what the round leaves, once the new top has been sifted too. */
  ghost predicate Rounded(leaves: set<nat>, merges: seq<Merge>, first: nat, s: Forest, h: seq<nat>, dv: nat, r: Forest)
    requires Sifted(leaves, merges, first, s, h)
  {
    SiftedSizes(leaves, merges, first, s, h);
    var j := Joined(s, h, s.heap[1], h[1], dv, first + |merges|, HEAP_SIZE - 2 * |merges|);
    && dv == Max(s.depth[s.heap[1]], s.depth[h[1]]) + 1
    && r == j.(heap := r.heap)
    && Nodes(r.heap, j.len, |j.freq|) && HeapFrom(r.heap, j.len, j.freq, j.depth, 1)
    && multiset(r.heap) == multiset(j.heap) && SameOutside(j.heap, r.heap, 1, j.len)
  }

  /** The whole round keeps the invariant of the loop. */
  lemma RoundDone(leaves: set<nat>, merges: seq<Merge>, first: nat, s: Forest, h: seq<nat>, dv: nat, r: Forest)
    requires Sifted(leaves, merges, first, s, h) && Rounded(leaves, merges, first, s, h, dv, r)
    ensures Merging(leaves, merges + [Merge(s.heap[1], h[1])], first, r)
  {
    hide RunTo, Active, HeapFrom, Queue, Ordered, Fathered, TwoLightest, Merged, SumOver, LowestTwo, Deep, LowestRun, Max;
    SiftedSizes(leaves, merges, first, s, h);
    var t, n, m, node := |merges|, s.heap[1], h[1], first + |merges|;
    var x, max, a := Merge(n, m), HEAP_SIZE - 2 * |merges|, Active(leaves, merges, first, |merges|);
    var j := Joined(s, h, n, m, dv, node, max);
    FreshNode(leaves, s.freq, merges, first, n, m);
    JoinedHeap(s, first, a, h, n, m, dv, node, max);
    QueueSifted(j.heap, r.heap, j.len, Merged(a, n, m, node), 1);
    RunGrows(leaves, s.freq, merges, first, x);
    OrderGrows(s.heap, merges, x, r.heap, j.len);
    FathersGrow(leaves, s.freq, s.dad, merges, first, x);
    PairKnown(leaves, s.freq, merges, first, n, m);
    DeepGrows(s.depth, leaves, merges, first, x, dv);
    LowestGrows(leaves, s.freq, s.depth, merges, first, x);
  }

  lemma PairKnown(leaves: set<nat>, w: seq<nat>, merges: seq<Merge>, first: nat, n: nat, m: nat)
    requires RunTo(leaves, w, merges, first) && TwoLightest(Active(leaves, merges, first, |merges|), w, n, m)
    ensures n in Active(leaves, merges, first, |merges|) && m in Active(leaves, merges, first, |merges|)
    ensures (n in leaves || first <= n < first + |merges|) && (m in leaves || first <= m < first + |merges|)
    ensures forall i :: i in leaves ==> i < first
  {
    hide Active;
    Known(leaves, w, merges, first, |merges|);
  }

  /** The heights of the pair fit a byte. */
  lemma PairFits(leaves: set<nat>, merges: seq<Merge>, first: nat, s: Forest, h: seq<nat>)
    requires Sifted(leaves, merges, first, s, h) && SumOver(leaves, s.freq, |s.freq|) < 0x1_0000
    ensures |s.depth| == HEAP_SIZE && s.heap[1] < HEAP_SIZE && |h| == HEAP_SIZE && h[1] < HEAP_SIZE
    ensures s.depth[s.heap[1]] <= 22 && s.depth[h[1]] <= 22
  {
    hide RunTo, Active, HeapFrom, Queue, Ordered, Fathered, TwoLightest, Merged, SumOver, LowestTwo, LowestRun;
    SiftedSizes(leaves, merges, first, s, h);
    PairKnown(leaves, s.freq, merges, first, s.heap[1], h[1]);
    HeightFits(leaves, s.freq, merges, first, s.heap[1]);
    HeightFits(leaves, s.freq, merges, first, h[1]);
  }

  lemma FreshNode(leaves: set<nat>, w: seq<nat>, merges: seq<Merge>, first: nat, n: nat, m: nat)
    requires RunTo(leaves, w, merges, first) && TwoLightest(Active(leaves, merges, first, |merges|), w, n, m)
    ensures n in Active(leaves, merges, first, |merges|) && first + |merges| !in Active(leaves, merges, first, |merges|)
  {
    QueueBelow(leaves, w, merges, first, |merges|);
  }
}
