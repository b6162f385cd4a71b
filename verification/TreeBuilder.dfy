/**
 build_tree up to gen_bitlen: the queue of used symbols, the codes forced so that there are
 two at least, and the merge loop.
 */
module TreeBuilder {
  import opened Options
  import opened Sums
  import opened HuffmanTheory
  import opened HuffmanRuns
  import opened HuffmanHeights
  import opened PriorityQueue
  import opened TreeMerging
  import opened TreeLengths
  import opened DeflateState

  // ----- which symbols get a code

  /** The symbols that get a code although they do not occur. */
  function Forced(a: set<nat>): set<nat> {
    if |a| >= 2 then {}
    else if a == {} then {0, 1}
    else if 0 in a then {1}
    else if 1 in a then {2}
    else {0}
  }

  /** "node is 0 or 1" holds unless symbol 1 is the only one that occurs. */
  lemma ForcedIsZeroOrOne(u: set<nat>)
    ensures Forced({1}) == {2}
    ensures Forced(u) <= {0, 1} <==> u != {1}
  {
    assert |{1 as nat}| == 1;
    if |u| == 1 && 1 in u {
      var rest := u - {1};
      assert |rest| == 0 && u == {1} + rest;
    }
  }

  function Coded(f: seq<nat>, n: nat): set<nat>
    requires n <= |f|
  {
    Used(f, n) + Forced(Used(f, n))
  }

  /** Frequencies with those of the forced symbols set to 1. */
  function Topped(f: seq<nat>, more: set<nat>): (g: seq<nat>)
    ensures |g| == |f|
  {
    seq(|f|, i requires 0 <= i < |f| => if i in more then 1 else f[i])
  }

  lemma GreatestNext(a: set<nat>, m: int, n: nat)
    requires forall i :: i in a ==> i < n
    ensures Greatest(a + {n}, n)
  {
  }

  lemma QueueAppended(heap: seq<nat>, len: nat, a: set<nat>, x: nat)
    requires Queue(heap, len, a) && len + 1 < |heap| && x !in a
    ensures Queue(heap[len + 1 := x], len + 1, a + {x})
  {
    assert heap[len + 1 := x][1..len + 2] == heap[1..len + 1] + [x];
    assert multiset(a + {x}) == multiset(a) + multiset{x};
  }

  lemma QueueEmpty(heap: seq<nat>)
    requires |heap| > 0
    ensures Queue(heap, 0, {})
  {
    assert heap[1..1] == [] by { assert |heap| >= 1; }
  }

  /** No element of a exceeds m, which is one unless a is empty. */
  ghost predicate Greatest(a: set<nat>, m: int) {
    m >= -1 && (forall x :: x in a ==> x <= m) && (a != {} ==> m in a) && (a == {} ==> m == -1)
  }

  /** Symbols that get no code have length 0. */
  ghost predicate ZeroOutside(l: seq<nat>, a: set<nat>, n: nat) {
    n <= |l| && forall i :: 0 <= i < n && i !in a ==> l[i] == 0
  }

  /** Leaves have no height. */
  ghost predicate ZeroIn(depth: seq<nat>, a: set<nat>) {
    forall i :: i in a ==> i < |depth| && depth[i] == 0
  }

  /** The first loop: symbols that occur enter the queue, the others get length 0. */
  method InitHeap(s: State, t: Tree)
    requires Apart(s, t)
    modifies s`heapLen, s`heapMax, s.heap, s.depth, t`maxCode, t.dl
    ensures s.heapMax == HEAP_SIZE
    ensures var a := Used(t.fc[..], t.desc.elems);
            && Queue(s.heap[..], s.heapLen, a) && Nodes(s.heap[..], s.heapLen, t.desc.elems) && Greatest(a, t.maxCode)
            && ZeroOutside(t.dl[..], a, t.desc.elems) && ZeroIn(s.depth[..], a)
  {
    hide Queue, Used, Greatest;
    s.heapLen, s.heapMax := 0, HEAP_SIZE;
    t.maxCode := -1;
    ghost var f := t.fc[..];
    QueueEmpty(s.heap[..]);
    UsedNone(f);
    var n: nat := 0;
    while n < t.desc.elems
      invariant n <= t.desc.elems && s.heapLen <= n && s.heapMax == HEAP_SIZE
      invariant Queue(s.heap[..], s.heapLen, Used(f, n)) && Nodes(s.heap[..], s.heapLen, n) && Greatest(Used(f, n), t.maxCode)
      invariant forall i :: 0 <= i < n && i !in Used(f, n) ==> t.dl[i] == 0
      invariant forall i :: i in Used(f, n) ==> i < n && s.depth[i] == 0
    {
      UsedNext(f, n);
      if t.fc[n] != 0 {
        Enqueue(s, n, Used(f, n));
        GreatestNext(Used(f, n), t.maxCode, n);
        t.maxCode := n;
        s.depth[n] := 0;
      } else {
        t.dl[n] := 0;
      }
      n := n + 1;
    }
  }

  /** A symbol goes to the end of the queue. */
  method Enqueue(s: State, n: nat, ghost a: set<nat>)
    requires s.Shaped() && s.heapLen + 1 < s.heap.Length && Queue(s.heap[..], s.heapLen, a) && Nodes(s.heap[..], s.heapLen, n) && n !in a
    modifies s`heapLen, s.heap
    ensures s.heapLen == old(s.heapLen) + 1
    ensures Queue(s.heap[..], s.heapLen, a + {n}) && Nodes(s.heap[..], s.heapLen, n + 1)
  {
    hide Queue;
    ghost var h := s.heap[..];
    QueueAppended(h, s.heapLen, a, n);
    s.heapLen := s.heapLen + 1;
    s.heap[s.heapLen] := n;
    assert s.heap[..] == h[s.heapLen := n];
  }

  lemma UsedNone(f: seq<nat>)
    ensures Used(f, 0) == {} && Greatest({}, -1)
  {
  }

  /** What Forced adds, one symbol at a time: the symbol after the only one if that is 0 or 1, else 0. */
  lemma ForcedNext(a: set<nat>, m: int)
    requires |a| < 2 && Greatest(a, m)
    ensures m >= -1
    ensures var x: nat := if m < 2 then m + 1 else 0;
            && x !in a && x <= 2 && |a + {x}| == |a| + 1 && Forced(a) == {x} + Forced(a + {x})
            && Greatest(a + {x}, if m < 2 then m + 1 else m)
  {
    if a != {} {
      assert |a - {m}| == 0;
      assert a == {m};
    }
  }

  function StaticSum(desc: StaticDesc, a: set<nat>): nat {
    SumOver(a, desc.Statics(), desc.Size())
  }

  /** After `more` has been added to the used symbols, giving a. */
  ghost predicate Forcing(f: seq<nat>, n: nat, more: set<nat>, a: set<nat>) {
    && n <= |f| && a == Used(f, n) + more && Forced(Used(f, n)) == more + Forced(a) && more !! Used(f, n)
    && forall i :: i in a ==> i < n
  }

  lemma ForcingStart(f: seq<nat>, n: nat)
    requires n <= |f|
    ensures Forcing(f, n, {}, Used(f, n))
  {
  }

  lemma ForcingStep(f: seq<nat>, n: nat, more: set<nat>, a: set<nat>, m: int)
    requires Forcing(f, n, more, a) && |a| < 2 && Greatest(a, m) && n >= 3
    ensures var x: nat := if m < 2 then m + 1 else 0;
            x !in more && x < n && Forcing(f, n, more + {x}, a + {x}) && |more + {x}| == |more| + 1
  {
    hide Used, Forced, Greatest;
    ForcedNext(a, m);
  }

  lemma ForcingDone(f: seq<nat>, n: nat, more: set<nat>, a: set<nat>)
    requires Forcing(f, n, more, a) && |a| >= 2
    ensures more == Forced(Used(f, n)) && a == Coded(f, n) && forall i :: i in a ==> i < n
  {
  }

  method ForceOne(s: State, t: Tree, ghost a: set<nat>) returns (node: nat)
    requires Apart(s, t) && s.heapLen == |a| < 2 && (forall i :: i in a ==> i < t.desc.elems)
    requires Queue(s.heap[..], s.heapLen, a) && Nodes(s.heap[..], s.heapLen, t.desc.elems) && Greatest(a, t.maxCode)
    modifies s`heapLen, s`optLen, s`staticLen, s.heap, s.depth, t`maxCode, t.fc
    ensures node == (if old(t.maxCode) < 2 then old(t.maxCode) + 1 else 0) && node < t.desc.elems
    ensures Queue(s.heap[..], s.heapLen, a + {node}) && Nodes(s.heap[..], s.heapLen, t.desc.elems)
    ensures Greatest(a + {node}, t.maxCode) && s.heapLen == old(s.heapLen) + 1 == |a + {node}|
    ensures t.fc[..] == old(t.fc[..])[node := 1]
    ensures s.optLen == old(s.optLen) - 1
    ensures s.staticLen == old(s.staticLen) - (if t.desc.lengths.Some? then t.desc.lengths.value[node] else 0)
    ensures s.depth[..] == old(s.depth[..])[node := 0]
  {
    hide Queue, Greatest, Forced;
    ForcedNext(a, t.maxCode);
    ghost var h, g := s.heap[..], t.fc[..];
    if t.maxCode < 2 {
      t.maxCode := t.maxCode + 1;
      node := t.maxCode;
    } else {
      node := 0;
    }
    QueueAppended(h, s.heapLen, a, node);
    s.heapLen := s.heapLen + 1;
    s.heap[s.heapLen] := node;
    assert s.heap[..] == h[s.heapLen := node];
    t.fc[node] := 1;
    assert t.fc[..] == g[node := 1];
    ghost var depths := s.depth[..];
    s.depth[node] := 0;
    assert s.depth[..] == depths[node := 0];
    s.optLen := s.optLen - 1;
    if t.desc.lengths.Some? {
      s.staticLen := s.staticLen - t.desc.lengths.value[node];
    }
  }

  /** The second loop: at least two codes. */
  method ForceTwo(s: State, t: Tree)
    requires Apart(s, t)
    requires var a := Used(t.fc[..], t.desc.elems);
             && Queue(s.heap[..], s.heapLen, a) && Nodes(s.heap[..], s.heapLen, t.desc.elems) && Greatest(a, t.maxCode)
             && ZeroIn(s.depth[..], a)
    modifies s`heapLen, s`optLen, s`staticLen, s.heap, s.depth, t`maxCode, t.fc
    ensures var f, n := old(t.fc[..]), t.desc.elems; var a := Coded(f, n);
            && Queue(s.heap[..], s.heapLen, a) && Nodes(s.heap[..], s.heapLen, n) && Greatest(a, t.maxCode)
            && s.heapLen == |a| >= 2 && (forall i :: i in a ==> i < n) && ZeroIn(s.depth[..], a)
            && t.fc[..] == Topped(f, Forced(Used(f, n)))
            && s.optLen == old(s.optLen) - |Forced(Used(f, n))|
            && s.staticLen == old(s.staticLen) - StaticSum(t.desc, Forced(Used(f, n)))
  {
    hide Queue, Used, Forced, StaticSum, Greatest, Topped, Forcing, Coded;
    ghost var f, n := t.fc[..], t.desc.elems;
    ghost var a, more := Used(f, n), {};
    ForcingStart(f, n);
    NothingForced(t.desc, f);
    QueueSize(s.heap[..], s.heapLen, a);
    while s.heapLen < 2
      invariant Queue(s.heap[..], s.heapLen, a) && Nodes(s.heap[..], s.heapLen, n) && Greatest(a, t.maxCode)
      invariant s.heapLen == |a| && Forcing(f, n, more, a) && ZeroIn(s.depth[..], a)
      invariant t.fc[..] == Topped(f, more)
      invariant s.optLen == old(s.optLen) - |more| && s.staticLen == old(s.staticLen) - StaticSum(t.desc, more)
      decreases 2 - s.heapLen
    {
      ForcingStep(f, n, more, a, t.maxCode);
      ForcingBelow(f, n, more, a);
      ghost var node := ForceOne(s, t, a);
      ToppedMore(f, more, node);
      StaticMore(t.desc, more, node);
      a, more := a + {node}, more + {node};
    }
    ForcingDone(f, n, more, a);
  }

  lemma ForcingBelow(f: seq<nat>, n: nat, more: set<nat>, a: set<nat>)
    requires Forcing(f, n, more, a)
    ensures forall i :: i in a ==> i < n
  {
  }

  lemma NothingForced(desc: StaticDesc, f: seq<nat>)
    ensures Topped(f, {}) == f && StaticSum(desc, {}) == 0
  {
    EmptySum(desc.Statics(), desc.Size());
  }

  lemma ToppedMore(f: seq<nat>, more: set<nat>, x: nat)
    requires x < |f|
    ensures Topped(f, more + {x}) == Topped(f, more)[x := 1]
  {
  }

  lemma StaticMore(desc: StaticDesc, more: set<nat>, x: nat)
    requires x !in more && x < desc.elems && desc.Valid()
    ensures StaticSum(desc, more + {x})
         == StaticSum(desc, more) + (if desc.lengths.Some? then desc.lengths.value[x] else 0)
  {
    SumRemove(more + {x}, desc.Statics(), x, desc.Size());
    assert more + {x} - {x} == more;
  }

  // ----- the queue in order

  method Heapify(s: State, t: Tree, ghost a: set<nat>)
    requires Apart(s, t) && Queue(s.heap[..], s.heapLen, a) && Nodes(s.heap[..], s.heapLen, t.fc.Length)
    modifies s.heap
    ensures Queue(s.heap[..], s.heapLen, a) && Nodes(s.heap[..], s.heapLen, t.fc.Length)
    ensures HeapFrom(s.heap[..], s.heapLen, t.fc[..], s.depth[..], 1)
  {
    hide Queue, HeapFrom, SameOutside;
    var n: nat := s.heapLen / 2;
    LeavesInOrder(s.heap[..], s.heapLen, t.fc[..], s.depth[..]);
    while n >= 1
      invariant n <= s.heapLen / 2
      invariant Queue(s.heap[..], s.heapLen, a) && Nodes(s.heap[..], s.heapLen, t.fc.Length)
      invariant HeapFrom(s.heap[..], s.heapLen, t.fc[..], s.depth[..], n + 1)
    {
      ghost var h := s.heap[..];
      PqDownHeap(s.heap, s.heapLen, t.fc, s.depth, n);
      QueueSifted(h, s.heap[..], s.heapLen, a, n);
      n := n - 1;
    }
  }

  lemma LeavesInOrder(heap: seq<nat>, len: nat, freq: seq<nat>, depth: seq<nat>)
    requires |freq| <= |depth| && Nodes(heap, len, |freq|)
    ensures HeapFrom(heap, len, freq, depth, len / 2 + 1)
  {
  }

  // ----- the merge loop

  ghost function Now(s: State, t: Tree): Forest
    reads s, s.heap, s.depth, t.fc, t.dl
  {
    Forest(s.heap[..], s.heapLen, t.fc[..], s.depth[..], t.dl[..])
  }

  /** Nothing below `first` changes but for the fathers of leaves. */
  ghost predicate SymbolsKept(leaves: set<nat>, first: nat, f: seq<nat>, l: seq<nat>, f': seq<nat>, l': seq<nat>) {
    && |f| == |f'| && |l| == |l'| && (forall i :: 0 <= i < first && i < |f| ==> f'[i] == f[i])
    && forall i :: 0 <= i < first && i < |l| && i !in leaves ==> l'[i] == l[i]
  }

  /** A frequency is 16 bits wide. */
  const FREQ_LIMIT: nat := 0x1_0000

  lemma MergingStart(s: Forest, first: nat, leaves: set<nat>)
    requires Sized(s, first) && Queue(s.heap, s.len, leaves) && HeapFrom(s.heap, s.len, s.freq, s.depth, 1)
    requires s.len == |leaves| >= 2 && (forall i :: i in leaves ==> i < first && s.freq[i] >= 1) && |leaves| <= first
    requires ZeroIn(s.depth, leaves)
    ensures Merging(leaves, [], first, s)
  {
  }

  lemma MergingSizes(leaves: set<nat>, merges: seq<Merge>, first: nat, s: Forest)
    requires Merging(leaves, merges, first, s)
    ensures Sized(s, first) && 1 <= s.len && s.len + |merges| == |leaves| <= first
    ensures HeapFrom(s.heap, s.len, s.freq, s.depth, 1) && Ordered(s.heap, merges)
    ensures RunTo(leaves, s.freq, merges, first)
    ensures Queue(s.heap, s.len, Active(leaves, merges, first, |merges|))
    ensures LowestRun(leaves, s.freq, merges, first)
  {
    hide LowestRun, Deep, RunTo, Queue, HeapFrom;
  }

  /** pqremove: the lightest node leaves the queue. */
  method PqRemove(s: State, t: Tree, ghost a: set<nat>) returns (top: nat)
    requires Apart(s, t) && Sized(Now(s, t), t.desc.elems) && s.heapLen >= 2 && Queue(s.heap[..], s.heapLen, a)
    requires HeapFrom(s.heap[..], s.heapLen, t.fc[..], s.depth[..], 1)
    modifies s`heapLen, s.heap
    ensures top == old(s.heap[1]) && s.heapLen == old(s.heapLen) - 1
    ensures Nodes(s.heap[..], s.heapLen, t.fc.Length)
    ensures HeapFrom(s.heap[..], s.heapLen, t.fc[..], s.depth[..], 1)
    ensures multiset(s.heap[..]) == multiset(Popped(old(Now(s, t))).heap)
    ensures SameOutside(Popped(old(Now(s, t))).heap, s.heap[..], 1, s.heapLen)
  {
    hide HeapFrom, SameOutside, Queue;
    ghost var s0 := Now(s, t);
    PoppedQueue(s0, t.desc.elems, a);
    top := s.heap[SMALLEST];
    s.heap[SMALLEST] := s.heap[s.heapLen];
    s.heapLen := s.heapLen - 1;
    assert s.heap[..] == Popped(s0).heap;
    PqDownHeap(s.heap, s.heapLen, t.fc, s.depth, SMALLEST);
  }

  /** The two lightest nodes are stacked and their father takes the place of the second on top of the queue. */
  method Join(s: State, t: Tree, n: nat, m: nat, node: nat, ghost s0: Forest)
    requires Apart(s, t) && s0.len == s.heapLen + 1 >= 2 && 3 < s.heapMax <= HEAP_SIZE
    requires s0.freq == t.fc[..] && s0.depth == s.depth[..] && s0.dad == t.dl[..]
    requires n < node && m < node < t.fc.Length && t.fc[n] + t.fc[m] < FREQ_LIMIT && s.depth[n] < 255 && s.depth[m] < 255
    modifies s`heapMax, s.heap, s.depth, t.fc, t.dl
    ensures s.heapMax == old(s.heapMax) - 2
    ensures Now(s, t) == Joined(s0, old(s.heap[..]), n, m, s.depth[node], node, old(s.heapMax))
    ensures s.depth[node] == Max(old(s.depth[n]), old(s.depth[m])) + 1
  {
    Stack(s, n, m);
    SetFreq(s, t, n, m, node);
    t.dl[n] := node;
    t.dl[m] := node;
    assert t.dl[..] == s0.dad[n := node][m := node];
    ghost var h := s.heap[..];
    s.heap[SMALLEST] := node;
    assert s.heap[..] == h[1 := node];
  }

  method Stack(s: State, n: nat, m: nat)
    requires s.Shaped() && 3 < s.heapMax <= HEAP_SIZE
    modifies s`heapMax, s.heap
    ensures s.heapMax == old(s.heapMax) - 2
    ensures s.heap[..] == old(s.heap[..])[old(s.heapMax) - 1 := n][old(s.heapMax) - 2 := m]
  {
    s.heapMax := s.heapMax - 1;
    s.heap[s.heapMax] := n;
    s.heapMax := s.heapMax - 1;
    s.heap[s.heapMax] := m;
  }

  method SetFreq(s: State, t: Tree, n: nat, m: nat, node: nat)
    requires Apart(s, t) && n < node && m < node < t.fc.Length && t.fc[n] + t.fc[m] < FREQ_LIMIT && s.depth[n] < 255 && s.depth[m] < 255
    modifies s.depth, t.fc
    ensures t.fc[..] == old(t.fc[..])[node := old(t.fc[n]) + old(t.fc[m])]
    ensures s.depth[..] == old(s.depth[..])[node := s.depth[node]] && s.depth[node] == Max(old(s.depth[n]), old(s.depth[m])) + 1
  {
    t.fc[node] := (t.fc[n] + t.fc[m]) % FREQ_LIMIT;
    var deepest := if s.depth[n] >= s.depth[m] then s.depth[n] else s.depth[m];
    s.depth[node] := (deepest + 1) % 256;
  }

  /** One round: two nodes leave the queue and their father enters it. */
  method MergeRound(s: State, t: Tree, node: nat, ghost leaves: set<nat>, ghost merges: seq<Merge>) returns (ghost x: Merge)
    requires Apart(s, t) && Merging(leaves, merges, t.desc.elems, Now(s, t)) && s.heapLen >= 2
    requires s.heapMax == HEAP_SIZE - 2 * |merges| && node == t.desc.elems + |merges|
    requires SumOver(leaves, t.fc[..], t.fc.Length) < FREQ_LIMIT
    modifies s`heapLen, s`heapMax, s.heap, s.depth, t.fc, t.dl
    ensures Merging(leaves, merges + [x], t.desc.elems, Now(s, t))
    ensures s.heapLen == old(s.heapLen) - 1 && s.heapMax == old(s.heapMax) - 2
    ensures SymbolsKept(leaves, t.desc.elems, old(t.fc[..]), old(t.dl[..]), t.fc[..], t.dl[..])
  {
    hide Merging, HeapFrom, SumOver, SameOutside, Queue, RunTo, Active, Ordered, Fathered, TwoLightest, Merged,
      Popped, Joined, Sifted, SymbolsKept, LowestTwo, LowestRun, Max;
    ghost var first, s0 := t.desc.elems, Now(s, t);
    MergingSizes(leaves, merges, first, s0);
    var n: nat := PqRemove(s, t, Active(leaves, merges, first, |merges|));
    var m: nat := s.heap[SMALLEST];
    ghost var h := s.heap[..];
    SiftedNow(leaves, merges, first, s0, h);
    SiftedSizes(leaves, merges, first, s0, h);
    PairFits(leaves, merges, first, s0, h);
    Join(s, t, n, m, node, s0);
    ghost var dv, j := s.depth[node], Now(s, t);
    JoinedReady(leaves, merges, first, s0, h, dv);
    PqDownHeap(s.heap, s.heapLen, t.fc, s.depth, SMALLEST);
    RoundDone(leaves, merges, first, s0, h, dv, Now(s, t));
    JoinKeepsSymbols(leaves, merges, first, s0, h, dv);
    x := Merge(n, m);
  }

  const SMALLEST: nat := 1

  lemma SiftedNow(leaves: set<nat>, merges: seq<Merge>, first: nat, s: Forest, h: seq<nat>)
    requires Merging(leaves, merges, first, s) && s.len >= 2
    requires Sized(s, first) && Nodes(h, s.len - 1, |s.freq|) && HeapFrom(h, s.len - 1, s.freq, s.depth, 1)
    requires multiset(h) == multiset(Popped(s).heap) && SameOutside(Popped(s).heap, h, 1, s.len - 1)
    ensures Sifted(leaves, merges, first, s, h)
  {
    hide Merging, HeapFrom, SameOutside;
  }

  /** The queue is ready for its last sift. */
  lemma JoinedReady(leaves: set<nat>, merges: seq<Merge>, first: nat, s: Forest, h: seq<nat>, dv: nat)
    requires Sifted(leaves, merges, first, s, h)
    ensures 2 <= s.len && |h| == HEAP_SIZE && s.len - 1 < HEAP_SIZE - 2 * |merges| - 2 <= HEAP_SIZE
    ensures s.heap[1] < first + |merges| && h[1] < first + |merges| < |s.freq| == |s.dad| <= |s.depth|
    ensures var j := Joined(s, h, s.heap[1], h[1], dv, first + |merges|, HEAP_SIZE - 2 * |merges|);
            Nodes(j.heap, j.len, |j.freq|) && HeapFrom(j.heap, j.len, j.freq, j.depth, 2)
  {
    hide HeapFrom, Queue, RunTo, Active, Ordered, Fathered, TwoLightest, Merged, SumOver, SameOutside;
    SiftedSizes(leaves, merges, first, s, h);
    FreshNode(leaves, s.freq, merges, first, s.heap[1], h[1]);
    JoinedHeap(s, first, Active(leaves, merges, first, |merges|), h, s.heap[1], h[1], dv,
               first + |merges|, HEAP_SIZE - 2 * |merges|);
  }

  lemma JoinKeepsSymbols(leaves: set<nat>, merges: seq<Merge>, first: nat, s: Forest, h: seq<nat>, dv: nat)
    requires Sifted(leaves, merges, first, s, h)
    requires s.heap[1] < first + |merges| && h[1] < first + |merges| < |s.freq| == |s.dad| <= |s.depth|
    requires 2 <= s.len && |h| == HEAP_SIZE && 2 * |merges| + 2 <= HEAP_SIZE
    ensures var j := Joined(s, h, s.heap[1], h[1], dv, first + |merges|, HEAP_SIZE - 2 * |merges|);
            SymbolsKept(leaves, first, s.freq, s.dad, j.freq, j.dad)
  {
    hide HeapFrom, Queue, RunTo, Active, Ordered, Fathered, TwoLightest, SumOver, SameOutside;
    SiftedSizes(leaves, merges, first, s, h);
    SonsKind(leaves, merges, first, s, s.heap[1], h[1]);
  }

  lemma SonsKind(leaves: set<nat>, merges: seq<Merge>, first: nat, s: Forest, n: nat, m: nat)
    requires Merging(leaves, merges, first, s)
    requires TwoLightest(Active(leaves, merges, first, |merges|), s.freq, n, m)
    ensures n in leaves || n >= first
    ensures m in leaves || m >= first
  {
    hide Merging, Active;
    if n < first {
      ActiveKind(leaves, merges, first, |merges|, n);
    }
    if m < first {
      ActiveKind(leaves, merges, first, |merges|, m);
    }
  }

  // ----- the finished forest

  /** The symbols in a have codes, the merges that join them are recorded from heap[heapMax] on, others have length 0. */
  ghost predicate Built(s: State, t: Tree, a: set<nat>, merges: seq<Merge>)
    reads s, s.heap, t, t.fc, t.dl
  {
    && Apart(s, t) && HuffmanRun(a, t.fc[..], merges, t.desc.elems) && |merges| + 1 == |a| <= t.desc.elems
    && Greatest(a, t.maxCode)
    && s.heapMax == HEAP_SIZE - 2 * |merges| - 1 && s.heap[s.heapMax] == t.desc.elems + |merges| - 1
    && Ordered(s.heap[..], merges) && Fathered(t.dl[..], merges, t.desc.elems) && LowestRun(a, t.fc[..], merges, t.desc.elems)
    && ZeroOutside(t.dl[..], a, t.desc.elems)
  }

  /** f' is f below n. */
  ghost predicate SameBelow(f: seq<nat>, f': seq<nat>, n: nat) {
    |f| == |f'| && n <= |f| && forall i :: 0 <= i < n ==> f'[i] == f[i]
  }

  /** The forced symbols add 1 each to the total. */
  lemma ToppedTotal(f: seq<nat>, n: nat)
    requires 3 <= n <= |f|
    ensures SumOver(Coded(f, n), Topped(f, Forced(Used(f, n))), |f|) <= SumOver(Used(f, n), f, |f|) + 2
    ensures |Forced(Used(f, n))| <= 2
  {
    var u := Used(f, n);
    var x := Forced(u);
    var g, ones := Topped(f, x), seq(|f|, i => 1);
    ForcedFew(u);
    hide Forced, Used, SumOver;
    SumUnion(u, x, g, |f|);
    SumSame(u, g, u, f, |f|);
    SumSame(x, g, x, ones, |f|);
    SumOfOnes(x, ones, |f|);
  }

  lemma ForcedFew(u: set<nat>)
    ensures |Forced(u)| <= 2 && Forced(u) !! u && forall i :: i in Forced(u) ==> i <= 2
  {
    assert |{0, 1}| == 2;
    if 0 < |u| < 2 {
      var x :| x in u;
      assert |u - {x}| == 0;
      assert u == {x};
    }
  }

  method MergeAll(s: State, t: Tree, ghost a: set<nat>) returns (ghost merges: seq<Merge>)
    requires Apart(s, t) && Merging(a, [], t.desc.elems, Now(s, t)) && |a| >= 2 && s.heapMax == HEAP_SIZE
    requires SumOver(a, t.fc[..], t.fc.Length) < FREQ_LIMIT && Greatest(a, t.maxCode)
    requires forall i :: i in a ==> i < t.desc.elems
    requires ZeroOutside(t.dl[..], a, t.desc.elems)
    modifies s`heapLen, s`heapMax, s.heap, s.depth, t.fc, t.dl
    ensures Built(s, t, a, merges) && SameBelow(old(t.fc[..]), t.fc[..], t.desc.elems)
  {
    hide Merging, SumOver;
    ghost var first, f := t.desc.elems, t.fc[..];
    merges := [];
    MergingSizes(a, merges, first, Now(s, t));
    hide RunTo, Queue, HeapFrom, Ordered, Active, HuffmanRun, Fathered, SymbolsKept, SameBelow, ZeroOutside, Greatest, LowestRun;
    StillSame(f, first);
    var node: nat := t.desc.elems;
    while true
      invariant s.heapLen >= 2 && s.heapLen + |merges| == |a| <= first && node == first + |merges|
      invariant Merging(a, merges, first, Now(s, t)) && s.heapMax == HEAP_SIZE - 2 * |merges|
      invariant SameBelow(f, t.fc[..], first) && SumOver(a, t.fc[..], t.fc.Length) < FREQ_LIMIT
      invariant ZeroOutside(t.dl[..], a, first)
      decreases s.heapLen
    {
      ghost var g, l := t.fc[..], t.dl[..];
      ghost var x := MergeRound(s, t, node, a, merges);
      SameTotal(a, f, g, l, t.fc[..], t.dl[..], first);
      merges := merges + [x];
      node := node + 1;
      if s.heapLen < 2 {
        break;
      }
    }
    MergingEnds(a, merges, first, Now(s, t));
    s.heapMax := s.heapMax - 1;
    ghost var h := s.heap[..];
    s.heap[s.heapMax] := s.heap[SMALLEST];
    assert s.heap[..] == h[s.heapMax := h[SMALLEST]];
    OrderedBelow(h, merges, s.heapMax, h[SMALLEST]);
  }

  lemma OrderedBelow(h: seq<nat>, merges: seq<Merge>, i: nat, v: nat)
    requires Ordered(h, merges) && i < HEAP_SIZE - 2 * |merges|
    ensures Ordered(h[i := v], merges)
  {
  }

  lemma StillSame(f: seq<nat>, first: nat)
    requires first <= |f|
    ensures SameBelow(f, f, first)
  {
  }

  lemma SameTotal(a: set<nat>, f: seq<nat>, g: seq<nat>, l: seq<nat>, g': seq<nat>, l': seq<nat>, first: nat)
    requires SymbolsKept(a, first, g, l, g', l') && SameBelow(f, g, first) && ZeroOutside(l, a, first)
    requires forall i :: i in a ==> i < first
    ensures SumOver(a, g, |g|) == SumOver(a, g', |g'|) && SameBelow(f, g', first) && ZeroOutside(l', a, first)
  {
    SumSame(a, g, a, g', |g|);
  }

  lemma MergingEnds(a: set<nat>, merges: seq<Merge>, first: nat, s: Forest)
    requires Merging(a, merges, first, s) && s.len == 1 && |a| >= 2
    ensures HuffmanRun(a, s.freq, merges, first) && Ordered(s.heap, merges) && Fathered(s.dad, merges, first)
    ensures LowestRun(a, s.freq, merges, first)
    ensures |s.heap| == HEAP_SIZE && s.heap[SMALLEST] == first + |merges| - 1 && 2 * |merges| + 1 < HEAP_SIZE
  {
    hide HuffmanRun, RunTo, Active, Queue, LowestRun, Deep;
    FinishedRun(a, s.freq, merges, first);
    RunFinished(a, s.freq, merges, first);
    QueueHas(s.heap, s.len, Active(a, merges, first, |merges|), 1);
  }

  /** build_tree up to the call of gen_bitlen. */
  method BuildForest(s: State, t: Tree) returns (ghost merges: seq<Merge>)
    requires Apart(s, t)
    requires SumOver(Used(t.fc[..], t.desc.elems), t.fc[..], t.fc.Length) + 2 < FREQ_LIMIT
    modifies s, s.heap, s.depth, t`maxCode, t.fc, t.dl
    ensures var f, n := old(t.fc[..]), t.desc.elems;
            && Built(s, t, Coded(f, n), merges)
            && SameBelow(Topped(f, Forced(Used(f, n))), t.fc[..], n)
            && s.optLen == old(s.optLen) - |Forced(Used(f, n))|
            && s.staticLen == old(s.staticLen) - StaticSum(t.desc, Forced(Used(f, n)))
  {
    hide Queue, HeapFrom, SumOver, Used, Forced, Greatest, Topped, StaticSum, Built, Merging;
    ghost var f, n := t.fc[..], t.desc.elems;
    ghost var a := Coded(f, n);
    ToppedTotal(f, n);
    CodedSize(f, n);
    InitHeap(s, t);
    ForceTwo(s, t);
    Heapify(s, t, a);
    ToppedPositive(f, n);
    MergingStart(Now(s, t), n, a);
    merges := MergeAll(s, t, a);
  }

  lemma ToppedPositive(f: seq<nat>, n: nat)
    requires n <= |f|
    ensures forall i :: i in Coded(f, n) && i < |f| ==> Topped(f, Forced(Used(f, n)))[i] >= 1
  {
    hide Forced;
  }

  lemma CodedSize(f: seq<nat>, n: nat)
    requires 3 <= n <= |f|
    ensures |Coded(f, n)| <= n && forall l :: ZeroOutside(l, Used(f, n), n) ==> ZeroOutside(l, Coded(f, n), n)
  {
    BoundedSize(Coded(f, n), n);
  }

  lemma {:induction false} BoundedSize(a: set<nat>, n: nat)
    requires forall i :: i in a ==> i < n
    ensures |a| <= n
  {
    if n == 0 {
      assert a == {};
    } else {
      BoundedSize(a - {n - 1}, n - 1);
      assert a <= (a - {n - 1}) + {n - 1};
    }
  }
}
