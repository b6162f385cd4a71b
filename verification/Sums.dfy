/** Sums of indexed values over a set of indices. */
module Sums {

  /** The sum of g[i] over the i < n in a. */
  function SumOver(a: set<nat>, g: seq<nat>, n: nat): nat
    requires n <= |g|
  {
    if n == 0 then 0 else SumOver(a, g, n - 1) + (if n - 1 in a then g[n - 1] else 0)
  }

  lemma {:induction false} SumSame(a: set<nat>, g: seq<nat>, b: set<nat>, h: seq<nat>, n: nat)
    requires n <= |g| && n <= |h|
    requires forall i :: 0 <= i < n ==> (i in a <==> i in b) && (i in a ==> g[i] == h[i])
    ensures SumOver(a, g, n) == SumOver(b, h, n)
  {
    if n > 0 {
      SumSame(a, g, b, h, n - 1);
    }
  }

  /** Changing the value at one index. */
  lemma {:induction false} SumUpdate(a: set<nat>, g: seq<nat>, x: nat, v: nat, n: nat)
    requires x in a && x < n <= |g|
    ensures SumOver(a, g[x := v], n) + g[x] == SumOver(a, g, n) + v
  {
    if x == n - 1 {
      SumSame(a, g, a, g[x := v], n - 1);
    } else {
      SumUpdate(a, g, x, v, n - 1);
    }
  }

  /** Dropping one index. */
  lemma {:induction false} SumRemove(a: set<nat>, g: seq<nat>, x: nat, n: nat)
    requires x in a && x < n <= |g|
    ensures SumOver(a, g, n) == SumOver(a - {x}, g, n) + g[x]
  {
    if x == n - 1 {
      SumSame(a, g, a - {x}, g, n - 1);
    } else {
      SumRemove(a, g, x, n - 1);
    }
  }

  lemma {:induction false} SumUnion(a: set<nat>, b: set<nat>, g: seq<nat>, n: nat)
    requires a !! b && n <= |g|
    ensures SumOver(a + b, g, n) == SumOver(a, g, n) + SumOver(b, g, n)
  {
    if n > 0 {
      SumUnion(a, b, g, n - 1);
    }
  }

  lemma {:induction false} SumMonotone(a: set<nat>, g: seq<nat>, h: seq<nat>, n: nat)
    requires n <= |g| && n <= |h|
    requires forall i :: 0 <= i < n && i in a ==> g[i] <= h[i]
    ensures SumOver(a, g, n) <= SumOver(a, h, n)
  {
    if n > 0 {
      SumMonotone(a, g, h, n - 1);
    }
  }

  lemma {:induction false} SumScale(a: set<nat>, g: seq<nat>, h: seq<nat>, c: nat, n: nat)
    requires n <= |g| && n <= |h|
    requires forall i :: 0 <= i < n && i in a ==> h[i] == c * g[i]
    ensures SumOver(a, h, n) == c * SumOver(a, g, n)
  {
    if n > 0 {
      SumScale(a, g, h, c, n - 1);
    }
  }

  lemma {:induction false} SumEven(a: set<nat>, g: seq<nat>, n: nat)
    requires n <= |g|
    requires forall i :: 0 <= i < n && i in a ==> g[i] % 2 == 0
    ensures SumOver(a, g, n) % 2 == 0
  {
    if n > 0 {
      SumEven(a, g, n - 1);
    }
  }

  /** A sum of ones counts the indices. */
  lemma {:induction false} SumOfOnes(a: set<nat>, g: seq<nat>, n: nat)
    requires n <= |g| && (forall i :: i in a ==> i < n) && (forall i :: i in a ==> g[i] == 1)
    ensures SumOver(a, g, n) == |a|
  {
    if n > 0 {
      var b := a - {n - 1};
      SumOfOnes(b, g, n - 1);
      SumSame(a, g, b, g, n - 1);
      assert n - 1 in a ==> a == b + {n - 1};
      assert n - 1 !in a ==> a == b;
    } else {
      assert a == {};
    }
  }

  /** The symbols that occur. */
  function Used(f: seq<nat>, n: nat): (a: set<nat>)
    requires n <= |f|
  {
    set i: nat | i < n && f[i] != 0
  }

  lemma UsedNext(f: seq<nat>, n: nat)
    requires n < |f|
    ensures Used(f, n + 1) == if f[n] != 0 then Used(f, n) + {n} else Used(f, n)
    ensures forall i :: i in Used(f, n) ==> i < n
  {
  }
}
