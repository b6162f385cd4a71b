/**
 Why the probe loops of the hash table end: the table sizes are prime, so stepping by
 any displacement below the size visits every slot before returning to the first.
 */
module Probing {
  import opened Arith

  ghost predicate Prime(p: nat) {
    p > 1 && forall k :: 1 < k < p ==> p % k != 0
  }

  /** None of the numbers 6i-1 and 6i+1, i <= b, divides n. */
  predicate NoDivisor(n: nat, b: nat) {
    b == 0 || (n % (6 * b - 1) != 0 && n % (6 * b + 1) != 0 && NoDivisor(n, b - 1))
  }

  lemma {:induction false} NoDivisorMeans(n: nat, b: nat, k: nat)
    requires n % 2 != 0 && n % 3 != 0
    requires 2 <= k <= 6 * b + 4 && NoDivisor(n, b)
    ensures n % k != 0
    decreases b
  {
    if n % k == 0 {
      var q := n / k;
      assert n == q * k;
      NotMultiple(n, q, k, 2);
      NotMultiple(n, q, k, 3);
      if k < 6 * b - 1 {
        NoDivisorMeans(n, b - 1, k);
      } else {
        CoprimeToSix(k, b);
      }
    }
  }

  lemma CoprimeToSix(k: nat, b: nat)
    requires k % 2 != 0 && k % 3 != 0 && 2 <= k && 6 * b - 1 <= k <= 6 * b + 4
    ensures b > 0 && (k == 6 * b - 1 || k == 6 * b + 1)
  {
  }

  lemma NotMultiple(n: nat, q: nat, k: nat, d: nat)
    requires n == q * k && d > 0 && n % d != 0
    ensures k % d != 0
  {
    if k % d == 0 {
      var j := k / d;
      assert k == d * j;
      MulAssoc(q, d, j);
      assert n == d * (q * j);
      ModOfMultiple(d, q * j);
    }
  }

  /** Trial division up to the square root. */
  lemma TrialDivision(n: nat, b: nat)
    requires n % 2 != 0 && n % 3 != 0
    requires 1 < n < (6 * b + 5) * (6 * b + 5) && NoDivisor(n, b)
    ensures Prime(n)
  {
    forall k | 1 < k < n
      ensures n % k != 0
    {
      NotDivided(n, b, k);
    }
  }

  /** Of a number's factor and the other factor, one is small. */
  lemma NotDivided(n: nat, b: nat, k: nat)
    requires n % 2 != 0 && n % 3 != 0
    requires 1 < k < n < (6 * b + 5) * (6 * b + 5) && NoDivisor(n, b)
    ensures n % k != 0
  {
    hide NoDivisor;
    if n % k == 0 {
      var q := n / k;
      assert n == q * k;
      if q <= 1 { MulLe(q, k, 1, k); }
      if k <= 6 * b + 4 {
        NoDivisorMeans(n, b, k);
      } else {
        if q > 6 * b + 4 { MulLe(6 * b + 5, 6 * b + 5, q, k); }
        DivModUnique(n, q, k, 0);
        NoDivisorMeans(n, b, q);
      }
    }
  }

  /** A multiple k*d of d below the prime's own multiple of d is never 0 modulo the prime. */
  lemma {:induction false} NeverZero(p: nat, d: nat, k: nat)
    requires Prime(p) && 0 < d < p && 0 < k < p
    ensures (k * d) % p != 0
    decreases k
  {
    if (k * d) % p == 0 {
      assert k == 1 ==> k * d == d;
      if k > 1 {
        var q, r := p / k, p % k;
        NeverZero(p, d, r);
        RemainderAlso(p, d, k, q, r, (k * d) / p);
      }
    }
  }

  /** If p divides k*d, it divides r*d for the remainder r of p by k. */
  lemma RemainderAlso(p: nat, d: nat, k: nat, q: nat, r: nat, m: nat)
    requires p > 0 && p == q * k + r && k * d == m * p
    ensures (r * d) % p == 0
  {
    var x := d - q * m;
    calc {
      r * d;
      (p - q * k) * d;
      p * d - (q * k) * d;
      p * d - q * (k * d);
      p * d - q * (m * p);
      { MulAssoc(q, m, p); }
      p * d - p * (q * m);
      { MulSub(p, d, q * m); }
      p * x;
    }
    if x < 0 { MulNeg(p, x); }
    ModOfMultiple(p, x);
  }

  /** The slot reached after j steps from h. */
  function Slot(h: nat, disp: nat, hsize: nat, j: nat): (s: nat)
    requires hsize > 0
    ensures s < hsize
  {
    (h + j * disp) % hsize
  }

  lemma SlotStep(h: nat, disp: nat, hsize: nat, j: nat)
    requires 0 < disp < hsize
    ensures var next := Slot(h, disp, hsize, j) + disp;
            Slot(h, disp, hsize, j + 1) == if next >= hsize then next - hsize else next
  {
    var x := h + j * disp;
    assert h + (j + 1) * disp == x + disp;
    var q, r := x / hsize, x % hsize;
    assert x == q * hsize + r;
    if r + disp >= hsize {
      assert x + disp == (q + 1) * hsize + (r + disp - hsize);
      DivModUnique(x + disp, hsize, q + 1, r + disp - hsize);
    } else {
      DivModUnique(x + disp, hsize, q, r + disp);
    }
  }

  /** The first hsize probes of a path are all different. */
  lemma SlotsDiffer(h: nat, disp: nat, hsize: nat, i: nat, j: nat)
    requires Prime(hsize) && 0 < disp < hsize && i < j < hsize
    ensures Slot(h, disp, hsize, i) != Slot(h, disp, hsize, j)
  {
    if Slot(h, disp, hsize, i) == Slot(h, disp, hsize, j) {
      hide Prime;
      var a, b := h + i * disp, h + j * disp;
      var k := j - i;
      MulSub(disp, j, i);
      var qa, qb := a / hsize, b / hsize;
      MulSub(hsize, qb, qa);
      assert k * disp == hsize * (qb - qa);
      if qb < qa { MulNeg(hsize, qb - qa); }
      ModOfMultiple(hsize, qb - qa);
      NeverZero(hsize, disp, k);
    }
  }

  /** Different numbers below n: at most n of them. */
  lemma {:induction false} Pigeonhole(s: seq<nat>, n: nat)
    requires forall i :: 0 <= i < |s| ==> s[i] < n
    requires forall i, j :: 0 <= i < j < |s| ==> s[i] != s[j]
    ensures |s| <= n
    decreases n
  {
    assert |s| > 0 ==> s[0] < n;
    if |s| > 0 {
      if k :| 0 <= k < |s| && s[k] == n - 1 {
        var t := s[..k] + s[k + 1..];
        forall i | 0 <= i < |t|
          ensures t[i] < n - 1
        {
          var i' := if i < k then i else i + 1;
          assert t[i] == s[i'];
        }
        Pigeonhole(t, n - 1);
      } else {
        Pigeonhole(s, n - 1);
      }
    }
  }

  lemma Prime5003()
    ensures Prime(5003)
  {
    assert NoDivisor(5003, 6);
    TrialDivision(5003, 11);
  }

  lemma Prime9001()
    ensures Prime(9001)
  {
    assert NoDivisor(9001, 6);
    assert NoDivisor(9001, 11);
    TrialDivision(9001, 15);
  }

  lemma Prime18013()
    ensures Prime(18013)
  {
    assert NoDivisor(18013, 6);
    assert NoDivisor(18013, 12);
    assert NoDivisor(18013, 18);
    TrialDivision(18013, 22);
  }

  lemma Prime35023()
    ensures Prime(35023)
  {
    assert NoDivisor(35023, 6);
    assert NoDivisor(35023, 12);
    assert NoDivisor(35023, 18);
    assert NoDivisor(35023, 24);
    assert NoDivisor(35023, 28);
    TrialDivision(35023, 31);
  }

  /** The four sizes that bsd_alloc chooses from. */
  lemma TableSizesPrime()
    ensures Prime(5003) && Prime(9001) && Prime(18013) && Prime(35023)
  {
    hide *;
    Prime5003();
    Prime9001();
    Prime18013();
    Prime35023();
  }
}
