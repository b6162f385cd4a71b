/** Facts about products, quotients and remainders that the solver needs spelled out. */
module Arith {

  function Div(v: nat, p: nat): nat
    requires p > 0
  {
    v / p
  }

  function Mod(v: nat, p: nat): nat
    requires p > 0
  {
    v % p
  }

  lemma MulLe(a: nat, b: nat, c: nat, d: nat)
    requires a <= c && b <= d
    ensures a * b <= c * d
  {
    assert a * b <= a * d <= c * d;
  }

  lemma MulLess(a: nat, b: nat, c: nat)
    requires a < b && c > 0
    ensures a * c < b * c
  {
  }

  lemma MulAssoc(a: int, b: int, c: int)
    ensures a * (b * c) == (a * b) * c == b * (a * c) == c * (a * b)
  {
  }

  lemma MulAdd(a: int, b: int, c: int)
    ensures a * b + a * c == a * (b + c) && b * a + c * a == (b + c) * a
  {
  }

  lemma MulSub(a: int, b: int, c: int)
    ensures a * b - a * c == a * (b - c) && b * a - c * a == (b - c) * a
  {
  }

  lemma MulNeg(a: int, b: int)
    requires a > 0 && b < 0
    ensures a * b < 0
  {
  }

  lemma DivModUnique(x: nat, m: nat, q: nat, r: nat)
    requires r < m && x == q * m + r
    ensures x % m == r && x / m == q
  {
    var q', r' := x / m, x % m;
    assert x == q' * m + r' && r' < m;
    if q' < q {
      MulLe(q' + 1, m, q, m);
    } else if q < q' {
      MulLe(q + 1, m, q', m);
    }
  }

  lemma ModOfMultiple(q: nat, k: nat)
    requires q > 0
    ensures (q * k) % q == 0
  {
    DivModUnique(q * k, q, k, 0);
  }
}
