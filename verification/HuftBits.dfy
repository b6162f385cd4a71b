/** The size of a new table of huft_build: enough for all codes with the prefix, within the limit. */
module HuftBits {
  import opened Arith
  import opened Bits
  import opened BitOrder
  import opened LengthRepair
  import opened CanonicalCodes
  import opened HuftTheory
  import opened HuftState

  /** The codes with the prefix of the table are those from (k, fwd) on. */
  ghost predicate Opening(f: Plan, w: nat, k: nat, fwd: nat) {
    f.Valid() && f.IsCode(k, fwd) && w < k && Low(fwd, k - w) == 0
  }

  /** r patterns of w + j bits with the prefix are left when the codes of up to w + j bits are used up. */
  ghost predicate Left(f: Plan, w: nat, k: nat, fwd: nat, j: nat, r: int) {
    w <= k && w + j <= f.g < |f.c| && r * Pow2(f.g - w - j) == Pos(High(fwd, k - w) + 1, w, f.g) - f.EndOf(w + j)
  }

  lemma LeftStart(f: Plan, w: nat, k: nat, fwd: nat, remaining: nat)
    requires Opening(f, w, k, fwd) && remaining == NextCode(f.c, k) + f.c[k] - fwd
    ensures Left(f, w, k, fwd, k - w, Pow2(k - w) - remaining)
  {
    var p, q := Pow2(f.g - k), Pow2(k - w);
    var prefix := High(fwd, k - w);
    PosNest(fwd, k, w, f.g);
    PosMono(prefix, prefix, w, f.g);
    Pow2Add(k - w, f.g - k);
    NextCodeShare(f.c, f.g, k);
    var n, m := NextCode(f.c, k), f.c[k];
    assert f.EndOf(k) == n * p + m * p;
    MulAdd(p, n, m);
    MulSub(p, q, remaining);
    MulSub(p, n + m, fwd);
  }

  lemma LeftNext(f: Plan, w: nat, k: nat, fwd: nat, j: nat, r: int)
    requires Left(f, w, k, fwd, j, r) && w + j < f.g
    ensures Left(f, w, k, fwd, j + 1, 2 * r - f.c[w + j + 1])
  {
    var p := Pow2(f.g - w - j - 1);
    assert Pow2(f.g - w - j) == 2 * p;
    MulAssoc(r, 2, p);
    MulSub(p, 2 * r, f.c[w + j + 1]);
  }

  lemma LeftNone(f: Plan, w: nat, k: nat, fwd: nat, j: nat, r: int)
    requires Left(f, w, k, fwd, j, r) && r <= 0
    ensures Enough(f, Meta(w, High(fwd, k - w), j))
  {
    if r < 0 {
      MulNeg(Pow2(f.g - w - j), r);
    }
  }

  lemma EnoughAtEnd(f: Plan, w: nat, k: nat, fwd: nat, j: nat)
    requires Opening(f, w, k, fwd) && w + j <= f.g && (j >= f.l || w + j == f.g)
    ensures Enough(f, Meta(w, High(fwd, k - w), j))
  {
    hide NextCode, KraftTo;
    if j < f.l {
      CodePlace(f, k, fwd);
      KraftToMonotone(f.c, f.g, k + 1, f.g + 1);
      PosNest(fwd, k, w, f.g);
      Pow2Add(w, f.g - w);
      PosMono(High(fwd, k - w), Pow2(w), w, f.g);
      PosMono(High(fwd, k - w) + 1, Pow2(w), w, f.g);
    }
  }

  /** The first table has exactly l bits. */
  lemma FirstWidth(f: Plan, k: nat, j: nat)
    requires f.Valid() && k <= f.l && j <= f.l && Enough(f, Meta(0, 0, j))
    ensures j == f.l
  {
    hide NextCode;
    if j < f.l {
      KraftToMonotone(f.c, f.g, j + 1, f.g);
    }
  }

  /** The loop "try smaller tables": remaining counts the codes of k bits still to come, this one included. */
  method TableBits(c: array<nat>, k: nat, w: nat, l: nat, g: nat, remaining: nat, ghost f: Plan, ghost fwd: nat) returns (j: nat)
    requires c.Length > 0 && f.c == c[..][0 := 0] && f.l == l && f.g == g && g <= 15 && Opening(f, w, k, fwd)
    requires remaining == NextCode(f.c, k) + f.c[k] - fwd && (w == 0 ==> k <= l && fwd == 0)
    ensures 1 <= j <= 15 && k <= w + j <= g && (j > l ==> k == w + j)
    ensures Enough(f, Meta(w, High(fwd, k - w), j)) && (w == 0 ==> j == l)
  {
    hide Left, Enough, High, Low, NextCode, KraftTo, Pow2;
    OpeningBounds(f, w, k, fwd);
    var z: nat := g - w;
    if z > l {
      z := l;
    }
    j := k - w;
    var left: int := Pow2(j);
    LeftStart(f, w, k, fwd, remaining);
    ghost var done := false;
    if left > remaining {
      left := left - remaining;
      if j < z {
        j := j + 1;
        while j < z
          invariant k - w < j <= z && Left(f, w, k, fwd, j - 1, left)
        {
          LeftNext(f, w, k, fwd, j - 1, left);
          left := 2 * left;
          if left <= c[w + j] {
            LeftNone(f, w, k, fwd, j, left - c[w + j]);
            done := true;
            break;
          }
          left := left - c[w + j];
          j := j + 1;
        }
      }
    } else {
      LeftNone(f, w, k, fwd, j, left - remaining);
      done := true;
    }
    if !done {
      EnoughAtEnd(f, w, k, fwd, j);
    }
    if w == 0 {
      HighOfZero(k);
      FirstWidth(f, k, j);
    }
  }

  lemma HighOfZero(n: nat)
    ensures High(0, n) == 0 && Low(0, n) == 0
  {
    HighLowUnique(0, 0, n);
  }

  lemma OpeningBounds(f: Plan, w: nat, k: nat, fwd: nat)
    requires Opening(f, w, k, fwd)
    ensures w < k <= f.g < |f.c| && 1 <= f.l <= f.g
  {
  }
}
