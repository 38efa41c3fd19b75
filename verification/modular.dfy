/** Facts about Euclidean division that the phase arithmetic (index modulo period) relies on. */
module ModArith {

  lemma MulAtLeast(d: int, p: int)
    requires p > 0 && d >= 1
    ensures d * p >= p
  {
  }

  /** Quotient and remainder are determined by any decomposition `a == q * p + r` with `0 <= r < p`. */
  lemma DivModUnique(a: int, p: int, q: int, r: int)
    requires p > 0 && 0 <= r < p && a == q * p + r
    ensures a / p == q && a % p == r
  {
    var q0, r0 := a / p, a % p;
    assert a == q0 * p + r0;
    var d := q0 - q;
    assert d * p == r - r0;
    if d >= 1 {
      MulAtLeast(d, p);
      assert false;
    } else if d <= -1 {
      MulAtLeast(-d, p);
      assert false;
    }
  }

  /** Shifting an index by a whole period keeps its phase. */
  lemma ModShift(a: int, p: int)
    requires p > 0
    ensures (a + p) % p == a % p
  {
    DivModUnique(a + p, p, a / p + 1, a % p);
  }

  /** An index below the period is its own phase. */
  lemma ModSmall(a: int, p: int)
    requires p > 0 && 0 <= a < p
    ensures a % p == a && a / p == 0
  {
    DivModUnique(a, p, 0, a);
  }

  /** `(n / p + 1) * p` exceeds `n`: tiling `n / p + 1` copies covers `n` entries. */
  lemma CoverBound(n: nat, p: int)
    requires p > 0
    ensures (n / p + 1) * p > n
  {
    assert n == (n / p) * p + n % p;
    assert (n / p + 1) * p == (n / p) * p + p;
  }

  /** Indices strictly between `k` and `k + p` have a phase other than `k`'s. */
  lemma PhaseGap(k: int, m: int, p: int)
    requires p > 0 && k < m < k + p
    ensures m % p != k % p
  {
    var q, r, d := k / p, k % p, m - k;
    assert m == q * p + (r + d);
    if r + d < p {
      DivModUnique(m, p, q, r + d);
    } else {
      assert m == (q + 1) * p + (r + d - p);
      DivModUnique(m, p, q + 1, r + d - p);
    }
  }

  /**
   * A dividend below the divisor has quotient zero; taking one divisor off a larger one takes
   * one off the quotient.
   */
  lemma DivStep(n: int, p: int)
    requires p > 0 && n >= 0
    ensures n < p ==> n / p == 0
    ensures n >= p ==> n / p == (n - p) / p + 1
  {
    if n < p {
      ModSmall(n, p);
    } else {
      DivModUnique(n, p, (n - p) / p + 1, (n - p) % p);
    }
  }
}
