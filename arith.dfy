/** Facts about Euclidean division and multiplication that the sampling count,
    the scaled sizes and the three-byte pixel layout all rely on. */
module Arith {
  /** Euclidean division is determined by any quotient-remainder pair. */
  lemma DivModUnique(n: int, m: int, q: int, r: int)
    requires m >= 1 && n == q * m + r && 0 <= r < m
    ensures n / m == q && n % m == r
  {
    var q0, r0 := n / m, n % m;
    assert (q0 - q) * m == r - r0;
    if q0 > q {
      MulMonotone(1, q0 - q, m);
    } else if q0 < q {
      MulMonotone(1, q - q0, m);
    }
  }

  lemma MulMonotone(a: int, b: int, m: int)
    requires a <= b && 0 <= m
    ensures a * m <= b * m
  {
  }

  /** Stepping back by `m` does not change the remainder modulo `m`. */
  lemma ModShift(n: int, m: int)
    requires m >= 1
    ensures (n - m) % m == n % m
  {
    DivModUnique(n - m, m, n / m - 1, n % m);
  }

  /** `n <= k * m` bounds the quotient `n / m` by `k`. */
  lemma DivAtMost(n: int, m: int, k: int)
    requires m >= 1 && 0 <= n <= k * m
    ensures n / m <= k
  {
    if n / m > k {
      MulMonotone(k + 1, n / m, m);
    }
  }
}
