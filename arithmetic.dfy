/** Facts about integer division and multiplication used by the tiling proofs. */
module Arithmetic {
  /** Euclidean division of a non-negative number: quotient times divisor, plus a remainder below the divisor. */
  lemma DivBounds(a: int, k: int)
    requires a >= 0 && k > 0
    ensures (a / k) * k <= a < (a / k) * k + k
  {
  }

  /** The quotient is the one q whose multiple lies within a divisor below a. */
  lemma DivUnique(a: int, k: int, q: int)
    requires k > 0 && q * k <= a < q * k + k
    ensures a / k == q
  {
    var d, m := a / k, a % k;
    assert a == d * k + m && 0 <= m < k;
    assert (d - q) * k == (a - q * k) - m;
    if d > q {
      MulMono(1, d - q, k);
    } else if d < q {
      MulMono(1, q - d, k);
    }
  }

  lemma MulMono(a: int, b: int, k: int)
    requires 0 <= a <= b && k > 0
    ensures a * k <= b * k
  {
  }

  /** Quotient and remainder of q * k + r for a remainder r below k. */
  lemma DivModOf(q: int, k: int, r: int)
    requires k > 0 && 0 <= r < k
    ensures (q * k + r) / k == q && (q * k + r) % k == r
  {
    DivUnique(q * k + r, k, q);
  }

  /** t lies below the rounded-up quotient (a + k - 1) / k exactly when t * k lies below a. */
  lemma CeilDiv(a: int, k: int, t: int)
    requires a >= 0 && k > 0 && t >= 0
    ensures t < (a + k - 1) / k <==> t * k < a
  {
    var q := (a + k - 1) / k;
    DivBounds(a + k - 1, k);
    if t < q {
      MulMono(t + 1, q, k);
    } else {
      MulMono(q, t, k);
    }
  }

  /** d lies thr above a multiple of k exactly when its remainder modulo k is thr. */
  lemma ModResidue(d: int, k: int, thr: int)
    requires d >= 0 && k > 0 && 0 <= thr < k
    ensures (thr <= d && (d - thr) % k == 0) <==> d % k == thr
  {
    if thr <= d && (d - thr) % k == 0 {
      var j := (d - thr) / k;
      assert d == j * k + thr;
      DivModOf(j, k, thr);
    }
    if d % k == thr {
      var q := d / k;
      assert d - thr == q * k + 0;
      DivModOf(q, k, 0);
      DivBounds(d, k);
    }
  }

  /** One more row of b: a * b is (a - 1) * b plus b. */
  lemma MulPred(a: int, b: int)
    ensures (a - 1) * b + b == a * b == b * a
  {
  }

  /** Row a of b rows of n ends within the b * n cells. */
  lemma RowBound(a: int, b: int, n: int)
    requires 0 <= a < b && n >= 0
    ensures a * n + n <= n * b
  {
    if n > 0 {
      MulMono(a + 1, b, n);
    }
  }
}
