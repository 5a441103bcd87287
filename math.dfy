/** Integer helpers the pair's share arithmetic relies on: the minimum of two
    amounts, the floor square root used to size the first deposit, and the
    monotonicity facts about products and floor division that the proofs need. */
module Math {

  /** The smaller of two amounts. */
  function Min(a: nat, b: nat): (m: nat)
    ensures m <= a && m <= b
    ensures m == a || m == b
  {
    if a <= b then a else b
  }

  /** `r` is the floor of the square root of `x`. */
  predicate IsFloorSqrt(x: nat, r: nat)
  {
    r * r <= x < (r + 1) * (r + 1)
  }

  /** Floor square root searched by bisection in the half-open range [lo, hi). */
  function SqrtBetween(x: nat, lo: nat, hi: nat): (r: nat)
    requires lo < hi
    requires lo * lo <= x < hi * hi
    ensures IsFloorSqrt(x, r)
    ensures lo <= r < hi
    decreases hi - lo
  {
    if lo + 1 == hi then lo
    else
      var mid := (lo + hi) / 2;
      if mid * mid <= x then SqrtBetween(x, mid, hi) else SqrtBetween(x, lo, mid)
  }

  /** The floor square root of `x`: the largest `r` with `r * r <= x`. */
  function FloorSqrt(x: nat): (r: nat)
    ensures r * r <= x < (r + 1) * (r + 1)
  {
    assert x < (x + 1) * (x + 1) by { MulLe(1, x + 1, x + 1, x + 1); }
    SqrtBetween(x, 0, x + 1)
  }

  /** The floor square root is determined by its defining inequalities. */
  lemma FloorSqrtUnique(x: nat, r: nat)
    requires r * r <= x < (r + 1) * (r + 1)
    ensures FloorSqrt(x) == r
  {
    var s := FloorSqrt(x);
    if s < r {
      MulLe(s + 1, s + 1, r, r);
    } else if r < s {
      MulLe(r + 1, r + 1, s, s);
    }
  }

  /** A floor square root above `bound` exists exactly when `x` reaches `(bound + 1)^2`. */
  lemma FloorSqrtAbove(x: nat, bound: nat)
    ensures FloorSqrt(x) > bound <==> x >= (bound + 1) * (bound + 1)
  {
    var s := FloorSqrt(x);
    if s > bound {
      MulLe(bound + 1, bound + 1, s, s);
    } else {
      MulLe(s + 1, s + 1, bound + 1, bound + 1);
    }
  }

  lemma MulLe(a: nat, b: nat, c: nat, d: nat)
    requires a <= c && b <= d
    ensures a * b <= c * d
  {
    assert a * b <= c * b;
    assert c * b <= c * d;
  }

  lemma MulLt(a: nat, b: nat, c: nat, d: nat)
    requires a < c && b < d
    ensures a * b < c * d
  {
    MulLe(a, b, c, b);
    assert c * b < c * d;
  }

  /** Dividing both sides of an inequality by the same positive factor. */
  lemma CancelLe(x: nat, y: nat, k: nat)
    requires k > 0 && x * k <= y * k
    ensures x <= y
  {
  }

  lemma CancelLt(x: nat, y: nat, k: nat)
    requires k > 0 && x * k < y * k
    ensures x < y
  {
    if x >= y {
      MulLe(y, k, x, k);
    }
  }

  /** The two inequalities that characterise floor division. */
  lemma DivBounds(n: nat, d: nat)
    requires d > 0
    ensures (n / d) * d <= n < (n / d + 1) * d
  {
  }

  /** `q` is the floor of `n / d` exactly when it satisfies the inequalities. */
  lemma DivUnique(n: nat, d: nat, q: nat)
    requires d > 0
    requires q * d <= n < (q + 1) * d
    ensures n / d == q
  {
    DivBounds(n, d);
    var p := n / d;
    if p < q {
      MulLe(p + 1, d, q, d);
    } else if q < p {
      MulLe(q + 1, d, p, d);
    }
  }

  /** Floor division is monotone in its numerator. */
  lemma DivMonotone(m: nat, n: nat, d: nat)
    requires d > 0 && m <= n
    ensures m / d <= n / d
  {
    DivBounds(m, d);
    DivBounds(n, d);
    if m / d > n / d {
      MulLe(n / d + 1, d, m / d, d);
    }
  }

  /** A proper fraction of `b`, rounded down, is strictly less than `b` when `b` is positive,
      and never more than `b`. */
  lemma FractionBelow(s: nat, b: nat, S: nat)
    requires s <= S && S > 0
    ensures s * b / S <= b
    ensures s < S && b > 0 ==> s * b / S < b
  {
    var q := s * b / S;
    DivBounds(s * b, S);
    MulLe(s, b, S, b);
    assert S * b == b * S;
    CancelLe(q, b, S);
    if s < S && b > 0 {
      MulLe(s + 1, b, S, b);
      assert (s + 1) * b == s * b + b;
      CancelLt(q, b, S);
    }
  }

  /** Scaling numerator and denominator by the same positive factor leaves a
      floor quotient unchanged. */
  lemma DivScale(n: nat, d: nat, k: nat)
    requires d > 0 && k > 0
    ensures (k * n) / (k * d) == n / d
  {
    var q := n / d;
    DivBounds(n, d);
    MulLe(q * d, k, n, k);
    MulLe(n + 1, k, (q + 1) * d, k);
    assert q * (k * d) == q * d * k;
    assert (q + 1) * (k * d) == (q + 1) * d * k;
    assert k * n == n * k;
    assert (n + 1) * k == n * k + k;
    assert k * d > 0 by { MulLt(0, 0, k, d); }
    DivUnique(k * n, k * d, q);
  }
}
