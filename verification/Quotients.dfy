/** Whole quotients, rounded down and rounded up. */
module Quotients {
  function CeilDiv(a: nat, b: nat): nat
    requires b > 0
  {
    (a + b - 1) / b
  }

  lemma QuotientIs(x: nat, q: nat, r: nat, d: nat)
    requires r < d && x == q * d + r
    ensures x / d == q && x % d == r
  {
    var p := x / d;
    assert x == p * d + x % d;
    assert p < q ==> (p + 1) * d <= q * d;
    assert q < p ==> (q + 1) * d <= p * d;
    assert (p + 1) * d == p * d + d && (q + 1) * d == q * d + d;
  }

  lemma CeilDivStep(a: nat, b: nat)
    requires 0 < b
    ensures a > 0 ==> CeilDiv(a, b) == 1 + CeilDiv(if a > b then a - b else 0, b)
    ensures CeilDiv(0, b) == 0
  {
    QuotientIs(b - 1, 0, b - 1, b);
    if a > b {
      QuotientIs(a + b - 1, (a - 1) / b + 1, (a - 1) % b, b);
    } else if a > 0 {
      QuotientIs(a + b - 1, 1, a - 1, b);
    }
  }

  lemma QuotientBounds(n: nat, d: nat)
    requires d > 0
    ensures n / d * d <= n < n / d * d + d
  {
  }

  lemma MultiplesInOrder(i: nat, j: nat, d: nat)
    requires i <= j
    ensures i * d <= j * d && (j + 1) * d == j * d + d && (i + 1) * d == i * d + d
    ensures i > 0 ==> i * d == (i - 1) * d + d
  {
  }

  /** k*stride <= g exactly when k is at most the quotient. */
  lemma AtMostQuotient(k: nat, g: nat, stride: nat)
    requires stride > 0
    ensures k * stride <= g <==> k <= g / stride
  {
    var q := g / stride;
    QuotientBounds(g, stride);
    if k <= q {
      MultiplesInOrder(k, q, stride);
    } else {
      MultiplesInOrder(q + 1, k, stride);
    }
  }

  /** a <= k*stride exactly when k is at least the rounded-up quotient. */
  lemma AtLeastCeiling(k: nat, a: nat, stride: nat)
    requires stride > 0
    ensures a <= k * stride <==> CeilDiv(a, stride) <= k
  {
    var c := CeilDiv(a, stride);
    QuotientBounds(a + stride - 1, stride);
    if c <= k {
      MultiplesInOrder(c, k, stride);
    } else {
      MultiplesInOrder(k + 1, c, stride);
    }
  }
}
