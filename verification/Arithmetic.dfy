/** Facts about products and quotients. */
module Arithmetic {
  lemma MulMonotone(x: nat, y: nat, d: nat)
    requires x <= y
    ensures x * d <= y * d
  {
  }

  lemma Distribute(k: nat, x: nat, y: nat)
    ensures k * (x + y) == k * x + k * y
  {
  }

  lemma LessByFactor(x: nat, y: nat, d: nat)
    requires d > 0 && x * d < y * d + d
    ensures x <= y
  {
    if x > y {
      MulMonotone(y + 1, x, d);
    }
  }

  lemma DivMonotone(a: nat, b: nat, d: nat)
    requires a <= b && d > 0
    ensures a / d <= b / d
  {
    LessByFactor(a / d, b / d, d);
  }

  lemma DivideOneMore(a: nat, d: nat)
    requires d > 0
    ensures (a + d) / d == a / d + 1
  {
    var q := a / d + 1;
    assert q * d == a / d * d + d;
    LessByFactor((a + d) / d, q, d);
    LessByFactor(q, (a + d) / d, d);
  }

  lemma DivideProduct(k: nat, d: nat)
    requires d > 0
    ensures k * d / d == k
  {
    QuotientBounds(k * d, d);
    LessByFactor(k * d / d, k, d);
    LessByFactor(k, k * d / d, d);
  }

  lemma QuotientBounds(a: nat, d: nat)
    requires d > 0
    ensures a / d * d <= a < a / d * d + d
  {
  }

  lemma QuotientIs(a: nat, d: nat, q: nat)
    requires d > 0 && q * d <= a < (q + 1) * d
    ensures a / d == q
  {
    QuotientBounds(a, d);
    LessByFactor(a / d, q, d);
    LessByFactor(q, a / d, d);
  }

  lemma DivideSum(q: nat, r: nat, d: nat)
    requires r < d
    ensures (q * d + r) / d == q && (q * d + r) % d == r
  {
    QuotientIs(q * d + r, d, q);
  }
}
