/** The few facts about products and quotients that several modules need. */
module Arithmetic {

  lemma MulMonotone(k: nat, a: int, b: int)
    requires a <= b
    ensures k * a <= k * b
  {
  }

  lemma CancelFactor(k: int, a: int, b: int)
    requires k > 0 && k * a <= k * b
    ensures a <= b
  {
    if a > b {
      MulMonotone(k, b + 1, a);
    }
  }

  lemma DivBounds(p: nat, k: nat)
    requires k > 0
    ensures 0 <= p / k
    ensures k * (p / k) <= p < k * (p / k) + k
  {
  }

  lemma QuotientIs(p: nat, k: nat, q: nat)
    requires k > 0 && k * q <= p < k * q + k
    ensures p / k == q && p % k == p - k * q
  {
    DivBounds(p, k);
    if p / k < q {
      MulMonotone(k, p / k + 1, q);
    } else if p / k > q {
      MulMonotone(k, q + 1, p / k);
    }
  }
}
