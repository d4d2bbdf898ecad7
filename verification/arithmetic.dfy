/** Small facts about integer multiplication and division shared by the
    fee, slot and block-size arguments. */
module Arithmetic {

  /** Multiplying by a non-negative factor keeps the order. */
  lemma MulMonotone(k: int, a: int, b: int)
    requires k >= 0 && a <= b
    ensures k * a <= k * b
  {
    assert k * b - k * a == k * (b - a);
  }

  /** Euclidean division bracket: `q * k <= n < (q + 1) * k`. */
  lemma DivBracket(n: nat, k: nat)
    requires k > 0
    ensures (n / k) * k <= n < (n / k + 1) * k
  {
  }

  /** Dividing by the same positive divisor keeps the order. */
  lemma DivMonotone(a: nat, b: nat, k: nat)
    requires a <= b && k > 0
    ensures a / k <= b / k
  {
    DivBracket(a, k);
    DivBracket(b, k);
  }
}
