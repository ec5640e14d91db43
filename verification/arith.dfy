/** Floor-division facts the planner's integer arithmetic rests on. */
module Arith {

  lemma MulMono(a: nat, b: nat, k: nat)
    requires a <= b
    ensures a * k <= b * k
  {}

  lemma DivBounds(x: nat, k: nat)
    requires k >= 1
    ensures (x / k) * k <= x < (x / k) * k + k
  {}

  lemma LeFromMul(a: nat, b: nat, k: nat)
    requires k >= 1 && a * k < (b + 1) * k
    ensures a <= b
  {
    if a > b {
      MulMono(b + 1, a, k);
    }
  }

  /** The floor quotient is the one q with q * k <= x < q * k + k. */
  lemma DivUnique(x: nat, k: nat, q: nat)
    requires k >= 1 && q * k <= x < q * k + k
    ensures x / k == q
  {
    DivBounds(x, k);
    LeFromMul(q, x / k, k);
    LeFromMul(x / k, q, k);
  }

  lemma DivMono(x: nat, y: nat, k: nat)
    requires k >= 1 && x <= y
    ensures x / k <= y / k
  {
    DivBounds(x, k);
    DivBounds(y, k);
    LeFromMul(x / k, y / k, k);
  }

  lemma DivStep(x: nat, k: nat)
    requires k >= 1
    ensures (x + k) / k == x / k + 1
  {
    DivBounds(x, k);
    DivUnique(x + k, k, x / k + 1);
  }
}
