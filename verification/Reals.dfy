/** Facts about products of reals that the solver needs to be told. */
module Reals {

  lemma ProductIsPositive(x: real, y: real, product: real)
    requires x > 0.0 && y > 0.0 && product == x * y
    ensures product > 0.0
  {
  }

  lemma ZeroSquare(x: real)
    ensures x * x >= 0.0
    ensures x * x == 0.0 <==> x == 0.0
  {
    if x > 0.0 {
      ProductIsPositive(x, x, x * x);
    } else if x < 0.0 {
      ProductIsPositive(-x, -x, x * x);
    }
  }
}
