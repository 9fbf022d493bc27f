/** Real arithmetic behind names, so that proofs meet it where they ask for it. */
module Reals {

  function Product(x: real, y: real): (z: real)
    ensures x > 0.0 && y > 0.0 ==> z > 0.0
    ensures x >= 0.0 && y >= 0.0 ==> z >= 0.0
    ensures x != 0.0 && y != 0.0 ==> z != 0.0
  {
    x * y
  }

  function Square(x: real): (z: real)
    ensures z >= 0.0
  {
    Product(x, x)
  }

  function Ratio(x: real, y: real): real
    requires y != 0.0
  {
    x / y
  }

  lemma {:induction false} RatioAdds(x: real, y: real, d: real)
    requires d != 0.0
    ensures Ratio(x + y, d) == Ratio(x, d) + Ratio(y, d)
    ensures Ratio(0.0, d) == 0.0
  {
    var p, q := x / d, y / d;
    assert x == p * d && y == q * d;
    assert x + y == (p + q) * d;
    assert ((p + q) * d) / d == p + q;
  }

  lemma {:induction false} RatioSign(x: real, d: real)
    requires x >= 0.0 && d > 0.0
    ensures Ratio(x, d) >= 0.0
  {
  }

  lemma {:induction false} SelfRatio(x: real)
    requires x != 0.0
    ensures Ratio(x, x) == 1.0
  {
    assert (1.0 * x) / x == 1.0;
  }
}
