/** Sums of reals, and congruence of products, which the solver does not see by itself. */
module Reals {

  function Sum(xs: seq<real>): real {
    if xs == [] then 0.0 else Sum(xs[..|xs| - 1]) + xs[|xs| - 1]
  }

  function Inverse(s: real): (k: real)
    requires s != 0.0
    ensures k * s == 1.0 && s * k == 1.0
  {
    1.0 / s
  }

  /** A product that proofs can keep closed. */
  function Product(a: real, b: real): real {
    a * b
  }

  lemma SameProduct(a: real, x: real, y: real)
    requires x == y
    ensures a * x == a * y
  {
  }

  lemma Square(a: real, b: real)
    requires a == b
    ensures a * a == b * b
  {
  }
}
