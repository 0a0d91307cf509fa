/**
 * Scalar arithmetic behind the vector operations. The element type of
 * the vector is modelled as the mathematical integers; this module fixes
 * the meaning of each arithmetic operator on one pair of elements.
 */
module Scalar {

  /** The four arithmetic operators the vector overloads. */
  datatype Op = Plus | Minus | Times | Over

  /** Whether `y` is an admissible right operand of `op`: integer division by zero is undefined. */
  predicate Defined(op: Op, y: int) {
    op == Over ==> y != 0
  }

  /** `std::abs` on an integer element. */
  function Abs(x: int): (r: int)
    ensures r >= 0
    ensures r == x || r == -x
  {
    if x < 0 then -x else x
  }

  /** The element function of `flip`, which multiplies by -1. */
  function Negate(x: int): (r: int)
    ensures r + x == 0
  {
    x * -1
  }

  /**
   * Integer division as C++ performs it: the quotient is truncated toward
   * zero, so it is never further from zero than the exact quotient, and the
   * remainder `a - q * b` has the sign of `a`.
   */
  function Quot(a: int, b: int): (q: int)
    requires b != 0
    ensures Abs(q * b) <= Abs(a) < Abs(q * b) + Abs(b)
    ensures q == 0 || ((q < 0) <==> ((a < 0) != (b < 0)))
  {
    var m := Abs(a) / Abs(b);
    QuotMagnitude(a, b, m);
    if (a < 0) == (b < 0) then m else -m
  }

  /** The magnitude of the truncated quotient is the Euclidean quotient of the magnitudes. */
  lemma QuotMagnitude(a: int, b: int, m: int)
    requires b != 0 && m == Abs(a) / Abs(b)
    ensures m >= 0
    ensures Abs(m * b) == m * Abs(b) == Abs(-m * b)
    ensures m * Abs(b) <= Abs(a) < m * Abs(b) + Abs(b)
  {
    var d := Abs(b);
    assert Abs(a) == m * d + Abs(a) % d;
    if b < 0 {
      assert m * b == -(m * d);
      assert -m * b == m * d;
    } else {
      assert m * b == m * d;
      assert -m * b == -(m * d);
    }
  }

  /** Dividing an exact multiple of `c` by `c` gives back the factor. */
  lemma QuotOfMultiple(x: int, c: int)
    requires c != 0
    ensures Quot(x * c, c) == x
  {
    AbsOfProduct(x, c);
    DivOfMultiple(Abs(x), Abs(c));
    if x > 0 {
      assert (x * c < 0) == (c < 0);
    } else if x < 0 {
      assert (x * c < 0) != (c < 0);
    }
  }

  lemma AbsOfProduct(x: int, c: int)
    ensures Abs(x * c) == Abs(x) * Abs(c)
  {
    if x < 0 && c < 0 {
      assert x * c == (-x) * (-c);
    } else if x < 0 {
      assert x * c == -((-x) * c);
    } else if c < 0 {
      assert x * c == -(x * (-c));
    }
  }

  /** Euclidean division of `k * d` by a positive `d` is exact. */
  lemma DivOfMultiple(k: nat, d: int)
    requires d > 0
    ensures (k * d) / d == k
  {
    var q, r := (k * d) / d, (k * d) % d;
    assert (k - q) * d == r;
    PositiveFactor(k - q + 1, d);
    PositiveFactor(q - k + 1, d);
  }

  /** A product with a positive factor is positive only if the other factor is. */
  lemma PositiveFactor(a: int, d: int)
    requires d > 0 && a * d > 0
    ensures a > 0
  {
  }

  /** The value of `x op y` on one pair of elements. */
  function Apply(op: Op, x: int, y: int): int
    requires Defined(op, y)
  {
    match op
    case Plus => x + y
    case Minus => x - y
    case Times => x * y
    case Over => Quot(x, y)
  }
}
