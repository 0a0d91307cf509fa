/**
 * Reference definitions of the vector operations on the sequence of
 * elements, independent of the in-place loop that computes them, and the
 * algebraic facts the operators promise about one another.
 */
module Elementwise {
  import opened Scalar

  /** Every element of `s` rewritten by `g`: the effect of a unary mutator such as `abs` or `flip`. */
  function Map(s: seq<int>, g: int -> int): seq<int> {
    seq(|s|, i requires 0 <= i < |s| => g(s[i]))
  }

  /** Every element of `s` is an admissible right operand of `op`. */
  predicate DefinedOver(op: Op, s: seq<int>) {
    forall i :: 0 <= i < |s| ==> Defined(op, s[i])
  }

  /** Broadcast with the vector on the left: element `i` is `s[i] op c`. */
  function Lift(s: seq<int>, c: int, op: Op): seq<int>
    requires Defined(op, c)
  {
    seq(|s|, i requires 0 <= i < |s| => Apply(op, s[i], c))
  }

  /** Broadcast with the scalar on the left: element `i` is `c op s[i]`. */
  function LiftLeft(c: int, s: seq<int>, op: Op): seq<int>
    requires DefinedOver(op, s)
  {
    seq(|s|, i requires 0 <= i < |s| => Apply(op, c, s[i]))
  }

  /** Elementwise combination of two vectors of one length: element `i` is `a[i] op b[i]`. */
  function Zip(a: seq<int>, b: seq<int>, op: Op): seq<int>
    requires |a| == |b| && DefinedOver(op, b)
  {
    seq(|a|, i requires 0 <= i < |a| => Apply(op, a[i], b[i]))
  }

  /** `(v + c) - c == v`. */
  lemma AddThenSubtract(s: seq<int>, c: int)
    ensures Lift(Lift(s, c, Plus), c, Minus) == s
  {
  }

  /** `(v * c) / c == v` for a nonzero `c`, under truncating division. */
  lemma MultiplyThenDivide(s: seq<int>, c: int)
    requires c != 0
    ensures Lift(Lift(s, c, Times), c, Over) == s
  {
    var r := Lift(Lift(s, c, Times), c, Over);
    forall i | 0 <= i < |s|
      ensures r[i] == s[i]
    {
      QuotOfMultiple(s[i], c);
    }
  }

  /** `(a + b) - b == a` elementwise. */
  lemma AddThenSubtractVector(a: seq<int>, b: seq<int>)
    requires |a| == |b|
    ensures Zip(Zip(a, b, Plus), b, Minus) == a
  {
  }

  /** `(a * b) / b == a` elementwise when no element of `b` is zero. */
  lemma MultiplyThenDivideVector(a: seq<int>, b: seq<int>)
    requires |a| == |b| && DefinedOver(Over, b)
    ensures Zip(Zip(a, b, Times), b, Over) == a
  {
    var r := Zip(Zip(a, b, Times), b, Over);
    forall i | 0 <= i < |a|
      ensures r[i] == a[i]
    {
      QuotOfMultiple(a[i], b[i]);
    }
  }

  /** Broadcasting a scalar is the elementwise operation against the vector `mono(c)`. */
  lemma BroadcastIsZipWithMono(s: seq<int>, c: int, op: Op)
    requires Defined(op, c)
    ensures DefinedOver(op, seq(|s|, _ => c))
    ensures Lift(s, c, op) == Zip(s, seq(|s|, _ => c), op)
  {
  }

  /** `c + v == v + c`. */
  lemma ReversedAddCommutes(c: int, s: seq<int>)
    ensures LiftLeft(c, s, Plus) == Lift(s, c, Plus)
  {
  }

  /** `c * v == v * c`. */
  lemma ReversedMultiplyCommutes(c: int, s: seq<int>)
    ensures LiftLeft(c, s, Times) == Lift(s, c, Times)
  {
  }

  /** `c - v` is the negation of `v - c`. */
  lemma ReversedSubtractNegates(c: int, s: seq<int>)
    ensures LiftLeft(c, s, Minus) == Map(Lift(s, c, Minus), Negate)
  {
    var d := Lift(s, c, Minus);
    forall i | 0 <= i < |s|
      ensures LiftLeft(c, s, Minus)[i] == Map(d, Negate)[i]
    {
      assert Map(d, Negate)[i] == Negate(d[i]);
    }
  }

  /** `c - v` and `v - c` agree exactly when every element of `v` equals `c`. */
  lemma ReversedSubtractAsymmetric(c: int, s: seq<int>)
    ensures LiftLeft(c, s, Minus) == Lift(s, c, Minus) <==> forall i :: 0 <= i < |s| ==> s[i] == c
  {
    if LiftLeft(c, s, Minus) == Lift(s, c, Minus) {
      forall i | 0 <= i < |s|
        ensures s[i] == c
      {
        assert LiftLeft(c, s, Minus)[i] == Lift(s, c, Minus)[i];
      }
    }
  }

  /** `c / v` divides the scalar by each element, which is not `v / c`: `6 / [2, 4]` is `[3, 1]`, `[2, 4] / 6` is `[0, 0]`. */
  lemma ReversedDivideAsymmetric()
    ensures LiftLeft(6, [2, 4], Over) == [3, 1]
    ensures Lift([2, 4], 6, Over) == [0, 0]
  {
    QuotOfMultiple(3, 2);
    assert Quot(6, 4) == 1;
    assert Quot(2, 6) == 0;
    assert Quot(4, 6) == 0;
  }

  /** `flip` is the broadcast multiplication by -1. */
  lemma FlipIsTimesMinusOne(s: seq<int>)
    ensures Map(s, Negate) == Lift(s, -1, Times)
  {
    forall i | 0 <= i < |s|
      ensures Map(s, Negate)[i] == Lift(s, -1, Times)[i]
    {
      assert Map(s, Negate)[i] == Negate(s[i]);
    }
  }

  /** Negating twice restores every element. */
  lemma FlipTwice(s: seq<int>)
    ensures Map(Map(s, Negate), Negate) == s
  {
    var once := Map(s, Negate);
    forall i | 0 <= i < |s|
      ensures Map(once, Negate)[i] == s[i]
    {
      assert once[i] == Negate(s[i]);
      assert Map(once, Negate)[i] == Negate(once[i]);
    }
  }

  /** After `abs` every element is non-negative, and a second `abs` changes nothing. */
  lemma AbsIdempotent(s: seq<int>)
    ensures forall i :: 0 <= i < |s| ==> Map(s, Abs)[i] >= 0
    ensures Map(Map(s, Abs), Abs) == Map(s, Abs)
  {
    var once := Map(s, Abs);
    forall i | 0 <= i < |s|
      ensures once[i] >= 0 && Map(once, Abs)[i] == once[i]
    {
      assert once[i] == Abs(s[i]);
      assert Map(once, Abs)[i] == Abs(once[i]);
    }
  }

  /** `v += v` reads its operand before any element changes, so it doubles every element. */
  lemma SelfAddDoubles(s: seq<int>)
    ensures Zip(s, s, Plus) == Lift(s, 2, Times)
  {
  }
}
