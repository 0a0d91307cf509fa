/**
 * `Vec<length, num>`: a vector of a fixed number of scalars that owns its
 * storage. Every named mutator (`abs`, `flip`, the compound operators)
 * rewrites the storage in place through `ForEach`; every non-mutating
 * operator copies the receiver first and runs the same in-place loop on the
 * copy. A write through the subscript changes one element directly
 * (`Put`). Scalars are integers; the length is the length of the storage
 * array, fixed when the vector is created.
 */
module VecLib {
  import Scalar
  import opened Elementwise
  import opened Transform
  import opened Render

  class Vec {
    /** The elements. Every way of creating a `Vec` allocates this storage fresh. */
    const list: array<int>

    /** Construction from an array of elements, which is copied in. */
    constructor (init: seq<int>)
      ensures fresh(list)
      ensures list[..] == init
    {
      list := new int[|init|](i requires 0 <= i < |init| => init[i]);
    }

    /** Default construction: every element value-initialised to zero. */
    constructor Zeroed(n: nat)
      ensures fresh(list)
      ensures list.Length == n
      ensures forall i :: 0 <= i < n ==> list[i] == 0
    {
      list := new int[n](_ => 0);
    }

    /** A vector of length `n` whose every element is `val`. */
    static method Mono(n: nat, val: int) returns (v: Vec)
      ensures fresh(v) && fresh(v.list)
      ensures v.list.Length == n
      ensures forall i :: 0 <= i < n ==> v.list[i] == val
    {
      v := new Vec(seq(n, _ => val));
    }

    /** Reading element `i` through the subscript; there is no bounds check, hence the precondition. */
    method At(i: nat) returns (x: int)
      requires i < list.Length
      ensures x == list[i]
    {
      x := list[i];
    }

    /** Writing element `i` through the reference the subscript returns. */
    method Put(i: nat, x: int)
      requires i < list.Length
      modifies list
      ensures list[..] == old(list[..])[i := x]
    {
      list[i] := x;
    }

    /**
     * Visits the indices in ascending order and overwrites element `i` with
     * `f(vector, element i, i)`, where the vector is the receiver as it
     * stands; returns the receiver.
     */
    method ForEach(f: Step) returns (self: Vec)
      requires Admits(f, list[..])
      modifies list
      ensures self == this
      ensures IsForEach(f, old(list[..]), list[..])
    {
      var i := 0;
      while i < list.Length
        invariant 0 <= i <= list.Length
        invariant forall k :: i <= k < list.Length ==> list[k] == old(list[k])
        invariant forall k: nat :: k < i ==>
          f.requires(list[..k] + old(list[..])[k..], old(list[k]), k) &&
          list[k] == f(list[..k] + old(list[..])[k..], old(list[k]), k)
      {
        ghost var before := list[..];
        assert before == list[..i] + old(list[..])[i..];
        list[i] := f(list[..], list[i], i);
        forall k: nat | k <= i
          ensures list[..k] == before[..k]
        {
        }
        i := i + 1;
      }
      self := this;
      forall k: nat | k < list.Length
        ensures View(old(list[..]), list[..], k) == list[..k] + old(list[..])[k..]
      {
      }
    }

    /** An independent vector with the same elements. */
    method Copy() returns (c: Vec)
      ensures fresh(c) && fresh(c.list)
      ensures c.list[..] == list[..]
    {
      c := new Vec(list[..]);
    }

    /** The number of elements. */
    method Size() returns (n: nat)
      ensures n == list.Length
    {
      n := list.Length;
    }

    /** Replaces every element by its absolute value. */
    method Abs() returns (self: Vec)
      modifies list
      ensures self == this
      ensures list[..] == Map(old(list[..]), Scalar.Abs)
      ensures forall i :: 0 <= i < list.Length ==> list[i] >= 0
    {
      self := ForEach((u: seq<int>, x: int, i: nat) => Scalar.Abs(x));
      AbsIdempotent(old(list[..]));
    }

    /** Negates every element. */
    method Flip() returns (self: Vec)
      modifies list
      ensures self == this
      ensures list[..] == Map(old(list[..]), Scalar.Negate)
    {
      self := ForEach((u: seq<int>, x: int, i: nat) => x * -1);
      forall i | 0 <= i < list.Length
        ensures list[i] == Map(old(list[..]), Scalar.Negate)[i]
      {
        assert Map(old(list[..]), Scalar.Negate)[i] == Scalar.Negate(old(list[i]));
      }
    }

    // Non-mutating broadcast operators: copy, then rewrite the copy.

    /** `v + c`. */
    method Add(c: int) returns (r: Vec)
      ensures fresh(r) && fresh(r.list)
      ensures r.list[..] == Lift(old(list[..]), c, Scalar.Plus)
      ensures list[..] == old(list[..])
    {
      var w := Copy();
      r := w.ForEach((u: seq<int>, x: int, i: nat) => x + c);
    }

    /** `v - c`. */
    method Sub(c: int) returns (r: Vec)
      ensures fresh(r) && fresh(r.list)
      ensures r.list[..] == Lift(old(list[..]), c, Scalar.Minus)
      ensures list[..] == old(list[..])
    {
      var w := Copy();
      r := w.ForEach((u: seq<int>, x: int, i: nat) => x - c);
    }

    /** `v * c`. */
    method Mul(c: int) returns (r: Vec)
      ensures fresh(r) && fresh(r.list)
      ensures r.list[..] == Lift(old(list[..]), c, Scalar.Times)
      ensures list[..] == old(list[..])
    {
      var w := Copy();
      r := w.ForEach((u: seq<int>, x: int, i: nat) => x * c);
    }

    /** `v / c`, truncating toward zero. */
    method Div(c: int) returns (r: Vec)
      requires c != 0
      ensures fresh(r) && fresh(r.list)
      ensures r.list[..] == Lift(old(list[..]), c, Scalar.Over)
      ensures list[..] == old(list[..])
    {
      var w := Copy();
      r := w.ForEach((u: seq<int>, x: int, i: nat) => Scalar.Quot(x, c));
    }

    // Non-mutating elementwise operators. The operand is captured by value
    // before the loop starts.

    /** `a + b`. */
    method AddVec(b: Vec) returns (r: Vec)
      requires b.list.Length == list.Length
      ensures fresh(r) && fresh(r.list)
      ensures r.list[..] == Zip(old(list[..]), old(b.list[..]), Scalar.Plus)
      ensures list[..] == old(list[..]) && b.list[..] == old(b.list[..])
    {
      var other := b.list[..];
      var w := Copy();
      r := w.ForEach((u: seq<int>, x: int, i: nat) requires i < |other| => x + other[i]);
    }

    /** `a - b`. */
    method SubVec(b: Vec) returns (r: Vec)
      requires b.list.Length == list.Length
      ensures fresh(r) && fresh(r.list)
      ensures r.list[..] == Zip(old(list[..]), old(b.list[..]), Scalar.Minus)
      ensures list[..] == old(list[..]) && b.list[..] == old(b.list[..])
    {
      var other := b.list[..];
      var w := Copy();
      r := w.ForEach((u: seq<int>, x: int, i: nat) requires i < |other| => x - other[i]);
    }

    /** `a * b`. */
    method MulVec(b: Vec) returns (r: Vec)
      requires b.list.Length == list.Length
      ensures fresh(r) && fresh(r.list)
      ensures r.list[..] == Zip(old(list[..]), old(b.list[..]), Scalar.Times)
      ensures list[..] == old(list[..]) && b.list[..] == old(b.list[..])
    {
      var other := b.list[..];
      var w := Copy();
      r := w.ForEach((u: seq<int>, x: int, i: nat) requires i < |other| => x * other[i]);
    }

    /** `a / b`, truncating toward zero; no element of `b` may be zero. */
    method DivVec(b: Vec) returns (r: Vec)
      requires b.list.Length == list.Length
      requires forall i :: 0 <= i < b.list.Length ==> b.list[i] != 0
      ensures fresh(r) && fresh(r.list)
      ensures r.list[..] == Zip(old(list[..]), old(b.list[..]), Scalar.Over)
      ensures list[..] == old(list[..]) && b.list[..] == old(b.list[..])
    {
      var other := b.list[..];
      var w := Copy();
      r := w.ForEach((u: seq<int>, x: int, i: nat) requires i < |other| && other[i] != 0 => Scalar.Quot(x, other[i]));
    }

    // Compound broadcast operators: rewrite the receiver in place.

    /** `v += c`. */
    method AddAssign(c: int) returns (self: Vec)
      modifies list
      ensures self == this
      ensures list[..] == Lift(old(list[..]), c, Scalar.Plus)
    {
      self := ForEach((u: seq<int>, x: int, i: nat) => x + c);
    }

    /** `v -= c`. */
    method SubAssign(c: int) returns (self: Vec)
      modifies list
      ensures self == this
      ensures list[..] == Lift(old(list[..]), c, Scalar.Minus)
    {
      self := ForEach((u: seq<int>, x: int, i: nat) => x - c);
    }

    /** `v *= c`. */
    method MulAssign(c: int) returns (self: Vec)
      modifies list
      ensures self == this
      ensures list[..] == Lift(old(list[..]), c, Scalar.Times)
    {
      self := ForEach((u: seq<int>, x: int, i: nat) => x * c);
    }

    /** `v /= c`, truncating toward zero. */
    method DivAssign(c: int) returns (self: Vec)
      requires c != 0
      modifies list
      ensures self == this
      ensures list[..] == Lift(old(list[..]), c, Scalar.Over)
    {
      self := ForEach((u: seq<int>, x: int, i: nat) => Scalar.Quot(x, c));
    }

    // Compound elementwise operators. The operand is captured by value, so
    // `a += a` reads the old elements of `a` throughout.

    /** `a += b`. */
    method AddAssignVec(b: Vec) returns (self: Vec)
      requires b.list.Length == list.Length
      modifies list
      ensures self == this
      ensures list[..] == Zip(old(list[..]), old(b.list[..]), Scalar.Plus)
      ensures b.list != list ==> b.list[..] == old(b.list[..])
    {
      var other := b.list[..];
      self := ForEach((u: seq<int>, x: int, i: nat) requires i < |other| => x + other[i]);
    }

    /** `a -= b`. */
    method SubAssignVec(b: Vec) returns (self: Vec)
      requires b.list.Length == list.Length
      modifies list
      ensures self == this
      ensures list[..] == Zip(old(list[..]), old(b.list[..]), Scalar.Minus)
      ensures b.list != list ==> b.list[..] == old(b.list[..])
    {
      var other := b.list[..];
      self := ForEach((u: seq<int>, x: int, i: nat) requires i < |other| => x - other[i]);
    }

    /** `a *= b`. */
    method MulAssignVec(b: Vec) returns (self: Vec)
      requires b.list.Length == list.Length
      modifies list
      ensures self == this
      ensures list[..] == Zip(old(list[..]), old(b.list[..]), Scalar.Times)
      ensures b.list != list ==> b.list[..] == old(b.list[..])
    {
      var other := b.list[..];
      self := ForEach((u: seq<int>, x: int, i: nat) requires i < |other| => x * other[i]);
    }

    /** `a /= b`, truncating toward zero; no element of `b` may be zero. */
    method DivAssignVec(b: Vec) returns (self: Vec)
      requires b.list.Length == list.Length
      requires forall i :: 0 <= i < b.list.Length ==> b.list[i] != 0
      modifies list
      ensures self == this
      ensures list[..] == Zip(old(list[..]), old(b.list[..]), Scalar.Over)
      ensures b.list != list ==> b.list[..] == old(b.list[..])
    {
      var other := b.list[..];
      self := ForEach((u: seq<int>, x: int, i: nat) requires i < |other| && other[i] != 0 => Scalar.Quot(x, other[i]));
    }

    /**
     * The text "{ e0, e1, ..., e(N-1) }", with `toStr` giving each element's
     * text. The vector must not be empty: the loop bound `size - 1` is
     * computed in unsigned arithmetic.
     */
    method ToString(toStr: int -> string) returns (str: string)
      requires list.Length > 0
      ensures str == Braced(list[..], toStr)
    {
      str := "{ ";
      var n := list.Length;
      var i := 0;
      while i < n - 1
        invariant 0 <= i <= n - 1
        invariant str == "{ " + Leading(list[..i], toStr)
      {
        assert list[..i + 1][..i] == list[..i];
        str := str + toStr(list[i]) + ", ";
        i := i + 1;
      }
      str := str + toStr(list[n - 1]);
      str := str + " }";
      LeadingThenLast(list[..], toStr);
      assert list[..][..n - 1] == list[..n - 1];
    }
  }

  // The free operators with the scalar on the left.

  /** `c + v`, computed as `v + c`. */
  method ScalarAdd(c: int, v: Vec) returns (r: Vec)
    ensures fresh(r) && fresh(r.list)
    ensures r.list[..] == LiftLeft(c, old(v.list[..]), Scalar.Plus)
    ensures v.list[..] == old(v.list[..])
  {
    r := v.Add(c);
    ReversedAddCommutes(c, v.list[..]);
  }

  /** `c - v`: element `i` is `c - v[i]`. */
  method ScalarSub(c: int, v: Vec) returns (r: Vec)
    ensures fresh(r) && fresh(r.list)
    ensures r.list[..] == LiftLeft(c, old(v.list[..]), Scalar.Minus)
    ensures v.list[..] == old(v.list[..])
  {
    var w := v.Copy();
    r := w.ForEach((u: seq<int>, x: int, i: nat) => c - x);
  }

  /** `c * v`, computed as `v * c`. */
  method ScalarMul(c: int, v: Vec) returns (r: Vec)
    ensures fresh(r) && fresh(r.list)
    ensures r.list[..] == LiftLeft(c, old(v.list[..]), Scalar.Times)
    ensures v.list[..] == old(v.list[..])
  {
    r := v.Mul(c);
    ReversedMultiplyCommutes(c, v.list[..]);
  }

  /** `c / v`: element `i` is `c / v[i]`, truncating toward zero; no element of `v` may be zero. */
  method ScalarDiv(c: int, v: Vec) returns (r: Vec)
    requires forall i :: 0 <= i < v.list.Length ==> v.list[i] != 0
    ensures fresh(r) && fresh(r.list)
    ensures r.list[..] == LiftLeft(c, old(v.list[..]), Scalar.Over)
    ensures v.list[..] == old(v.list[..])
  {
    var w := v.Copy();
    r := w.ForEach((u: seq<int>, x: int, i: nat) requires x != 0 => Scalar.Quot(c, x));
  }

  // What callers can rely on, derived from the contracts alone.

  /** Mutating a copy leaves the original untouched. */
  method CopyThenAddAssign(v: Vec, c: int) returns (w: Vec)
    ensures fresh(w.list)
    ensures w.list[..] == Lift(old(v.list[..]), c, Scalar.Plus)
    ensures v.list[..] == old(v.list[..])
  {
    w := v.Copy();
    w := w.AddAssign(c);
  }

  /** A copy has storage of its own, so `copy += v` leaves `v` unchanged. */
  method CopyThenAddAssignVec(v: Vec) returns (w: Vec)
    ensures fresh(w.list)
    ensures w.list[..] == Zip(old(v.list[..]), old(v.list[..]), Scalar.Plus)
    ensures v.list[..] == old(v.list[..])
  {
    w := v.Copy();
    w := w.AddAssignVec(v);
  }

  /** `(v + c) - c` has the elements of `v`. */
  method AddThenSub(v: Vec, c: int) returns (r: Vec)
    ensures fresh(r.list)
    ensures r.list[..] == old(v.list[..])
    ensures v.list[..] == old(v.list[..])
  {
    var sum := v.Add(c);
    r := sum.Sub(c);
    AddThenSubtract(v.list[..], c);
  }

  /** `flip(); flip()` restores the contents. */
  method FlipTwiceRestores(v: Vec)
    modifies v.list
    ensures v.list[..] == old(v.list[..])
  {
    var _ := v.Flip();
    var _ := v.Flip();
    FlipTwice(old(v.list[..]));
  }

  /** `v += v` doubles every element, because the operand is read before the loop. */
  method SelfAddAssignDoubles(v: Vec)
    modifies v.list
    ensures v.list[..] == Lift(old(v.list[..]), 2, Scalar.Times)
  {
    var _ := v.AddAssignVec(v);
    SelfAddDoubles(old(v.list[..]));
  }

  /** `for_each` with the identity function leaves the contents unchanged. */
  method ForEachIdentityKeeps(v: Vec)
    modifies v.list
    ensures v.list[..] == old(v.list[..])
  {
    ForEachIdentity(v.list[..], v.list[..]);
    var _ := v.ForEach((u: seq<int>, x: int, i: nat) => x);
    ForEachIdentity(old(v.list[..]), v.list[..]);
  }

  /** A write through the subscript is what a later read of that element gives. */
  method PutThenAt(v: Vec, i: nat, x: int) returns (y: int)
    requires i < v.list.Length
    modifies v.list
    ensures y == x
    ensures v.list[..] == old(v.list[..])[i := x]
  {
    v.Put(i, x);
    y := v.At(i);
  }

  /** `mono(5)` of length 3 renders as "{ 5, 5, 5 }" when 5 converts to "5". */
  method MonoOfFiveRenders(toStr: int -> string) returns (s: string)
    requires toStr(5) == "5"
    ensures s == "{ 5, 5, 5 }"
  {
    var v := Vec.Mono(3, 5);
    s := v.ToString(toStr);
    assert v.list[..] == [5, 5, 5];
    RenderMonoOfFive(toStr);
  }
}
