# VecLib `Vec` in Dafny

This project models `Vec<length, num>`, the fixed-length numeric vector of
VecLib (`Vec.h`), and proves what its operations do.

A `Vec` owns an array of `length` scalars. Every named mutator goes through
one primitive, `for_each`. A write through the subscript (`operator[]`)
or into the public `list` field changes the storage directly, without
`for_each`. `for_each` visits the indices in ascending order and
overwrites element `i` with `f(vector, element i, i)`. Then it returns the
receiver. The mutators (`abs`, `flip`, `+=`, `-=`, `*=`, `/=`)
call `for_each` on the receiver. The non-mutating operators (`+ - * /`)
call `copy()` first and run `for_each` on the copy. The free operators with
the scalar on the left (`c + v`, `c - v`, `c * v`, `c / v`) either forward
to the vector-on-the-left form or run their own `for_each` on a copy.
`toString` builds `"{ e0, e1, ..., e(N-1) }"` in a loop.

Modules:

- `Scalar` (`scalar.dfy`): the meaning of one arithmetic operation on two
  elements. Elements are mathematical integers. Division truncates toward
  zero, as C++ integer division does (`Quot`).
- `Elementwise` (`elementwise.dfy`): reference definitions of the vector
  operations as functions on sequences. `Map` covers the unary mutators,
  `Lift` covers `v op c`, `LiftLeft` covers `c op v`, and `Zip` covers
  `a op b`. The module also holds the algebraic facts relating the
  operators: round trips, commutation of the reversed forms, the asymmetry
  of `c - v` and `c / v`, `flip` twice, `abs` idempotence, and `v += v`.
- `Transform` (`transform.dfy`): the meaning of `for_each` as a relation
  `IsForEach(f, before, after)`. Element `i` of the result is `f` applied
  to what the receiver holds when the loop reaches `i`: new values below
  `i`, old values from `i` on. The module proves that this relation has at
  most one outcome (`Vec.ForEach` produces it whenever `f` can be applied
  to every element), that it is a plain map when `f` ignores the vector
  (as every mutator's callback does), and that it turns "add the previous
  element" into running sums.
- `Render` (`render.dfy`): the text layout of `toString`.
- `VecLib` (`vec.dfy`): the class `Vec`, with the storage as an `array<int>`,
  its methods, the free reversed-operand operators, and client methods that
  derive properties of the operators from their contracts alone.

Every method that changes a vector through `for_each` is proved against
these reference definitions; `Put`, the write through the subscript, states
its new contents as the old ones with element `i` replaced. For example, `AddAssignVec` ends with
`list[..] == Zip(old(list[..]), old(b.list[..]), Plus)`. The lemmas of
`Elementwise`, `Transform` and `Render` state the properties of the
definitions themselves.

The code raises no errors. Operand lengths agree by the template type, so
the model requires equal lengths. The subscript does no bounds check, so the
model requires an in-range index. `for_each` passes the live receiver
`*this` to the callback, whose elements before `i` are already rewritten;
`IsForEach` states exactly that.

## Model

| member | source | states |
|---|---|---|
| VecLib.Vec.constructor | Vec.h:14-16 | the vector gets storage of its own holding exactly the given elements |
| VecLib.Vec.Zeroed | Vec.h:14-16 | the default argument gives, in fresh storage, `n` elements that are all zero |
| VecLib.Vec.Mono | Vec.h:18-22 | a new vector of length `n` in fresh storage, every element equal to `val` |
| VecLib.Vec.At | Vec.h:24-26 | reading through the subscript gives the stored element `i`; requires `i < length` |
| VecLib.Vec.Put | Vec.h:24-26 | writing through the subscript's reference changes element `i` to `x` and nothing else |
| VecLib.PutThenAt | Vec.h:24-26 | a read of element `i` after writing `x` through the subscript gives `x`, and only element `i` changed |
| VecLib.Vec.ForEach | Vec.h:28-34 | the receiver is returned, and its new contents satisfy `IsForEach`: element `i` is `f` of the live vector (new values below `i`, old from `i` on), the old element `i`, and `i` |
| Transform.ForEachPrefixDetermined | Vec.h:28-34 | any two outcomes of `for_each` from the same contents agree on every prefix |
| Transform.ForEachDeterministic | Vec.h:28-34 | `for_each` has at most one outcome, even when `f` reads elements already rewritten; `Vec.ForEach` produces it whenever `f` admits every element |
| Transform.ForEachPointwise | Vec.h:28-34 | when `f` ignores the vector argument, the outcome is exactly the map of `f` over the old elements, in both directions |
| Transform.ForEachIdentity | Vec.h:28-34 | with the identity callback an outcome is valid if and only if it equals the old contents |
| Transform.ForEachSeesRewrittenPrefix | Vec.h:28-34 | with "add the element before `i` in the vector" as the callback, element `k` becomes the sum of the first `k + 1` old elements: the callback sees rewritten elements |
| VecLib.ForEachIdentityKeeps | Vec.h:28-34 | calling `for_each` with the identity leaves the contents unchanged |
| VecLib.Vec.Copy | Vec.h:38-40 | a new vector in fresh storage with the same elements |
| VecLib.CopyThenAddAssign | Vec.h:38-40 | `+=` on a copy gives the copy `v + c` and leaves the original unchanged |
| VecLib.CopyThenAddAssignVec | Vec.h:38-40 | `+=` on a copy with the original as operand gives `v[i] + v[i]` and leaves the original unchanged, because the copy's storage is fresh |
| VecLib.Vec.Size | Vec.h:52-54 | returns the fixed length of the storage |
| Scalar.Abs | Vec.h:58-60 | the result is non-negative and equals `x` or `-x` |
| VecLib.Vec.Abs | Vec.h:58-60 | every element is replaced by its absolute value and is then non-negative |
| Elementwise.AbsIdempotent | Vec.h:58-60 | after `abs` every element is non-negative, and a second `abs` changes nothing |
| Scalar.Negate | Vec.h:74-76 | `x * -1` added to `x` gives zero |
| VecLib.Vec.Flip | Vec.h:74-76 | every element is replaced by its negation |
| Elementwise.FlipIsTimesMinusOne | Vec.h:74-76 | `flip` gives the same contents as `v * -1` |
| Elementwise.FlipTwice | Vec.h:74-76 | negating every element twice restores the original contents |
| VecLib.FlipTwiceRestores | Vec.h:74-76 | calling `flip(); flip()` on a vector leaves its contents as they were |
| VecLib.Vec.Add | Vec.h:86-89 | a new vector with `v[i] + c` at every `i`; `v` is unchanged |
| VecLib.Vec.AddVec | Vec.h:91-93 | a new vector with `a[i] + b[i]` at every `i`; neither operand changes |
| VecLib.Vec.AddAssign | Vec.h:95-98 | the receiver becomes `old(v[i]) + c` at every `i` and is returned |
| VecLib.Vec.AddAssignVec | Vec.h:100-102 | the receiver becomes `old(a[i]) + old(b[i])` at every `i` and is returned; `b` is unchanged unless it shares the receiver's storage (`b.list == list`) |
| Elementwise.SelfAddDoubles | Vec.h:100-102 | since the operand is captured before the loop, `v += v` is the same as `v * 2` |
| VecLib.SelfAddAssignDoubles | Vec.h:100-102 | calling `v += v` doubles every element |
| VecLib.Vec.Sub | Vec.h:106-109 | a new vector with `v[i] - c` at every `i`; `v` is unchanged |
| VecLib.Vec.SubVec | Vec.h:111-113 | a new vector with `a[i] - b[i]` at every `i`; neither operand changes |
| VecLib.Vec.SubAssign | Vec.h:115-118 | the receiver becomes `old(v[i]) - c` at every `i` and is returned |
| VecLib.Vec.SubAssignVec | Vec.h:120-122 | the receiver becomes `old(a[i]) - old(b[i])` at every `i` and is returned; `b` is unchanged unless it shares the receiver's storage (`b.list == list`) |
| Elementwise.AddThenSubtract | Vec.h:86-109 | `(v + c) - c` equals `v` |
| VecLib.AddThenSub | Vec.h:86-109 | computing `(v + c) - c` with the non-mutating operators gives back the elements of `v` and leaves `v` unchanged |
| Elementwise.AddThenSubtractVector | Vec.h:91-113 | `(a + b) - b` equals `a` |
| Elementwise.BroadcastIsZipWithMono | Vec.h:86-93 | a scalar broadcast equals the elementwise operation against `mono(c)` of the same length |
| VecLib.Vec.Mul | Vec.h:126-129 | a new vector with `v[i] * c` at every `i`; `v` is unchanged |
| VecLib.Vec.MulVec | Vec.h:131-133 | a new vector with `a[i] * b[i]` at every `i`; neither operand changes |
| VecLib.Vec.MulAssign | Vec.h:135-138 | the receiver becomes `old(v[i]) * c` at every `i` and is returned |
| VecLib.Vec.MulAssignVec | Vec.h:140-142 | the receiver becomes `old(a[i]) * old(b[i])` at every `i` and is returned; `b` is unchanged unless it shares the receiver's storage (`b.list == list`) |
| Scalar.Quot | Vec.h:146-149 | integer division truncating toward zero: `Abs(q * b) <= Abs(a) < Abs(q * b) + Abs(b)`, and `q` is zero or has the sign of the exact quotient |
| Scalar.QuotOfMultiple | Vec.h:146-149 | dividing `x * c` by a nonzero `c` gives `x` |
| VecLib.Vec.Div | Vec.h:146-149 | a new vector with `v[i] / c` (truncated) at every `i`, for nonzero `c`; `v` is unchanged |
| VecLib.Vec.DivVec | Vec.h:151-153 | a new vector with `a[i] / b[i]` (truncated) at every `i`, for nonzero `b[i]`; neither operand changes |
| VecLib.Vec.DivAssign | Vec.h:155-158 | the receiver becomes `old(v[i]) / c` (truncated) at every `i` and is returned |
| VecLib.Vec.DivAssignVec | Vec.h:160-162 | the receiver becomes `old(a[i]) / old(b[i])` (truncated) at every `i` and is returned; `b` is unchanged unless it shares the receiver's storage (`b.list == list`) |
| Elementwise.MultiplyThenDivide | Vec.h:126-149 | `(v * c) / c` equals `v` for every nonzero `c` |
| Elementwise.MultiplyThenDivideVector | Vec.h:131-153 | `(a * b) / b` equals `a` when no element of `b` is zero |
| VecLib.Vec.ToString | Vec.h:182-190 | for a non-empty vector, the loop's text is `"{ "`, the elements' texts joined by `", "`, then `" }"` |
| Render.LeadingThenLast | Vec.h:185-187 | the loop's output over the first `N - 1` elements (each text followed by `", "`), then the last element's text, is the joined text |
| Render.JoinAppend | Vec.h:185-187 | one more element adds a separator and its text at the end |
| Render.RenderSingle | Vec.h:182-190 | a one-element vector renders as `"{ " + text + " }"`, with no separator |
| Render.RenderMonoOfFive | Vec.h:182-190 | the contents `[5, 5, 5]` render as `"{ 5, 5, 5 }"` when 5 converts to `"5"` |
| VecLib.MonoOfFiveRenders | Vec.h:18-22 | `Vec.Mono(3, 5)` followed by `ToString` gives `"{ 5, 5, 5 }"` when 5 converts to `"5"` |
| Render.RenderFraming | Vec.h:182-190 | every rendering opens with `"{ "` and closes with `" }"` |
| VecLib.ScalarAdd | Vec.h:193-196 | `c + v` forwards to `v + c` and has `c + v[i]` at every `i`; `v` is unchanged |
| Elementwise.ReversedAddCommutes | Vec.h:193-196 | `c + v` equals `v + c` |
| VecLib.ScalarSub | Vec.h:198-201 | `c - v` has `c - v[i]` at every `i`; `v` is unchanged |
| Elementwise.ReversedSubtractNegates | Vec.h:198-201 | `c - v` is the elementwise negation of `v - c` |
| Elementwise.ReversedSubtractAsymmetric | Vec.h:198-201 | `c - v` equals `v - c` if and only if every element of `v` equals `c` |
| VecLib.ScalarMul | Vec.h:203-206 | `c * v` forwards to `v * c` and has `c * v[i]` at every `i`; `v` is unchanged |
| Elementwise.ReversedMultiplyCommutes | Vec.h:203-206 | `c * v` equals `v * c` |
| VecLib.ScalarDiv | Vec.h:208-211 | `c / v` has `c / v[i]` (truncated) at every `i`, when no element is zero; `v` is unchanged |
| Elementwise.ReversedDivideAsymmetric | Vec.h:208-211 | `6 / [2, 4]` is `[3, 1]` while `[2, 4] / 6` is `[0, 0]` |

## Left out

- `floor`, `ceil`, `round`, `inv`, both `pow` forms and `powExp` (Vec.h:62-72, 78-80, 166-178): `floor`, `ceil`, `round`, `pow` and `powExp` call `<cmath>` functions, and `inv` computes `1 / v`. All of them are meant for a floating-point `num`, which the integer model does not have.
- `slice` (Vec.h:42-49): it does not compile as written. It uses the run-time value `end - start` as an array length and builds a `std::string` from an array iterator.
- The scalar type: the model has one scalar type, unbounded integers. It does not model the template's arbitrary `num` and operand types, floating point, or fixed-width overflow. For example, `abs` of the most negative `int` is not modelled.
- Element-to-text conversion: `std::to_string` becomes the parameter `toStr` of `ToString`. Only the `"{ "`, `", "` and `" }"` layout is modelled, not the digits.
- VecLib.Vec.ToString: it requires a non-empty vector. For length 0 the source computes `listSize - 1` in `size_t`, which wraps around, and the loop then reads past the storage. That behaviour is undefined.
- VecLib.Vec.ForEach: the callback is a pure Dafny function of a snapshot of the vector. A C++ callback could also write to the vector through its `Vec&` parameter or have side effects; the model does not capture that.
- Division by zero: the integer model has no defined result for it, so the division methods require nonzero divisors.
- Bounds: the subscript performs no check. `At` and `Put` require `i < length` instead of modelling an error.
- VecLib.Vec.AddAssignVec, VecLib.Vec.SubAssignVec, VecLib.Vec.MulAssignVec, VecLib.Vec.DivAssignVec: they promise that `b` is unchanged only when `b.list != list`. In C++ two distinct `Vec` objects never share storage, because each holds its `std::array` by value; the model keeps no invariant tying distinct `Vec` objects to distinct arrays. A caller gets `b.list != list` from the `fresh(list)` that every constructor, `Mono` and `Copy` ensure.
- References: `Vec&` returns are modelled as returning the receiver object (`self == this`). Returning a `Vec` by value is modelled as returning the freshly allocated copy.
