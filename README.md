# Thruster.js `Vector2d` in Dafny

This project models `thruster.math.Vector2d`, the two-dimensional vector of
the Thruster.js math package. A `Vector2d` holds two mutable numeric fields,
`x` and `y`. Its operations fall into two groups:

- in-place operations: `add`, `subtract`, `multiply` and `rotate`. Each
  overwrites the receiver's fields and returns the receiver, so calls can be
  chained (`v.add(a).multiply(2)`);
- value-producing operations: `clone`, `dot`, `lengthSquared`, `projection`
  and `rejection`. They read the fields. `clone`, `projection` and
  `rejection` return newly allocated vectors.

The model has three modules:

- `VectorAlgebra` (`vector_algebra.dfy`) is the value-level specification.
  It has a datatype `Vec` of two `real` components and pure functions
  `Plus`, `Minus`, `Scale`, `Dot`, `LengthSquared`, `Projection`,
  `Rejection` and `Rotate`. The lemmas state the algebra that
  `Vector2d` relies on:
  - add and subtract undo each other;
  - projection plus rejection gives back the vector exactly;
  - the rejection is orthogonal to the target;
  - a true rotation (`c*c + s*s == 1`) preserves dot products and squared
    lengths, and rotating back through the negated angle undoes it.
- `Vectors` (`vector2d.dfy`) holds the class `Vector2d` with fields `x` and
  `y` and one method or function per JavaScript operation. Each in-place method
  has `modifies this`, ensures that it returns `this`, and gives the new
  components as a `VectorAlgebra` function of the old ones. The
  postcondition reads both the receiver and the argument in `old(...)`, so
  aliased calls such as `v.add(v)` are covered. `dot` and `lengthSquared` are functions with `reads`
  clauses. `projection` and `rejection` are methods that allocate.
- `VectorUsage` (`vector_usage.dfy`) derives, from the method contracts
  alone, what a caller of the class can rely on:
  - chains such as `v.add(w).subtract(w)`;
  - calls whose argument is the receiver (`v.add(v)`, `v.subtract(v)`);
  - the projection/rejection decomposition;
  - `v.clone().rotate(a).rotate(-a)`;
  - the quarter-turn scenario of the unit tests.

JavaScript numbers are modelled as exact `real`s. `Math.pow(x, 2)` is
written `x * x`. `rotate(angle)` is modelled as `Rotate(c, s)`, where `c`
and `s` are the cosine and sine that `rotate` computes first
(`src/thruster/math/vector2d.js:143-144`). Everything after that point is
exact field arithmetic.

## Model

| member | source | states |
|---|---|---|
| `Vectors.Vector2d.constructor` | src/thruster/math/vector2d.js:10-22 | the new vector's `x` and `y` are the given components |
| `Vectors.Vector2d.Clone` | src/thruster/math/vector2d.js:39-41 | returns a freshly allocated vector, hence distinct from the receiver, with the same `x` and `y`; the receiver is not modified |
| `Vectors.Vector2d.Add` | src/thruster/math/vector2d.js:48-52 | returns the receiver; the new components are the old components plus the argument's components as they were before the call, which covers `v.add(v)` (both components double) |
| `Vectors.Vector2d.Subtract` | src/thruster/math/vector2d.js:168-172 | returns the receiver; the new components are the old ones minus the argument's components as they were before the call |
| `Vectors.Vector2d.Multiply` | src/thruster/math/vector2d.js:93-97 | returns the receiver; both components are scaled by the scalar |
| `Vectors.Vector2d.Dot` | src/thruster/math/vector2d.js:67-69 | modifies nothing; equals x1·x2 + y1·y2 and is the same with the two vectors swapped (symmetry) |
| `Vectors.Vector2d.LengthSquared` | src/thruster/math/vector2d.js:84-86 | modifies nothing; never negative, and equal to the dot product of the vector with itself |
| `Vectors.Vector2d.Projection` | src/thruster/math/vector2d.js:116-120 | for a target of non-zero length, returns a new vector equal to the target scaled by dot(this, target) / dot(target, target); neither the receiver nor the target changes |
| `Vectors.Vector2d.Rejection` | src/thruster/math/vector2d.js:127-135 | for a target of non-zero length, returns a new vector equal to the receiver minus its projection; the receiver is not changed, because the subtraction is done on a clone |
| `Vectors.Vector2d.Rotate` | src/thruster/math/vector2d.js:142-152 | returns the receiver; the new (x, y) is (x·c − y·s, x·s + y·c), with both computed from the old components |
| `VectorAlgebra.LengthSquared` | src/thruster/math/vector2d.js:84-86 | the squared length is never negative |
| `VectorAlgebra.LengthSquaredIsDotSelf` | src/thruster/math/vector2d.js:84-86 | the squared length equals the dot product of a vector with itself |
| `VectorAlgebra.LengthSquaredScale` | src/thruster/math/vector2d.js:93-97 | multiplying by k multiplies the squared length by k·k |
| `VectorAlgebra.PlusMinusCancel` | src/thruster/math/vector2d.js:168-172 | subtracting what was added restores the original components |
| `VectorAlgebra.MinusPlusCancel` | src/thruster/math/vector2d.js:48-52 | adding what was subtracted restores the original components |
| `VectorAlgebra.MinusSelf` | src/thruster/math/vector2d.js:168-172 | a vector minus itself is (0, 0) |
| `VectorAlgebra.PlusSelf` | src/thruster/math/vector2d.js:48-52 | a vector plus itself is the vector multiplied by 2 |
| `VectorAlgebra.ScaleIdentity` | src/thruster/math/vector2d.js:93-97 | multiplying by 1 changes nothing; multiplying by 0 gives (0, 0) |
| `VectorAlgebra.ScaleScale` | src/thruster/math/vector2d.js:93-97 | multiplying by k and then by m is multiplying by k·m |
| `VectorAlgebra.DotSymmetric` | src/thruster/math/vector2d.js:67-69 | the dot product does not depend on the order of its arguments |
| `VectorAlgebra.DotLinear` | src/thruster/math/vector2d.js:67-69 | the dot product is linear in its first argument (sum, difference, scaling) |
| `VectorAlgebra.CauchySchwarz` | src/thruster/math/vector2d.js:67-69 | the squared dot product of two vectors is at most the product of their squared lengths |
| `VectorAlgebra.ProjectionIsScaledTarget` | src/thruster/math/vector2d.js:116-120 | the projection is the target multiplied by dot(v, t) / (squared length of t) |
| `VectorAlgebra.ProjectionPlusRejection` | src/thruster/math/vector2d.js:127-135 | projection plus rejection is exactly the original vector |
| `VectorAlgebra.RejectionOrthogonal` | src/thruster/math/vector2d.js:127-135 | the rejection's dot product with the target is 0 |
| `VectorAlgebra.ProjectionOntoSelf` | src/thruster/math/vector2d.js:116-120 | projecting a non-zero vector onto itself gives back its components |
| `VectorAlgebra.ProjectionIdempotent` | src/thruster/math/vector2d.js:116-120 | projecting the projection again onto the same target changes nothing |
| `VectorAlgebra.ProjectionOfRejection` | src/thruster/math/vector2d.js:127-135 | the rejection projects onto the target as the zero vector |
| `VectorAlgebra.ProjectionRejectionPythagoras` | src/thruster/math/vector2d.js:127-135 | the squared lengths of projection and rejection add up to the squared length of the vector |
| `VectorAlgebra.ProjectionNoLonger` | src/thruster/math/vector2d.js:116-120 | the projection's squared length is at most the squared length of the vector projected |
| `VectorAlgebra.RotateQuarterTurn` | tests/unit/shapes/point2d.js:39-45 | rotating with cosine 0 and sine 1 maps (x, y) to (−y, x) |
| `VectorAlgebra.RotateLinear` | src/thruster/math/vector2d.js:142-152 | rotation distributes over addition and commutes with multiplication by a scalar |
| `VectorAlgebra.RotateCompose` | src/thruster/math/vector2d.js:142-152 | two rotations in turn are one rotation whose cosine and sine follow the angle-addition formulas |
| `VectorAlgebra.RotatePreservesDot` | src/thruster/math/vector2d.js:142-152 | when c² + s² = 1, rotating both vectors keeps their dot product |
| `VectorAlgebra.RotatePreservesLengthSquared` | src/thruster/math/vector2d.js:142-152 | when c² + s² = 1, rotation keeps the squared length |
| `VectorAlgebra.RotateInverse` | src/thruster/math/vector2d.js:142-152 | when c² + s² = 1, rotating with (c, s) and then with (c, −s) restores the vector |
| `VectorAlgebra.ProjectionRotates` | src/thruster/math/vector2d.js:116-120 | when c² + s² = 1, the rotated target still has non-zero length, and projecting the rotated vector onto it gives the rotated projection |
| `VectorUsage.QuarterTurn` | tests/unit/shapes/point2d.js:39-45 | `new Vector2d(8, 9)` rotated through a right angle has components (−9, 8) |
| `VectorUsage.AddToItself` | src/thruster/math/vector2d.js:48-52 | `v.add(v)` doubles both components |
| `VectorUsage.SubtractItself` | src/thruster/math/vector2d.js:168-172 | `v.subtract(v)` leaves (0, 0) |
| `VectorUsage.AddThenSubtract` | src/thruster/math/vector2d.js:48-52 | for `w` distinct from `v`, the chain `v.add(w).subtract(w)` restores `v` and leaves `w` unchanged |
| `VectorUsage.MultiplyByOne` | src/thruster/math/vector2d.js:93-97 | `v.multiply(1)` leaves `v`'s components unchanged |
| `VectorUsage.Decompose` | src/thruster/math/vector2d.js:116-135 | `v.projection(t)` and `v.rejection(t)` are two new vectors that sum to `v`; the rejection is orthogonal to `t`; `v` and `t` are not changed |
| `VectorUsage.ProjectOntoItself` | src/thruster/math/vector2d.js:116-120 | `t.projection(t)` is a new vector with `t`'s components |
| `VectorUsage.RotateBack` | src/thruster/math/vector2d.js:142-152 | `v.clone().rotate(a).rotate(-a)` has `v`'s components |
| `VectorUsage.RotateKeepsLength` | src/thruster/math/vector2d.js:142-152 | a rotation with c² + s² = 1 keeps `lengthSquared` |

## Left out

- `length`, `normalize`, `angle`, `scalarProjection` and `fromComponents` (src/thruster/math/vector2d.js:31-33, 58-60, 76-78, 103-109, 159-161) are not modelled. They need `Math.sqrt`, `Math.atan2`, `Math.cos` or `Math.sin`, and Dafny's `real` has no exact counterpart for these.
- `Vectors.Vector2d.Rotate` takes the cosine `c` and sine `s` of the angle instead of the angle itself. Trigonometry is not modelled. The properties that hold only for true rotations assume `c*c + s*s == 1`.
- IEEE-754 double arithmetic is not modelled: the model computes exactly over `real`. Rounding, overflow to Infinity and NaN are absent.
- `Vectors.Vector2d.Projection` and `Vectors.Vector2d.Rejection` require a target of non-zero squared length. In JavaScript, a zero-length target yields NaN components without an error. The precondition is stated on the squared length, which is the divisor `projection` uses. It is not stated as "target is not (0, 0)".
- The `define(...)` module wrapper (src/thruster/math/vector2d.js:1, 174-176) is not modelled. It is module-loading plumbing.
- The `Point2d` and `Matrix` types are not part of this model. Only the unit tests in tests/unit/shapes/point2d.js refer to them. The one `Vector2d` scenario in those tests (lines 39-45) is modelled as `VectorUsage.QuarterTurn`.
- The prototype-copying `extendClass` helper, tested in tests/unit/utils/classes.js, is not part of this model. It is a JavaScript runtime mechanism.
