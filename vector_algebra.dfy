/** Value-level algebra of two-dimensional vectors over the reals.
    These functions are the specification that the mutable `Vector2d`
    class (module Vectors) is proved against: each in-place operation
    of the class replaces the receiver's components with the value one
    of these functions computes from the old components. */
module VectorAlgebra {

  /** A vector as the pair of its components. */
  datatype Vec = Vec(x: real, y: real)

  const Zero := Vec(0.0, 0.0)

  /** Component-wise sum, the value `add` leaves in the receiver. */
  function Plus(a: Vec, b: Vec): Vec {
    Vec(a.x + b.x, a.y + b.y)
  }

  /** Component-wise difference, the value `subtract` leaves in the receiver. */
  function Minus(a: Vec, b: Vec): Vec {
    Vec(a.x - b.x, a.y - b.y)
  }

  /** Both components multiplied by `k`, the value `multiply` leaves in the receiver. */
  function Scale(a: Vec, k: real): Vec {
    Vec(a.x * k, a.y * k)
  }

  function Dot(a: Vec, b: Vec): real {
    a.x * b.x + a.y * b.y
  }

  /** A square is never negative. */
  lemma SquareNonNegative(r: real)
    ensures r * r >= 0.0
  {
    if r < 0.0 {
      assert r * r == (-r) * (-r);
    }
  }

  /** The squared Euclidean length, which `lengthSquared` computes as
      x^2 + y^2; it is never negative. */
  function LengthSquared(a: Vec): (r: real)
    ensures r >= 0.0
  {
    SquareNonNegative(a.x);
    SquareNonNegative(a.y);
    a.x * a.x + a.y * a.y
  }

  /** `t` scaled by dot(v, t) / dot(t, t), computed once per component as
      `projection` does; `t` must have a non-zero length, since
      `projection` divides by its squared length. */
  function Projection(v: Vec, t: Vec): Vec
    requires LengthSquared(t) != 0.0
  {
    assert Dot(t, t) == LengthSquared(t);
    Vec(t.x * (Dot(v, t) / Dot(t, t)), t.y * (Dot(v, t) / Dot(t, t)))
  }

  /** What is left of `v` once its projection onto `t` is taken away. */
  function Rejection(v: Vec, t: Vec): Vec
    requires LengthSquared(t) != 0.0
  {
    Minus(v, Projection(v, t))
  }

  /** The rotation matrix [[c, -s], [s, c]] applied to `v`, where `c` and
      `s` stand for the cosine and the sine of the rotation angle. Both
      new components are computed from the old ones. */
  function Rotate(v: Vec, c: real, s: real): Vec {
    Vec(v.x * c - v.y * s, v.x * s + v.y * c)
  }

  // ---------------------------------------------------------------
  // Addition, subtraction and scaling
  // ---------------------------------------------------------------

  /** Subtracting what was just added restores the original vector. */
  lemma PlusMinusCancel(a: Vec, b: Vec)
    ensures Minus(Plus(a, b), b) == a
  {
  }

  /** Adding what was just subtracted restores the original vector. */
  lemma MinusPlusCancel(a: Vec, b: Vec)
    ensures Plus(Minus(a, b), b) == a
  {
  }

  /** A vector minus itself is the zero vector. */
  lemma MinusSelf(a: Vec)
    ensures Minus(a, a) == Zero
  {
  }

  /** A vector plus itself is the vector doubled. */
  lemma PlusSelf(a: Vec)
    ensures Plus(a, a) == Scale(a, 2.0)
  {
  }

  /** Scaling by one changes nothing; scaling by zero gives the zero vector. */
  lemma ScaleIdentity(a: Vec)
    ensures Scale(a, 1.0) == a
    ensures Scale(a, 0.0) == Zero
  {
  }

  /** Scaling by `k` and then by `m` is scaling by `k * m`. */
  lemma ScaleScale(a: Vec, k: real, m: real)
    ensures Scale(Scale(a, k), m) == Scale(a, k * m)
  {
  }

  // ---------------------------------------------------------------
  // Dot product and squared length
  // ---------------------------------------------------------------

  lemma DotSymmetric(a: Vec, b: Vec)
    ensures Dot(a, b) == Dot(b, a)
  {
  }

  /** The squared length is the dot product of a vector with itself. */
  lemma LengthSquaredIsDotSelf(a: Vec)
    ensures LengthSquared(a) == Dot(a, a)
  {
  }

  /** The dot product is linear in its first argument. */
  lemma DotLinear(a: Vec, b: Vec, t: Vec, k: real)
    ensures Dot(Plus(a, b), t) == Dot(a, t) + Dot(b, t)
    ensures Dot(Minus(a, b), t) == Dot(a, t) - Dot(b, t)
    ensures Dot(Scale(a, k), t) == k * Dot(a, t)
  {
  }

  /** Scaling a vector by `k` scales its squared length by `k * k`. */
  lemma LengthSquaredScale(a: Vec, k: real)
    ensures LengthSquared(Scale(a, k)) == k * k * LengthSquared(a)
  {
  }

  /** Cauchy-Schwarz: the squared dot product is at most the product of
      the squared lengths. The proof uses Lagrange's identity, whose extra
      term is the square of the two-dimensional cross product. */
  lemma CauchySchwarz(a: Vec, b: Vec)
    ensures Dot(a, b) * Dot(a, b) <= LengthSquared(a) * LengthSquared(b)
  {
    var cross := a.x * b.y - a.y * b.x;
    SquareNonNegative(cross);
    assert Dot(a, b) * Dot(a, b) + cross * cross == LengthSquared(a) * LengthSquared(b);
  }

  // ---------------------------------------------------------------
  // Projection and rejection
  // ---------------------------------------------------------------

  /** The projection is `t` scaled by dot(v, t) / |t|^2. */
  lemma ProjectionIsScaledTarget(v: Vec, t: Vec)
    requires LengthSquared(t) != 0.0
    ensures Projection(v, t) == Scale(t, Dot(v, t) / LengthSquared(t))
  {
  }

  /** Projection and rejection add up to the original vector exactly. */
  lemma ProjectionPlusRejection(v: Vec, t: Vec)
    requires LengthSquared(t) != 0.0
    ensures Plus(Projection(v, t), Rejection(v, t)) == v
  {
  }

  /** The rejection is orthogonal to the target. */
  lemma RejectionOrthogonal(v: Vec, t: Vec)
    requires LengthSquared(t) != 0.0
    ensures Dot(Rejection(v, t), t) == 0.0
  {
    LengthSquaredIsDotSelf(t);
    var k := Dot(v, t) / Dot(t, t);
    assert Projection(v, t) == Scale(t, k);
    DotLinear(v, Scale(t, k), t, k);
    DotLinear(t, t, t, k);
    assert Dot(Scale(t, k), t) == k * Dot(t, t);
    assert k * Dot(t, t) == Dot(v, t);
  }

  /** Projecting a vector onto itself gives back the same components. */
  lemma ProjectionOntoSelf(t: Vec)
    requires LengthSquared(t) != 0.0
    ensures Projection(t, t) == t
  {
    LengthSquaredIsDotSelf(t);
    assert Dot(t, t) / Dot(t, t) == 1.0;
  }

  /** Projecting twice onto the same target is projecting once. */
  lemma ProjectionIdempotent(v: Vec, t: Vec)
    requires LengthSquared(t) != 0.0
    ensures Projection(Projection(v, t), t) == Projection(v, t)
  {
    LengthSquaredIsDotSelf(t);
    var k := Dot(v, t) / Dot(t, t);
    assert Projection(v, t) == Scale(t, k);
    DotLinear(t, t, t, k);
    assert Dot(Scale(t, k), t) / Dot(t, t) == k;
  }

  /** The rejection has nothing left to project onto the target. */
  lemma ProjectionOfRejection(v: Vec, t: Vec)
    requires LengthSquared(t) != 0.0
    ensures Projection(Rejection(v, t), t) == Zero
  {
    RejectionOrthogonal(v, t);
    DotSymmetric(Rejection(v, t), t);
    LengthSquaredIsDotSelf(t);
    ScaleIdentity(t);
    assert Dot(Rejection(v, t), t) / Dot(t, t) == 0.0;
  }

  /** Pythagoras: the squared lengths of projection and rejection add up
      to the squared length of the original vector. */
  lemma ProjectionRejectionPythagoras(v: Vec, t: Vec)
    requires LengthSquared(t) != 0.0
    ensures LengthSquared(Projection(v, t)) + LengthSquared(Rejection(v, t)) == LengthSquared(v)
  {
    var p, r := Projection(v, t), Rejection(v, t);
    LengthSquaredIsDotSelf(t);
    var k := Dot(v, t) / Dot(t, t);
    assert p == Scale(t, k);
    RejectionOrthogonal(v, t);
    DotLinear(t, t, r, k);
    DotSymmetric(r, t);
    assert Dot(p, r) == 0.0;
    assert v == Plus(p, r);
    DotLinear(p, r, v, 1.0);
    DotLinear(p, p, p, 1.0);
    DotLinear(r, r, r, 1.0);
    calc {
      LengthSquared(v);
      Dot(Plus(p, r), Plus(p, r));
      Dot(p, p) + 2.0 * Dot(p, r) + Dot(r, r);
      LengthSquared(p) + LengthSquared(r);
    }
  }

  /** The projection is never longer than the vector projected. */
  lemma ProjectionNoLonger(v: Vec, t: Vec)
    requires LengthSquared(t) != 0.0
    ensures LengthSquared(Projection(v, t)) <= LengthSquared(v)
  {
    ProjectionRejectionPythagoras(v, t);
  }

  // ---------------------------------------------------------------
  // Rotation, with c and s the cosine and sine of the angle
  // ---------------------------------------------------------------

  /** A quarter turn (cosine 0, sine 1) maps (x, y) to (-y, x). */
  lemma RotateQuarterTurn(v: Vec)
    ensures Rotate(v, 0.0, 1.0) == Vec(-v.y, v.x)
  {
  }

  /** Rotation is linear: it distributes over addition and commutes
      with scaling. */
  lemma RotateLinear(a: Vec, b: Vec, c: real, s: real, k: real)
    ensures Rotate(Plus(a, b), c, s) == Plus(Rotate(a, c, s), Rotate(b, c, s))
    ensures Rotate(Scale(a, k), c, s) == Scale(Rotate(a, c, s), k)
  {
  }

  /** Rotating through two angles in turn is rotating through their sum:
      the cosine and sine of the sum are given by the angle-addition
      formulas. */
  lemma RotateCompose(v: Vec, c1: real, s1: real, c2: real, s2: real)
    ensures Rotate(Rotate(v, c1, s1), c2, s2) == Rotate(v, c1 * c2 - s1 * s2, s1 * c2 + c1 * s2)
  {
  }

  /** A true rotation (c^2 + s^2 == 1) preserves dot products. */
  lemma RotatePreservesDot(a: Vec, b: Vec, c: real, s: real)
    requires c * c + s * s == 1.0
    ensures Dot(Rotate(a, c, s), Rotate(b, c, s)) == Dot(a, b)
  {
    calc {
      Dot(Rotate(a, c, s), Rotate(b, c, s));
      (a.x * c - a.y * s) * (b.x * c - b.y * s) + (a.x * s + a.y * c) * (b.x * s + b.y * c);
      (a.x * b.x + a.y * b.y) * (c * c + s * s);
      Dot(a, b);
    }
  }

  /** A true rotation preserves the squared length. */
  lemma RotatePreservesLengthSquared(v: Vec, c: real, s: real)
    requires c * c + s * s == 1.0
    ensures LengthSquared(Rotate(v, c, s)) == LengthSquared(v)
  {
    RotatePreservesDot(v, v, c, s);
  }

  /** Rotating by an angle and then by its negation (same cosine, negated
      sine) restores the original vector. */
  lemma RotateInverse(v: Vec, c: real, s: real)
    requires c * c + s * s == 1.0
    ensures Rotate(Rotate(v, c, s), c, -s) == v
  {
    RotateCompose(v, c, s, c, -s);
    assert c * c - s * (-s) == 1.0;
    assert s * c + c * (-s) == 0.0;
  }

  /** Projection commutes with a true rotation: projecting the rotated
      vector onto the rotated target gives the rotated projection. */
  lemma ProjectionRotates(v: Vec, t: Vec, c: real, s: real)
    requires LengthSquared(t) != 0.0 && c * c + s * s == 1.0
    ensures LengthSquared(Rotate(t, c, s)) != 0.0
    ensures Projection(Rotate(v, c, s), Rotate(t, c, s)) == Rotate(Projection(v, t), c, s)
  {
    var rv, rt := Rotate(v, c, s), Rotate(t, c, s);
    RotatePreservesLengthSquared(t, c, s);
    RotatePreservesDot(v, t, c, s);
    RotatePreservesDot(t, t, c, s);
    var q := Dot(v, t) / Dot(t, t);
    assert Dot(rv, rt) / Dot(rt, rt) == q;
    ProjectionIsScaledTarget(v, t);
    LengthSquaredIsDotSelf(t);
    assert Projection(v, t) == Scale(t, q);
    RotateLinear(t, t, c, s, q);
  }
}
