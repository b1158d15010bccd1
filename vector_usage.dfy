/** What callers of `Vector2d` can rely on, derived from the contracts of
    its methods alone: chained calls, calls where the argument is the
    receiver itself, and the decomposition into projection and rejection. */
module VectorUsage {
  import VectorAlgebra
  import opened Vectors

  /** The quarter-turn scenario of the unit tests: (8, 9) rotated through
      a right angle (cosine 0, sine 1) becomes (-9, 8). */
  method QuarterTurn() returns (v: Vector2d)
    ensures fresh(v)
    ensures v.x == -9.0 && v.y == 8.0
  {
    v := new Vector2d(8.0, 9.0);
    v := v.Rotate(0.0, 1.0);
  }

  /** `v.add(v)`: the argument is the receiver, and both components double. */
  method AddToItself(v: Vector2d)
    modifies v
    ensures v.Value() == VectorAlgebra.Scale(old(v.Value()), 2.0)
  {
    var r := v.Add(v);
    VectorAlgebra.PlusSelf(old(v.Value()));
  }

  /** `v.subtract(v)` leaves the zero vector. */
  method SubtractItself(v: Vector2d)
    modifies v
    ensures v.Value() == VectorAlgebra.Zero
  {
    var r := v.Subtract(v);
    VectorAlgebra.MinusSelf(old(v.Value()));
  }

  /** The chain `v.add(w).subtract(w)` restores `v` when `w` is another
      vector; `w` itself is not changed. */
  method AddThenSubtract(v: Vector2d, w: Vector2d)
    requires v != w
    modifies v
    ensures v.Value() == old(v.Value())
    ensures w.Value() == old(w.Value())
  {
    var r := v.Add(w);
    r := r.Subtract(w);
    VectorAlgebra.PlusMinusCancel(old(v.Value()), w.Value());
  }

  /** `v.multiply(1)` changes nothing. */
  method MultiplyByOne(v: Vector2d)
    modifies v
    ensures v.Value() == old(v.Value())
  {
    var r := v.Multiply(1.0);
    VectorAlgebra.ScaleIdentity(old(v.Value()));
  }

  /** `v.projection(t).add(v.rejection(t))` equals `v`, the rejection is
      orthogonal to `t`, and neither `v` nor `t` is changed. */
  method Decompose(v: Vector2d, t: Vector2d) returns (projection: Vector2d, rejection: Vector2d)
    requires t.LengthSquared() != 0.0
    ensures fresh(projection) && fresh(rejection) && projection != rejection
    ensures rejection.Dot(t) == 0.0
    ensures VectorAlgebra.Plus(projection.Value(), rejection.Value()) == v.Value()
  {
    projection := v.Projection(t);
    rejection := v.Rejection(t);
    VectorAlgebra.RejectionOrthogonal(v.Value(), t.Value());
    VectorAlgebra.ProjectionPlusRejection(v.Value(), t.Value());
  }

  /** Projecting a vector onto itself gives a new vector with the same
      components. */
  method ProjectOntoItself(t: Vector2d) returns (p: Vector2d)
    requires t.LengthSquared() != 0.0
    ensures fresh(p) && p != t
    ensures p.Value() == t.Value()
  {
    p := t.Projection(t);
    VectorAlgebra.ProjectionOntoSelf(t.Value());
  }

  /** `v.clone().rotate(a).rotate(-a)` has the components of `v`, and `v`
      is untouched: rotating back uses the same cosine and the negated
      sine. */
  method RotateBack(v: Vector2d, c: real, s: real) returns (u: Vector2d)
    requires c * c + s * s == 1.0
    ensures fresh(u)
    ensures u.Value() == v.Value()
  {
    u := v.Clone();
    u := u.Rotate(c, s);
    u := u.Rotate(c, -s);
    VectorAlgebra.RotateInverse(v.Value(), c, s);
  }

  /** A rotation keeps the squared length. */
  method RotateKeepsLength(v: Vector2d, c: real, s: real)
    requires c * c + s * s == 1.0
    modifies v
    ensures v.LengthSquared() == old(v.LengthSquared())
  {
    var r := v.Rotate(c, s);
    VectorAlgebra.RotatePreservesLengthSquared(old(v.Value()), c, s);
  }
}
