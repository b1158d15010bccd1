/** The mutable two-dimensional vector of the math package. Its in-place
    operations (`Add`, `Subtract`, `Multiply`, `Rotate`) update the two
    fields and return the receiver so that calls can be chained; the
    operations that produce a different vector (`Clone`, `Projection`,
    `Rejection`) allocate a new one. Each operation is specified by the
    value-level function of module VectorAlgebra that it implements. */
module Vectors {
  import VectorAlgebra

  class Vector2d {
    var x: real
    var y: real

    /** The current components as a value. */
    function Value(): VectorAlgebra.Vec
      reads this
    {
      VectorAlgebra.Vec(x, y)
    }

    constructor (x: real, y: real)
      ensures this.x == x && this.y == y
    {
      this.x := x;
      this.y := y;
    }

    /** A new vector with the same components; the receiver is left as it is. */
    method Clone() returns (r: Vector2d)
      ensures fresh(r)
      ensures r.Value() == Value()
    {
      r := new Vector2d(x, y);
    }

    /** Adds `v` to the receiver and returns the receiver. The sum is
        taken over the components `v` had before the call, so `v.Add(v)`
        doubles both components. */
    method Add(v: Vector2d) returns (r: Vector2d)
      modifies this
      ensures r == this
      ensures Value() == VectorAlgebra.Plus(old(Value()), old(v.Value()))
    {
      x := x + v.x;
      y := y + v.y;
      r := this;
    }

    /** Subtracts `v` from the receiver and returns the receiver. */
    method Subtract(v: Vector2d) returns (r: Vector2d)
      modifies this
      ensures r == this
      ensures Value() == VectorAlgebra.Minus(old(Value()), old(v.Value()))
    {
      x := x - v.x;
      y := y - v.y;
      r := this;
    }

    /** Scales both components by `scalar` and returns the receiver. */
    method Multiply(scalar: real) returns (r: Vector2d)
      modifies this
      ensures r == this
      ensures Value() == VectorAlgebra.Scale(old(Value()), scalar)
    {
      x := x * scalar;
      y := y * scalar;
      r := this;
    }

    /** The dot product with `v`. It reads both vectors and changes
        neither, and it does not depend on which of the two is the
        receiver. */
    function Dot(v: Vector2d): (r: real)
      reads this, v
      ensures r == VectorAlgebra.Dot(Value(), v.Value())
      ensures r == VectorAlgebra.Dot(v.Value(), Value())
    {
      x * v.x + y * v.y
    }

    /** The squared length: the dot product of the receiver with itself,
        never negative. */
    function LengthSquared(): (r: real)
      reads this
      ensures r >= 0.0
      ensures r == Dot(this)
      ensures r == VectorAlgebra.LengthSquared(Value())
    {
      VectorAlgebra.SquareNonNegative(x);
      VectorAlgebra.SquareNonNegative(y);
      x * x + y * y
    }

    /** A new vector: `target` scaled by dot(this, target) / dot(target,
        target). Neither the receiver nor `target` changes. In JavaScript
        a zero-length target yields NaN components; here that case is
        excluded by the precondition. */
    method Projection(target: Vector2d) returns (r: Vector2d)
      requires target.LengthSquared() != 0.0
      ensures fresh(r)
      ensures r.Value() == VectorAlgebra.Projection(Value(), target.Value())
    {
      var px := target.x * (Dot(target) / target.Dot(target));
      var py := target.y * (Dot(target) / target.Dot(target));
      r := new Vector2d(px, py);
    }

    /** A new vector: the receiver minus its projection onto `target`,
        computed by subtracting the projection from a clone, so the
        receiver itself does not change. */
    method Rejection(target: Vector2d) returns (r: Vector2d)
      requires target.LengthSquared() != 0.0
      ensures fresh(r)
      ensures r.Value() == VectorAlgebra.Rejection(Value(), target.Value())
    {
      var projection := Projection(target);
      r := Clone();
      r := r.Subtract(projection);
    }

    /** Rotates the receiver through the angle whose cosine is `c` and
        whose sine is `s`, and returns the receiver. Both new components
        are computed from the old ones before either field is written. */
    method Rotate(c: real, s: real) returns (r: Vector2d)
      modifies this
      ensures r == this
      ensures Value() == VectorAlgebra.Rotate(old(Value()), c, s)
    {
      var newX := x * c - y * s;
      var newY := x * s + y * c;
      x := newX;
      y := newY;
      r := this;
    }
  }
}
