// The two rotations about the y axis used by RotateY, with the sine and
// cosine of the angle passed in (the source takes them from std::sin and
// std::cos of the angle in radians).
module Rotations {
  import opened Reals
  import opened Vectors
  import opened Rays

  /** World space to object space: the transform applied to the ray. */
  function ToObject(sinTheta: real, cosTheta: real, v: Vec3): Vec3 {
    Vec3(cosTheta * v.x - sinTheta * v.z, v.y, sinTheta * v.x + cosTheta * v.z)
  }

  /** Object space to world space: the transform applied to the hit point,
      the normal and the corners of the child's box. */
  function ToWorld(sinTheta: real, cosTheta: real, v: Vec3): Vec3 {
    Vec3(cosTheta * v.x + sinTheta * v.z, v.y, -sinTheta * v.x + cosTheta * v.z)
  }

  /** cos^2 + sin^2 = 1 */
  predicate UnitRotation(sinTheta: real, cosTheta: real) {
    Product(cosTheta, cosTheta) + Product(sinTheta, sinTheta) == 1.0
  }

  lemma ExpandWorldOfObject(s: real, c: real, v: Vec3)
    ensures ToWorld(s, c, ToObject(s, c, v)).x
      == Product(Product(c, c) + Product(s, s), v.x)
    ensures ToWorld(s, c, ToObject(s, c, v)).z
      == Product(Product(c, c) + Product(s, s), v.z)
  {
  }

  lemma ExpandObjectOfWorld(s: real, c: real, v: Vec3)
    ensures ToObject(s, c, ToWorld(s, c, v)).x
      == Product(Product(c, c) + Product(s, s), v.x)
    ensures ToObject(s, c, ToWorld(s, c, v)).z
      == Product(Product(c, c) + Product(s, s), v.z)
  {
  }

  /** With cos^2 + sin^2 = 1 the two transforms undo each other, in both
      orders. */
  lemma {:induction false} RotationsInverse(s: real, c: real, v: Vec3)
    requires UnitRotation(s, c)
    ensures ToWorld(s, c, ToObject(s, c, v)) == v
    ensures ToObject(s, c, ToWorld(s, c, v)) == v
  {
    ExpandWorldOfObject(s, c, v);
    ExpandObjectOfWorld(s, c, v);
  }

  /** ToWorld is the transpose of ToObject: it moves across a dot product.
      This holds for any sine and cosine. */
  lemma RotationAdjoint(s: real, c: real, a: Vec3, b: Vec3)
    ensures Dot(a, ToWorld(s, c, b)) == Dot(ToObject(s, c, a), b)
  {
  }

  /** Both transforms are linear, so they map a ray point to a ray point. */
  lemma ToWorldLinear(s: real, c: real, a: Vec3, t: real, b: Vec3)
    ensures ToWorld(s, c, Add(a, Scale(t, b))) == Add(ToWorld(s, c, a), Scale(t, ToWorld(s, c, b)))
  {
    var lhs := ToWorld(s, c, Add(a, Scale(t, b)));
    var rhs := Add(ToWorld(s, c, a), Scale(t, ToWorld(s, c, b)));
    RowLinear(c, s, a.x, a.z, t, b.x, b.z);
    RowLinear(-s, c, a.x, a.z, t, b.x, b.z);
    assert lhs.x == rhs.x;
    assert lhs.z == rhs.z;
  }

  /** One row of a linear map: p (x + t y) + q (z + t w) splits at t. */
  lemma RowLinear(p: real, q: real, x: real, z: real, t: real, y: real, w: real)
    ensures p * (x + t * y) + q * (z + t * w) == p * x + q * z + t * (p * y + q * w)
  {
  }

  /** A zero direction stays zero in object space. */
  lemma ToObjectZero(s: real, c: real)
    ensures ToObject(s, c, Zero) == Zero
  {
  }

  /** The point of the rotated ray at t, taken back to world space, is the
      point of the original ray at t. */
  lemma {:induction false} RotatedRayPoint(s: real, c: real, r: Ray, t: real)
    requires UnitRotation(s, c)
    ensures ToWorld(s, c, At(Ray(ToObject(s, c, r.orig), ToObject(s, c, r.dir), r.time), t)) == At(r, t)
  {
    ToWorldLinear(s, c, ToObject(s, c, r.orig), t, ToObject(s, c, r.dir));
    RotationsInverse(s, c, r.orig);
    RotationsInverse(s, c, r.dir);
  }
}
