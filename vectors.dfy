// Three-component vectors (glm::vec3 and the colour alias) over the reals.
// dot and cross are exact real formulas; sqrt is an explicit parameter.
module Vectors {
  import opened Reals

  datatype Vec3 = Vec3(x: real, y: real, z: real)

  type Color = Vec3

  const Zero: Vec3 := Vec3(0.0, 0.0, 0.0)

  function Add(a: Vec3, b: Vec3): Vec3 { Vec3(a.x + b.x, a.y + b.y, a.z + b.z) }
  function Sub(a: Vec3, b: Vec3): Vec3 { Vec3(a.x - b.x, a.y - b.y, a.z - b.z) }
  function Neg(a: Vec3): Vec3 { Vec3(-a.x, -a.y, -a.z) }
  function Scale(k: real, a: Vec3): Vec3 { Vec3(k * a.x, k * a.y, k * a.z) }
  /** Component-wise product, as glm's vec3 * vec3 (colour attenuation). */
  function Mul(a: Vec3, b: Vec3): Vec3 { Vec3(a.x * b.x, a.y * b.y, a.z * b.z) }
  function Dot(a: Vec3, b: Vec3): real { a.x * b.x + a.y * b.y + a.z * b.z }
  function Cross(a: Vec3, b: Vec3): Vec3 {
    Vec3(a.y * b.z - a.z * b.y, a.z * b.x - a.x * b.z, a.x * b.y - a.y * b.x)
  }

  /** v[i] for i in {0, 1, 2} */
  function Component(v: Vec3, i: int): real
    requires 0 <= i < 3
  {
    if i == 0 then v.x else if i == 1 then v.y else v.z
  }

  /** The contract every square-root oracle passed to the model must meet. */
  ghost predicate IsSqrt(sqrt: real -> real) {
    forall x: real {:trigger sqrt(x)} :: 0.0 <= x ==> 0.0 <= sqrt(x) && sqrt(x) * sqrt(x) == x
  }

  function Length(v: Vec3, sqrt: real -> real): real {
    sqrt(Dot(v, v))
  }

  /** glm::normalize. The zero vector, which the source turns into NaNs, is
      mapped to itself. */
  function Normalize(v: Vec3, sqrt: real -> real): Vec3 {
    var len := Length(v, sqrt);
    if len == 0.0 then Zero else Scale(1.0 / len, v)
  }

  /** dot(a, a) is a sum of squares: never negative, and zero only at the
      zero vector. */
  lemma DotSelfNonNegative(a: Vec3)
    ensures Dot(a, a) >= 0.0
    ensures Dot(a, a) == 0.0 <==> a == Zero
  {
    SquareSign(a.x);
    SquareSign(a.y);
    SquareSign(a.z);
    assert Dot(a, a) == Product(a.x, a.x) + Product(a.y, a.y) + Product(a.z, a.z);
  }

  /** A non-zero vector has a positive length. */
  lemma LengthPositive(v: Vec3, sqrt: real -> real)
    requires IsSqrt(sqrt) && v != Zero
    ensures Length(v, sqrt) > 0.0
  {
    DotSelfNonNegative(v);
    var len := Length(v, sqrt);
    assert len * len == Dot(v, v) && len >= 0.0;
  }

  lemma CrossOrthogonal(a: Vec3, b: Vec3)
    ensures Dot(a, Cross(a, b)) == 0.0
    ensures Dot(b, Cross(a, b)) == 0.0
  {
  }

  lemma DotSymmetric(a: Vec3, b: Vec3)
    ensures Dot(a, b) == Dot(b, a)
  {
  }

  lemma DotScaleRight(a: Vec3, k: real, b: Vec3)
    ensures Dot(a, Scale(k, b)) == k * Dot(a, b)
  {
  }

  /** Normalising keeps the direction: the result is a scalar multiple. */
  lemma NormalizeIsScaled(v: Vec3, sqrt: real -> real)
    ensures exists k: real :: Normalize(v, sqrt) == Scale(k, v)
  {
    var len := Length(v, sqrt);
    if len == 0.0 {
      assert Normalize(v, sqrt) == Scale(0.0, v);
    } else {
      assert Normalize(v, sqrt) == Scale(1.0 / len, v);
    }
  }

  /** With a genuine square root, a non-zero vector normalises to unit length. */
  lemma NormalizeUnit(v: Vec3, sqrt: real -> real)
    requires IsSqrt(sqrt) && v != Zero
    ensures Dot(Normalize(v, sqrt), Normalize(v, sqrt)) == 1.0
  {
    DotSelfNonNegative(v);
    var d := Dot(v, v);
    var len := sqrt(d);
    assert len * len == d && len >= 0.0;
    assert len != 0.0;
    var n := Scale(1.0 / len, v);
    calc {
      Dot(n, n);
      (1.0 / len) * (1.0 / len) * d;
      { assert (1.0 / len) * (1.0 / len) == 1.0 / (len * len); }
      d / (len * len);
      1.0;
    }
  }
}
