// class Quad: a parallelogram Q + a u + b v (a, b in [0, 1]) with its plane
// set-up, the plane-coordinate hit test, and the light-sampling helpers.
module Quads {
  import opened Reals
  import opened ExtReals
  import opened Wrappers
  import opened Vectors
  import opened Intervals
  import opened Rays
  import opened Boxes
  import opened Common
  import opened MaterialTypes
  import opened Records

  /** Q, u, v and the material, with the derived plane: the unit normal, D
      with normal . x = D on the plane, w = n / (n . n) for n = u x v, and
      the area |n|. */
  datatype Quad = Quad(q: Vec3, u: Vec3, v: Vec3, mat: Material, bbox: AABB,
                       normal: Vec3, d: real, w: Vec3, area: real)

  /** The point Q + a u + b v of the quad's plane. */
  function PlanePoint(q: Vec3, u: Vec3, v: Vec3, a: real, b: real): Vec3 {
    Add(q, Add(Scale(a, u), Scale(b, v)))
  }

  /** set_bounding_box: the union of the boxes of the two diagonals. */
  function QuadBox(q: Vec3, u: Vec3, v: Vec3): AABB {
    Boxes.Union(FromPoints(q, Add(Add(q, u), v)), FromPoints(Add(q, u), Add(q, v)))
  }

  /** The constructor. For u parallel to v (n = 0) the source divides by
      zero; here w is then zero, and no ray hits such a quad either way. */
  function MakeQuad(q: Vec3, u: Vec3, v: Vec3, mat: Material, sqrt: real -> real): (quad: Quad)
    ensures quad.q == q && quad.u == u && quad.v == v && quad.mat == mat
    ensures quad.normal == Normalize(Cross(u, v), sqrt) && quad.area == Length(Cross(u, v), sqrt)
  {
    var n := Cross(u, v);
    var normal := Normalize(n, sqrt);
    var w := if Dot(n, n) == 0.0 then Zero else Scale(1.0 / Dot(n, n), n);
    Quad(q, u, v, mat, QuadBox(q, u, v), normal, Dot(normal, q), w, Length(n, sqrt))
  }

  /** The quad's derived fields are the ones the constructor computes. */
  predicate Built(quad: Quad, sqrt: real -> real) {
    quad == MakeQuad(quad.q, quad.u, quad.v, quad.mat, sqrt)
  }

  /** The box holds all four vertices. */
  lemma BoxHoldsVertices(q: Vec3, u: Vec3, v: Vec3)
    ensures InsideClosed(QuadBox(q, u, v), q)
    ensures InsideClosed(QuadBox(q, u, v), Add(q, u))
    ensures InsideClosed(QuadBox(q, u, v), Add(q, v))
    ensures InsideClosed(QuadBox(q, u, v), Add(Add(q, u), v))
  {
    var d1 := FromPoints(q, Add(Add(q, u), v));
    var d2 := FromPoints(Add(q, u), Add(q, v));
    FromPointsProperties(q, Add(Add(q, u), v));
    FromPointsProperties(Add(q, u), Add(q, v));
    Boxes.UnionEncloses(d1, d2, q);
    Boxes.UnionEncloses(d1, d2, Add(q, u));
    Boxes.UnionEncloses(d1, d2, Add(q, v));
    Boxes.UnionEncloses(d1, d2, Add(Add(q, u), v));
  }

  /** The closed unit square of is_interior. */
  predicate UnitSquare(a: real, b: real) {
    Contains(Of(0.0, 1.0), a) && Contains(Of(0.0, 1.0), b)
  }

  /** The parameter and the plane coordinates of a hit. */
  datatype PlaneHit = PlaneHit(t: real, alpha: real, beta: real)

  /** The hit test: reject a ray parallel to the plane (|normal . dir| below
      1e-8), reject a t outside the closed ray_t, and reject a point whose
      plane coordinates are outside the unit square. */
  function Intersect(quad: Quad, r: Ray, rt: Interval): (res: Option<PlaneHit>)
    ensures res.Some? ==> Abs(Dot(quad.normal, r.dir)) >= 1e-8
    ensures res.Some? ==> Contains(rt, res.value.t)
    ensures res.Some? ==> UnitSquare(res.value.alpha, res.value.beta)
  {
    var denom := Dot(quad.normal, r.dir);
    if Abs(denom) < 1e-8 then None
    else
      var t := (quad.d - Dot(quad.normal, r.orig)) / denom;
      if !Contains(rt, t) then None
      else
        var planar := Sub(At(r, t), quad.q);
        var alpha := Dot(quad.w, Cross(planar, quad.v));
        var beta := Dot(quad.w, Cross(quad.u, planar));
        if !UnitSquare(alpha, beta) then None
        else Some(PlaneHit(t, alpha, beta))
  }

  /** The dot of n with a point of the ray at t. */
  lemma DotAlongRay(n: Vec3, r: Ray, t: real)
    ensures Dot(n, At(r, t)) == Dot(n, r.orig) + Product(t, Dot(n, r.dir))
  {
  }

  /** A quotient multiplied back by its non-zero divisor. */
  lemma QuotientTimes(x: real, d: real)
    requires d != 0.0
    ensures Product(x / d, d) == x
  {
  }

  /** A hit lies on the quad's plane. */
  lemma HitOnPlane(quad: Quad, r: Ray, rt: Interval)
    requires Intersect(quad, r, rt).Some?
    ensures Dot(quad.normal, At(r, Intersect(quad, r, rt).value.t)) == quad.d
  {
    var denom := Dot(quad.normal, r.dir);
    var t := Intersect(quad, r, rt).value.t;
    assert t == (quad.d - Dot(quad.normal, r.orig)) / denom;
    QuotientTimes(quad.d - Dot(quad.normal, r.orig), denom);
    DotAlongRay(quad.normal, r, t);
  }

  /** (a p + b r) s - (a q + b s) r = a (p s - q r): the scalar identity
      behind the linearity of the cross product. */
  lemma Bilinear(a: real, b: real, p: real, q: real, r: real, s: real)
    ensures Product(a * p + b * r, s) - Product(a * q + b * s, r) == Product(a, p * s - q * r)
  {
    assert (a * p + b * r) * s == a * (p * s) + b * (r * s);
    assert (a * q + b * s) * r == a * (q * r) + b * (s * r);
  }

  /** The cross product is linear in each argument, and a vector crossed
      with itself vanishes. */
  lemma CrossLinearLeft(a: real, b: real, u: Vec3, v: Vec3)
    ensures Cross(Add(Scale(a, u), Scale(b, v)), v) == Scale(a, Cross(u, v))
  {
    Bilinear(a, b, u.y, u.z, v.y, v.z);
    Bilinear(a, b, u.z, u.x, v.z, v.x);
    Bilinear(a, b, u.x, u.y, v.x, v.y);
    CrossOfCombination(a, b, u, v);
    ScaleCross(a, u, v);
  }

  lemma CrossOfCombination(a: real, b: real, u: Vec3, v: Vec3)
    ensures var ax, ay, az := a * u.x + b * v.x, a * u.y + b * v.y, a * u.z + b * v.z;
      Cross(Add(Scale(a, u), Scale(b, v)), v)
        == Vec3(Product(ay, v.z) - Product(az, v.y), Product(az, v.x) - Product(ax, v.z),
                Product(ax, v.y) - Product(ay, v.x))
  {
  }

  lemma ScaleCross(a: real, u: Vec3, v: Vec3)
    ensures Scale(a, Cross(u, v)) == Vec3(Product(a, u.y * v.z - u.z * v.y), Product(a, u.z * v.x - u.x * v.z),
                                         Product(a, u.x * v.y - u.y * v.x))
  {
  }

  lemma CrossLinearRight(a: real, b: real, u: Vec3, v: Vec3)
    ensures Cross(u, Add(Scale(a, u), Scale(b, v))) == Scale(b, Cross(u, v))
  {
    var x := Add(Scale(a, u), Scale(b, v));
    assert x == Add(Scale(b, v), Scale(a, u));
    CrossAntisymmetric(u, x);
    CrossLinearLeft(b, a, v, u);
    CrossAntisymmetric(v, u);
    NegScaleNeg(b, Cross(u, v));
  }

  lemma NegScaleNeg(k: real, c: Vec3)
    ensures Neg(Scale(k, Neg(c))) == Scale(k, c)
  {
  }

  lemma CrossAntisymmetric(a: Vec3, b: Vec3)
    ensures Cross(a, b) == Neg(Cross(b, a))
  {
  }

  /** n / (n . n) measures multiples of n: its dot with k n is k. */
  lemma InverseMeasures(n: Vec3, k: real)
    requires Dot(n, n) != 0.0
    ensures Dot(Scale(1.0 / Dot(n, n), n), Scale(k, n)) == k
  {
    var m := 1.0 / Dot(n, n);
    assert Dot(Scale(m, n), Scale(k, n)) == Product(Product(m, k), Dot(n, n));
    assert Product(m, Dot(n, n)) == 1.0;
    assert Product(Product(m, k), Dot(n, n)) == Product(k, Product(m, Dot(n, n)));
  }

  /** The plane coordinates of Q + a u + b v are a and b, for u x v != 0. */
  lemma AlphaBetaRecover(quad: Quad, a: real, b: real, sqrt: real -> real)
    requires Built(quad, sqrt) && Cross(quad.u, quad.v) != Zero
    ensures var planar := Sub(PlanePoint(quad.q, quad.u, quad.v, a, b), quad.q);
      Dot(quad.w, Cross(planar, quad.v)) == a && Dot(quad.w, Cross(quad.u, planar)) == b
  {
    var n := Cross(quad.u, quad.v);
    DotSelfNonNegative(n);
    assert quad.w == Scale(1.0 / Dot(n, n), n);
    var planar := Sub(PlanePoint(quad.q, quad.u, quad.v, a, b), quad.q);
    assert planar == Add(Scale(a, quad.u), Scale(b, quad.v));
    CrossLinearLeft(a, b, quad.u, quad.v);
    CrossLinearRight(a, b, quad.u, quad.v);
    InverseMeasures(n, a);
    InverseMeasures(n, b);
  }

  /** The unit normal is orthogonal to both edges. */
  lemma NormalOrthogonal(quad: Quad, sqrt: real -> real)
    requires Built(quad, sqrt)
    ensures Dot(quad.normal, quad.u) == 0.0 && Dot(quad.normal, quad.v) == 0.0
  {
    var n := Cross(quad.u, quad.v);
    CrossOrthogonal(quad.u, quad.v);
    NormalizeIsScaled(n, sqrt);
    var k :| quad.normal == Scale(k, n);
    DotScaleRight(quad.u, k, n);
    DotScaleRight(quad.v, k, n);
    assert Dot(quad.normal, quad.u) == Dot(quad.u, quad.normal);
    assert Dot(quad.normal, quad.v) == Dot(quad.v, quad.normal);
  }

  lemma DotPlanePoint(n: Vec3, q: Vec3, u: Vec3, v: Vec3, a: real, b: real)
    ensures Dot(n, PlanePoint(q, u, v, a, b)) == Dot(n, q) + Product(a, Dot(n, u)) + Product(b, Dot(n, v))
  {
  }

  lemma DotAt(n: Vec3, r: Ray, t: real)
    ensures Dot(n, At(r, t)) == Dot(n, r.orig) + Product(t, Dot(n, r.dir))
  {
  }

  /** The parameter formula of hit solves the plane equation. */
  lemma SolveForT(d: real, no: real, denom: real, s: real)
    requires denom != 0.0 && no + Product(s, denom) == d
    ensures (d - no) / denom == s
  {
    assert Product((d - no) / denom, denom) == Product(s, denom);
    ProductCancel(denom, (d - no) / denom, s);
  }

  /** Every point Q + a u + b v lies on the plane normal . x = D. */
  lemma PlanePointOnPlane(quad: Quad, a: real, b: real, sqrt: real -> real)
    requires Built(quad, sqrt)
    ensures Dot(quad.normal, PlanePoint(quad.q, quad.u, quad.v, a, b)) == quad.d
  {
    NormalOrthogonal(quad, sqrt);
    DotPlanePoint(quad.normal, quad.q, quad.u, quad.v, a, b);
  }

  /** Completeness: a ray not parallel to the plane that reaches the quad
      point Q + a u + b v, with (a, b) in the unit square, at a parameter
      in the closed ray_t, is reported at exactly that parameter and those
      coordinates. */
  lemma IntersectFinds(quad: Quad, r: Ray, rt: Interval, s: real, a: real, b: real, sqrt: real -> real)
    requires Built(quad, sqrt) && Cross(quad.u, quad.v) != Zero
    requires Abs(Dot(quad.normal, r.dir)) >= 1e-8
    requires Contains(rt, s) && UnitSquare(a, b)
    requires At(r, s) == PlanePoint(quad.q, quad.u, quad.v, a, b)
    ensures Intersect(quad, r, rt) == Some(PlaneHit(s, a, b))
  {
    var denom := Dot(quad.normal, r.dir);
    PlanePointOnPlane(quad, a, b, sqrt);
    DotAt(quad.normal, r, s);
    SolveForT(quad.d, Dot(quad.normal, r.orig), denom, s);
    AlphaBetaRecover(quad, a, b, sqrt);
  }

  /** is_interior: inside the closed unit square the coordinates are
      written to rec.u and rec.v; outside, rec is not touched. */
  method IsInterior(a: real, b: real, rec: HitRecord) returns (inside: bool)
    modifies rec
    ensures inside <==> UnitSquare(a, b)
    ensures inside ==> rec.u == a && rec.v == b
    ensures inside ==> rec.p == old(rec.p) && rec.normal == old(rec.normal) && rec.t == old(rec.t)
    ensures inside ==> rec.isFrontFace == old(rec.isFrontFace) && rec.mat == old(rec.mat)
    ensures !inside ==> unchanged(rec)
  {
    var unit := Of(0.0, 1.0);
    if !Contains(unit, a) || !Contains(unit, b) {
      return false;
    }
    rec.u := a;
    rec.v := b;
    return true;
  }

  /** Quad::hit: on a hit the record gets the point, t, the plane
      coordinates and the material, and its normal faces the ray; on a miss
      the record is not touched. */
  method Hit(quad: Quad, r: Ray, rt: Interval, rec: HitRecord, sqrt: real -> real) returns (hit: bool)
    modifies rec
    ensures hit <==> Intersect(quad, r, rt).Some?
    ensures hit ==> rec.t == Intersect(quad, r, rt).value.t && rec.p == At(r, rec.t)
    ensures hit ==> rec.u == Intersect(quad, r, rt).value.alpha && rec.v == Intersect(quad, r, rt).value.beta
    ensures hit ==> rec.mat == quad.mat && Dot(r.dir, rec.normal) <= 0.0
    ensures hit ==> (rec.isFrontFace <==> Dot(r.dir, quad.normal) < 0.0)
    ensures hit ==> rec.normal == (if rec.isFrontFace then quad.normal else Neg(quad.normal))
    ensures !hit ==> unchanged(rec)
  {
    var denom := Dot(quad.normal, r.dir);
    if Abs(denom) < 1e-8 {
      return false;
    }
    var t := (quad.d - Dot(quad.normal, r.orig)) / denom;
    if !Contains(rt, t) {
      return false;
    }
    var intersection := At(r, t);
    var planar := Sub(intersection, quad.q);
    var alpha := Dot(quad.w, Cross(planar, quad.v));
    var beta := Dot(quad.w, Cross(quad.u, planar));
    var inside := IsInterior(alpha, beta, rec);
    if !inside {
      return false;
    }
    rec.SetPointMaterial(intersection, t, quad.mat);
    rec.SetFaceNormal(r, quad.normal, sqrt);
    return true;
  }

  /** The interval pdf_value searches: (0.001, +inf). */
  const PdfRange: Interval := Interval(Fin(0.001), PosInf)

  /** pdf_value(origin, direction): 0 when the ray from origin misses,
      otherwise distance^2 / (|cos| area), the solid-angle density of
      sampling the quad uniformly by area. The hit record's normal is the
      unit normal up to sign, which the absolute value removes. */
  function PdfValue(quad: Quad, origin: Vec3, direction: Vec3, sqrt: real -> real): (r: real)
    requires Built(quad, sqrt) && IsSqrt(sqrt)
    ensures Intersect(quad, RayAtTimeZero(origin, direction), PdfRange).None? ==> r == 0.0
    ensures Intersect(quad, RayAtTimeZero(origin, direction), PdfRange).Some? ==> r > 0.0
  {
    var hit := Intersect(quad, RayAtTimeZero(origin, direction), PdfRange);
    if hit.None? then 0.0
    else
      PdfTermsPositive(quad, origin, direction, hit.value.t, sqrt);
      var distanceSquared := Product(Product(hit.value.t, hit.value.t), Dot(direction, direction));
      var cosine := Abs(Dot(direction, quad.normal) / Length(direction, sqrt));
      distanceSquared / Product(cosine, quad.area)
  }

  /** Normalising the zero vector gives the zero vector. */
  lemma NormalizeZero(sqrt: real -> real)
    ensures Normalize(Zero, sqrt) == Zero
  {
    if Length(Zero, sqrt) != 0.0 {
      assert Scale(1.0 / Length(Zero, sqrt), Zero) == Zero;
    }
  }

  /** A non-zero value over a positive length has a positive absolute value. */
  lemma QuotientAbsPositive(x: real, len: real)
    requires x != 0.0 && len > 0.0
    ensures Abs(x / len) > 0.0
  {
    if x > 0.0 {
      DividePositive(x, len, 0.0);
      assert x / len == Product(x, 1.0 / len);
    } else {
      DividePositive(x, len, 0.0);
      assert x / len == Product(x, 1.0 / len);
    }
  }

  /** A built quad with a non-zero normal has a non-zero u x v, hence a
      positive area. */
  lemma AreaPositive(quad: Quad, sqrt: real -> real)
    requires Built(quad, sqrt) && IsSqrt(sqrt) && quad.normal != Zero
    ensures quad.area > 0.0
  {
    PositiveAreaOf(Cross(quad.u, quad.v), quad.normal, quad.area, sqrt);
  }

  /** A non-zero normalised normal comes from a vector of non-zero
      length, and a length is never negative. */
  lemma PositiveAreaOf(n: Vec3, normal: Vec3, area: real, sqrt: real -> real)
    requires IsSqrt(sqrt) && normal == Normalize(n, sqrt) && area == Length(n, sqrt) && normal != Zero
    ensures area > 0.0
  {
    DotSelfNonNegative(n);
    assert area != 0.0;
    assert area >= 0.0;
  }

  /** t^2 |d|^2 > 0 for t > 0 and d != 0. */
  lemma DistanceSquaredPositive(t: real, direction: Vec3)
    requires t > 0.0 && direction != Zero
    ensures Product(Product(t, t), Dot(direction, direction)) > 0.0
  {
    DotSelfNonNegative(direction);
    ProductPositive(t, t);
    ProductPositive(Product(t, t), Dot(direction, direction));
  }

  /** |x / len| area > 0 for x != 0, len > 0 and area > 0. */
  lemma DenominatorPositive(x: real, len: real, area: real)
    requires x != 0.0 && len > 0.0 && area > 0.0
    ensures Product(Abs(x / len), area) > 0.0
  {
    QuotientAbsPositive(x, len);
    ProductPositive(Abs(x / len), area);
  }

  /** On a hit from pdf_value, the squared distance and the denominator
      are positive. */
  lemma PdfTermsPositive(quad: Quad, origin: Vec3, direction: Vec3, t: real, sqrt: real -> real)
    requires Built(quad, sqrt) && IsSqrt(sqrt)
    requires Abs(Dot(quad.normal, direction)) >= 1e-8 && t >= 0.001
    ensures Product(Product(t, t), Dot(direction, direction)) > 0.0
    ensures Length(direction, sqrt) > 0.0 && quad.area > 0.0
    ensures Product(Abs(Dot(direction, quad.normal) / Length(direction, sqrt)), quad.area) > 0.0
  {
    assert direction != Zero;
    assert quad.normal != Zero;
    AreaPositive(quad, sqrt);
    LengthPositive(direction, sqrt);
    DistanceSquaredPositive(t, direction);
    DotSymmetric(direction, quad.normal);
    DenominatorPositive(Dot(direction, quad.normal), Length(direction, sqrt), quad.area);
  }

  /** random(origin): the vector from origin to Q + s u + t v for two
      draws s, t in [0, 1), the first scaling u. */
  function RandomToward(quad: Quad, origin: Vec3, d1: int, d2: int): Vec3
    requires IsDraw(d1) && IsDraw(d2)
  {
    Sub(PlanePoint(quad.q, quad.u, quad.v, RandomDouble(d1), RandomDouble(d2)), origin)
  }

  /** A sampled direction reaches the quad at parameter 1, so whenever it
      is not parallel to the plane pdf_value is positive for it. */
  lemma RandomTowardHits(quad: Quad, origin: Vec3, d1: int, d2: int, sqrt: real -> real)
    requires IsDraw(d1) && IsDraw(d2) && Built(quad, sqrt) && IsSqrt(sqrt)
    requires Cross(quad.u, quad.v) != Zero
    requires Abs(Dot(quad.normal, RandomToward(quad, origin, d1, d2))) >= 1e-8
    ensures Intersect(quad, RayAtTimeZero(origin, RandomToward(quad, origin, d1, d2)), PdfRange)
      == Some(PlaneHit(1.0, RandomDouble(d1), RandomDouble(d2)))
    ensures PdfValue(quad, origin, RandomToward(quad, origin, d1, d2), sqrt) > 0.0
  {
    var dir := RandomToward(quad, origin, d1, d2);
    var r := RayAtTimeZero(origin, dir);
    assert At(r, 1.0) == PlanePoint(quad.q, quad.u, quad.v, RandomDouble(d1), RandomDouble(d2));
    IntersectFinds(quad, r, PdfRange, 1.0, RandomDouble(d1), RandomDouble(d2), sqrt);
  }
}
