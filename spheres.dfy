// class Sphere: a possibly moving sphere, its bounding box and the
// nearer-root-first intersection rule.
module Spheres {
  import opened Reals
  import opened ExtReals
  import opened Wrappers
  import opened Vectors
  import opened Intervals
  import opened Rays
  import opened Boxes
  import opened MaterialTypes
  import opened Records

  /** The center is a ray: its origin is the center at time 0 and its
      direction the displacement reached at time 1. */
  datatype Sphere = Sphere(center: Ray, radius: real, mat: Material, bbox: AABB)

  /** std::fmax(0, radius) */
  function ClampRadius(radius: real): (c: real)
    ensures c >= 0.0 && c >= radius
    ensures c == radius || c == 0.0
  {
    if radius > 0.0 then radius else 0.0
  }

  function CenterAt(s: Sphere, time: real): Vec3 {
    At(s.center, time)
  }

  /** The box center +- (radius, radius, radius). */
  function CenteredBox(c: Vec3, radius: real): AABB {
    FromPoints(Sub(c, Vec3(radius, radius, radius)), Add(c, Vec3(radius, radius, radius)))
  }

  /** The stationary constructor: the center does not move. */
  function MakeStatic(center: Vec3, radius: real, mat: Material): (s: Sphere)
    ensures s.radius >= 0.0 && s.mat == mat
    ensures s.radius == ClampRadius(radius) && (radius >= 0.0 ==> s.radius == radius)
    ensures s.center.dir == Zero && s.center.orig == center
  {
    var r := ClampRadius(radius);
    Sphere(Ray(center, Zero, 0.0), r, mat, CenteredBox(center, r))
  }

  /** The moving constructor: center_begin at time 0, center_end at time 1,
      and a box that is the union of the boxes at both times. */
  function MakeMoving(centerBegin: Vec3, centerEnd: Vec3, radius: real, mat: Material): (s: Sphere)
    ensures s.radius >= 0.0 && s.mat == mat
    ensures s.radius == ClampRadius(radius) && (radius >= 0.0 ==> s.radius == radius)
    ensures s.center == Ray(centerBegin, Sub(centerEnd, centerBegin), 0.0)
    ensures At(s.center, 0.0) == centerBegin && At(s.center, 1.0) == centerEnd
  {
    var r := ClampRadius(radius);
    var center := Ray(centerBegin, Sub(centerEnd, centerBegin), 0.0);
    Sphere(center, r, mat, Boxes.Union(CenteredBox(At(center, 0.0), r), CenteredBox(At(center, 1.0), r)))
  }

  /** The constructor from a center ray, which leaves the box default
      (empty). */
  function MakeAlongRay(center: Ray, radius: real, mat: Material): (s: Sphere)
    ensures s.radius >= 0.0 && s.mat == mat && s.center == center
    ensures s.bbox == EmptyBox
  {
    Sphere(center, ClampRadius(radius), mat, EmptyBox)
  }

  /** A static sphere's center is the same at every time; a moving
      sphere's center is the begin point at time 0 and the end point at
      time 1. */
  lemma CenterMotion(c0: Vec3, c1: Vec3, radius: real, mat: Material, time: real)
    ensures CenterAt(MakeStatic(c0, radius, mat), time) == c0
    ensures CenterAt(MakeMoving(c0, c1, radius, mat), 0.0) == c0
    ensures CenterAt(MakeMoving(c0, c1, radius, mat), 1.0) == c1
  {
  }

  predicate OnSphere(c: Vec3, radius: real, p: Vec3) {
    Dot(Sub(p, c), Sub(p, c)) == Product(radius, radius)
  }

  /** Each component of a vector of squared length radius^2 lies in
      [-radius, radius]. */
  lemma ComponentsBounded(d: Vec3, radius: real)
    requires radius >= 0.0 && Dot(d, d) == Product(radius, radius)
    ensures -radius <= d.x <= radius && -radius <= d.y <= radius && -radius <= d.z <= radius
  {
    assert Dot(d, d) == Product(d.x, d.x) + Product(d.y, d.y) + Product(d.z, d.z);
    SquareSign(d.x);
    SquareSign(d.y);
    SquareSign(d.z);
    SquareBound(d.x, radius);
    SquareBound(d.y, radius);
    SquareBound(d.z, radius);
  }

  /** Every point of a sphere lies in its centered box. */
  lemma PointInCenteredBox(c: Vec3, radius: real, p: Vec3)
    requires radius >= 0.0 && OnSphere(c, radius, p)
    ensures InsideClosed(CenteredBox(c, radius), p)
  {
    ComponentsBounded(Sub(p, c), radius);
  }

  /** A static sphere's box holds the whole sphere; a moving sphere's box
      holds the sphere at time 0 and at time 1. */
  lemma BoxHoldsSphere(c0: Vec3, c1: Vec3, radius: real, mat: Material, p: Vec3)
    ensures var s := MakeStatic(c0, radius, mat);
      OnSphere(c0, s.radius, p) ==> InsideClosed(s.bbox, p)
    ensures var s := MakeMoving(c0, c1, radius, mat);
      OnSphere(c0, s.radius, p) || OnSphere(c1, s.radius, p) ==> InsideClosed(s.bbox, p)
  {
    var r := ClampRadius(radius);
    var m := MakeMoving(c0, c1, radius, mat);
    assert At(m.center, 0.0) == c0 && At(m.center, 1.0) == c1;
    if OnSphere(c0, r, p) {
      PointInCenteredBox(c0, r, p);
    }
    if OnSphere(c1, r, p) {
      PointInCenteredBox(c1, r, p);
    }
    Boxes.UnionEncloses(CenteredBox(c0, r), CenteredBox(c1, r), p);
  }

  // The quadratic a t^2 - 2 h t + c = 0 in the half-b form of the source,
  // for oc = center - origin.

  function QuadA(r: Ray): real {
    Dot(r.dir, r.dir)
  }

  function QuadH(center: Vec3, r: Ray): real {
    Dot(r.dir, Sub(center, r.orig))
  }

  function QuadC(center: Vec3, radius: real, r: Ray): real {
    Dot(Sub(center, r.orig), Sub(center, r.orig)) - radius * radius
  }

  function Discriminant(center: Vec3, radius: real, r: Ray): real {
    QuadH(center, r) * QuadH(center, r) - QuadA(r) * QuadC(center, radius, r)
  }

  /** The nearer and the farther root. */
  function NearRoot(center: Vec3, radius: real, r: Ray, sqrt: real -> real): real
    requires QuadA(r) != 0.0
  {
    (QuadH(center, r) - sqrt(Discriminant(center, radius, r))) / QuadA(r)
  }

  function FarRoot(center: Vec3, radius: real, r: Ray, sqrt: real -> real): real
    requires QuadA(r) != 0.0
  {
    (QuadH(center, r) + sqrt(Discriminant(center, radius, r))) / QuadA(r)
  }

  /** The root selection of hit: no hit for a negative discriminant; the
      nearer root if it is strictly inside ray_t, else the farther one if it
      is, else no hit. A zero direction (a == 0) gives the roots 0/0, which
      no interval surrounds, so it is no hit as well. */
  function Root(center: Vec3, radius: real, r: Ray, rt: Interval, sqrt: real -> real): (res: Option<real>)
    ensures res.Some? ==> Surrounds(rt, res.value)
    ensures Discriminant(center, radius, r) < 0.0 ==> res.None?
  {
    if Discriminant(center, radius, r) < 0.0 || QuadA(r) == 0.0 then None
    else if Surrounds(rt, NearRoot(center, radius, r, sqrt)) then Some(NearRoot(center, radius, r, sqrt))
    else if Surrounds(rt, FarRoot(center, radius, r, sqrt)) then Some(FarRoot(center, radius, r, sqrt))
    else None
  }

  lemma SquareOfDifference(s: real, d: real, o: real)
    ensures (s * d - o) * (s * d - o) == Product(d * d, s * s) - 2.0 * Product(d * o, s) + o * o
  {
  }

  lemma Distribute3(x: real, y: real, z: real, k: real)
    ensures Product(x + y + z, k) == Product(x, k) + Product(y, k) + Product(z, k)
  {
  }

  /** |s d - oc|^2 as a quadratic in s. */
  lemma SquaredOffset(s: real, d: Vec3, oc: Vec3)
    ensures var e := Sub(Scale(s, d), oc);
      Dot(e, e) == Product(Dot(d, d), Product(s, s)) - 2.0 * Product(Dot(d, oc), s) + Dot(oc, oc)
  {
    SquareOfDifference(s, d.x, oc.x);
    SquareOfDifference(s, d.y, oc.y);
    SquareOfDifference(s, d.z, oc.z);
    Distribute3(d.x * d.x, d.y * d.y, d.z * d.z, s * s);
    Distribute3(d.x * oc.x, d.y * oc.y, d.z * oc.z, s);
  }

  /** The point at parameter s is on the sphere exactly when s solves the
      quadratic. */
  lemma OnSphereIffRoot(center: Vec3, radius: real, r: Ray, s: real)
    ensures OnSphere(center, radius, At(r, s)) <==>
      Product(QuadA(r), Product(s, s)) - 2.0 * Product(QuadH(center, r), s) + QuadC(center, radius, r) == 0.0
  {
    var oc := Sub(center, r.orig);
    assert Sub(At(r, s), center) == Sub(Scale(s, r.dir), oc);
    SquaredOffset(s, r.dir, oc);
  }

  /** a t^2 - 2 h t + c factors as a (t - near) (t - far) when q is a square
      root of the discriminant. */
  lemma Factor(a: real, h: real, c: real, q: real, s: real)
    requires a != 0.0 && q * q == h * h - a * c
    ensures Product(a, Product(s, s)) - 2.0 * Product(h, s) + c
      == Product(a, Product(s - (h - q) / a, s - (h + q) / a))
  {
    var n := (h - q) / a;
    var f := (h + q) / a;
    RootRelations(a, h, c, q);
    ExpandScaledProduct(a, s, n, f);
  }

  /** Vieta's relations for the two roots: a n = h - q, a f = h + q and
      a n f = c. */
  lemma RootRelations(a: real, h: real, c: real, q: real)
    requires a != 0.0 && q * q == h * h - a * c
    ensures a * ((h - q) / a) == h - q && a * ((h + q) / a) == h + q
    ensures a * (((h - q) / a) * ((h + q) / a)) == c
  {
    var n := (h - q) / a;
    var f := (h + q) / a;
    assert a * n == h - q;
    assert a * f == h + q;
    assert (a * n) * (a * f) == h * h - q * q;
    assert a * (a * (n * f)) == a * c;
  }

  lemma ExpandScaledProduct(a: real, s: real, n: real, f: real)
    ensures Product(a, Product(s - n, s - f))
      == Product(a, Product(s, s)) - s * (a * f) - s * (a * n) + a * (n * f)
  {
  }

  /** A solution of the quadratic makes the discriminant a square, so a
      negative discriminant means no point of the ray is on the sphere. */
  lemma RootMakesDiscriminantSquare(a: real, h: real, c: real, s: real)
    requires Product(a, Product(s, s)) - 2.0 * Product(h, s) + c == 0.0
    ensures h * h - a * c == Product(a * s - h, a * s - h)
  {
    assert Product(a * s - h, a * s - h) == a * (a * (s * s) - 2.0 * (h * s)) + h * h;
  }

  /** With a > 0 and q >= 0 the nearer root is not above the farther. */
  lemma NearNotAboveFar(a: real, h: real, q: real)
    requires a > 0.0 && q >= 0.0
    ensures (h - q) / a <= (h + q) / a
  {
    var n := (h - q) / a;
    var f := (h + q) / a;
    assert Product(a, f - n) == 2.0 * q by {
      assert a * n == h - q;
      assert a * f == h + q;
    }
  }

  lemma ScaledProductZero(a: real, x: real, n: real, f: real)
    requires a != 0.0
    ensures Product(a, Product(x - n, x - f)) == 0.0 <==> x == n || x == f
  {
    if Product(a, Product(x - n, x - f)) == 0.0 {
      ProductZero(a, Product(x - n, x - f));
      ProductZero(x - n, x - f);
    }
  }

  /** The parameter solves the quadratic exactly when it is one of the two
      roots. */
  lemma SolutionIsRoot(center: Vec3, radius: real, r: Ray, s: real, sqrt: real -> real)
    requires IsSqrt(sqrt) && QuadA(r) != 0.0 && Discriminant(center, radius, r) >= 0.0
    ensures OnSphere(center, radius, At(r, s)) <==>
      s == NearRoot(center, radius, r, sqrt) || s == FarRoot(center, radius, r, sqrt)
  {
    var a, h, c := QuadA(r), QuadH(center, r), QuadC(center, radius, r);
    var q := sqrt(Discriminant(center, radius, r));
    assert q * q == h * h - a * c;
    OnSphereIffRoot(center, radius, r, s);
    Factor(a, h, c, q, s);
    ScaledProductZero(a, s, (h - q) / a, (h + q) / a);
    assert NearRoot(center, radius, r, sqrt) == (h - q) / a;
    assert FarRoot(center, radius, r, sqrt) == (h + q) / a;
  }

  /** A hit lies on the sphere. */
  lemma RootOnSphere(center: Vec3, radius: real, r: Ray, rt: Interval, sqrt: real -> real)
    requires IsSqrt(sqrt) && Root(center, radius, r, rt, sqrt).Some?
    ensures OnSphere(center, radius, At(r, Root(center, radius, r, rt, sqrt).value))
  {
    SolutionIsRoot(center, radius, r, Root(center, radius, r, rt, sqrt).value, sqrt);
  }

  /** The hit is the nearest point of the sphere strictly inside ray_t: for
      a ray with a direction, any parameter strictly inside ray_t whose
      point is on the sphere makes the test succeed, with a parameter no
      larger. */
  lemma RootNearest(center: Vec3, radius: real, r: Ray, rt: Interval, sqrt: real -> real, s: real)
    requires IsSqrt(sqrt) && r.dir != Zero
    requires Surrounds(rt, s) && OnSphere(center, radius, At(r, s))
    ensures Root(center, radius, r, rt, sqrt).Some?
    ensures Root(center, radius, r, rt, sqrt).value <= s
  {
    var a, h, c := QuadA(r), QuadH(center, r), QuadC(center, radius, r);
    DotSelfNonNegative(r.dir);
    assert a > 0.0;
    OnSphereIffRoot(center, radius, r, s);
    RootMakesDiscriminantSquare(a, h, c, s);
    SquareSign(a * s - h);
    assert Discriminant(center, radius, r) >= 0.0;
    SolutionIsRoot(center, radius, r, s, sqrt);
    var q := sqrt(Discriminant(center, radius, r));
    NearNotAboveFar(a, h, q);
    assert NearRoot(center, radius, r, sqrt) <= FarRoot(center, radius, r, sqrt);
  }

  /** Lowering the upper end of ray_t from hi to b changes no root below
      b: a hit under b is the hit under hi, and a hit under hi that lies
      below b is found under b as well. This holds because the nearer root
      is never above the farther one. */
  lemma RootNarrowed(center: Vec3, radius: real, r: Ray, lo: Ext, b: real, hi: Ext, sqrt: real -> real)
    requires IsSqrt(sqrt) && Le(Fin(b), hi)
    ensures var narrow := Root(center, radius, r, Interval(lo, Fin(b)), sqrt);
      narrow.Some? ==> Root(center, radius, r, Interval(lo, hi), sqrt) == narrow
    ensures var wide := Root(center, radius, r, Interval(lo, hi), sqrt);
      wide.Some? && wide.value < b ==> Root(center, radius, r, Interval(lo, Fin(b)), sqrt) == wide
  {
    if Discriminant(center, radius, r) >= 0.0 && QuadA(r) != 0.0 {
      var a, h := QuadA(r), QuadH(center, r);
      DotSelfNonNegative(r.dir);
      var q := sqrt(Discriminant(center, radius, r));
      NearNotAboveFar(a, h, q);
      assert NearRoot(center, radius, r, sqrt) <= FarRoot(center, radius, r, sqrt);
    }
  }

  /** A ray that reaches no point of the sphere misses it, for a negative
      discriminant at every parameter. */
  lemma NegativeDiscriminantMisses(center: Vec3, radius: real, r: Ray, s: real)
    requires Discriminant(center, radius, r) < 0.0
    ensures !OnSphere(center, radius, At(r, s))
  {
    var a, h, c := QuadA(r), QuadH(center, r), QuadC(center, radius, r);
    OnSphereIffRoot(center, radius, r, s);
    if OnSphere(center, radius, At(r, s)) {
      RootMakesDiscriminantSquare(a, h, c, s);
      SquareSign(a * s - h);
    }
  }

  /** Sphere::hit: the center is taken at the ray's time; on a hit the
      record gets the point, the root and the material, and its normal
      faces the ray; on a miss the record is not touched. The texture
      coordinates from get_sphere_uv are not modelled. */
  method Hit(s: Sphere, r: Ray, rt: Interval, rec: HitRecord, sqrt: real -> real) returns (hit: bool)
    modifies rec
    ensures hit <==> Root(CenterAt(s, r.time), s.radius, r, rt, sqrt).Some?
    ensures hit ==> rec.t == Root(CenterAt(s, r.time), s.radius, r, rt, sqrt).value
    ensures hit ==> rec.p == At(r, rec.t) && rec.mat == s.mat && Dot(r.dir, rec.normal) <= 0.0
    ensures hit ==>
      var outward := Normalize(Sub(At(r, rec.t), CenterAt(s, r.time)), sqrt);
      && (rec.isFrontFace <==> Dot(r.dir, outward) < 0.0)
      && rec.normal == (if rec.isFrontFace then outward else Neg(outward))
    ensures !hit ==> unchanged(rec)
  {
    var center := CenterAt(s, r.time);
    var root := Root(center, s.radius, r, rt, sqrt);
    if root.None? {
      return false;
    }
    var outward := Normalize(Sub(At(r, root.value), center), sqrt);
    rec.SetPointMaterial(At(r, root.value), root.value, s.mat);
    rec.SetFaceNormal(r, outward, sqrt);
    return true;
  }
}
