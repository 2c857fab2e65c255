// The orthonormal basis that turns directions sampled around the z axis
// into directions around a surface normal.
module Onbs {
  import opened Reals
  import opened Vectors
  import opened Common

  /** Basis vectors u, v, w; w plays the part of the z axis. */
  datatype Onb = Onb(u: Vec3, v: Vec3, w: Vec3)

  predicate Orthonormal(b: Onb) {
    Dot(b.u, b.u) == 1.0 && Dot(b.v, b.v) == 1.0 && Dot(b.w, b.w) == 1.0 &&
    Dot(b.u, b.v) == 0.0 && Dot(b.v, b.w) == 0.0 && Dot(b.w, b.u) == 0.0
  }

  /** The helper axis: (0, 1, 0) when |w.x| > 0.9, otherwise (1, 0, 0).
      Either way it is a unit vector, and for a unit w it is never parallel
      to w, so w x a is never the zero vector. */
  function HelperAxis(w: Vec3): (a: Vec3)
    ensures a == Vec3(0.0, 1.0, 0.0) || a == Vec3(1.0, 0.0, 0.0)
    ensures Abs(w.x) > 0.9 <==> a == Vec3(0.0, 1.0, 0.0)
    ensures Dot(w, w) == 1.0 ==> Cross(w, a) != Zero
  {
    if Abs(w.x) > 0.9 then
      Vec3(0.0, 1.0, 0.0)
    else
      HelperAxisSound(w);
      Vec3(1.0, 0.0, 0.0)
  }

  /** With |w.x| <= 0.9 a unit w has a non-zero y or z component. */
  lemma HelperAxisSound(w: Vec3)
    requires Abs(w.x) <= 0.9
    ensures Dot(w, w) == 1.0 ==> w.y != 0.0 || w.z != 0.0
  {
    var m := Abs(w.x);
    assert Product(m, m) == Product(w.x, w.x);
    ProductMonotone(m, m, 0.9);
    assert Product(m, 0.9) == Product(0.9, m);
    ProductMonotone(0.9, m, 0.9);
    assert Product(w.x, w.x) <= 0.81;
    if w.y == 0.0 && w.z == 0.0 {
      assert Dot(w, w) == Product(w.x, w.x);
    }
  }

  /** The ONB constructor: w = normalize(n), v = normalize(w x a) for the
      helper axis a, u = w x v. Whatever the input, w is orthogonal to v
      and to u, and v to u. */
  function MakeOnb(normal: Vec3, sqrt: real -> real): (b: Onb)
    ensures b.w == Normalize(normal, sqrt)
    ensures b.v == Normalize(Cross(b.w, HelperAxis(b.w)), sqrt)
    ensures b.u == Cross(b.w, b.v)
    ensures Dot(b.w, b.v) == 0.0 && Dot(b.w, b.u) == 0.0 && Dot(b.v, b.u) == 0.0
  {
    var w := Normalize(normal, sqrt);
    var c := Cross(w, HelperAxis(w));
    var v := Normalize(c, sqrt);
    NormalizeIsScaled(c, sqrt);
    var k :| v == Scale(k, c);
    CrossOrthogonal(w, HelperAxis(w));
    DotScaleRight(w, k, c);
    CrossOrthogonal(w, v);
    Onb(Cross(w, v), v, w)
  }

  /** |a x b|^2 = |a|^2 |b|^2 - (a . b)^2 (Lagrange's identity). */
  lemma CrossLength(a: Vec3, b: Vec3)
    ensures Dot(Cross(a, b), Cross(a, b))
      == Product(Dot(a, a), Dot(b, b)) - Product(Dot(a, b), Dot(a, b))
  {
  }

  /** The cross product of two orthogonal unit vectors is a unit vector. */
  lemma CrossOfOrthogonalUnits(a: Vec3, b: Vec3)
    requires Dot(a, a) == 1.0 && Dot(b, b) == 1.0 && Dot(a, b) == 0.0
    ensures Dot(Cross(a, b), Cross(a, b)) == 1.0
  {
    CrossLength(a, b);
    assert Product(Dot(a, a), Dot(b, b)) == 1.0;
    assert Product(Dot(a, b), Dot(a, b)) == 0.0;
  }

  /** Normalising a non-zero vector scales it by a positive factor. */
  lemma NormalizePositive(v: Vec3, sqrt: real -> real)
    requires IsSqrt(sqrt) && v != Zero
    ensures exists k: real :: k > 0.0 && Normalize(v, sqrt) == Scale(k, v)
  {
    DotSelfNonNegative(v);
    var len := Length(v, sqrt);
    assert len * len == Dot(v, v) && len >= 0.0;
    assert len > 0.0;
    assert Normalize(v, sqrt) == Scale(1.0 / len, v);
  }

  /** For a non-zero normal the basis is orthonormal and w points along
      the normal. */
  lemma {:induction false} OnbOrthonormal(normal: Vec3, sqrt: real -> real)
    requires IsSqrt(sqrt) && normal != Zero
    ensures Orthonormal(MakeOnb(normal, sqrt))
    ensures exists k: real :: k > 0.0 && MakeOnb(normal, sqrt).w == Scale(k, normal)
  {
    var b := MakeOnb(normal, sqrt);
    NormalizeUnit(normal, sqrt);
    var c := Cross(b.w, HelperAxis(b.w));
    NormalizeUnit(c, sqrt);
    CrossOfOrthogonalUnits(b.w, b.v);
    assert Dot(b.u, b.v) == Dot(b.v, b.u);
    assert Dot(b.v, b.w) == Dot(b.w, b.v);
    NormalizePositive(normal, sqrt);
  }

  /** transform(vec) = vec.x u + vec.y v + vec.z w */
  function Transform(b: Onb, vec: Vec3): Vec3 {
    Add(Add(Scale(vec.x, b.u), Scale(vec.y, b.v)), Scale(vec.z, b.w))
  }

  /** The basis coordinates map to the basis vectors; in particular
      (0, 0, 1) maps to w. */
  lemma TransformAxes(b: Onb)
    ensures Transform(b, Vec3(1.0, 0.0, 0.0)) == b.u
    ensures Transform(b, Vec3(0.0, 1.0, 0.0)) == b.v
    ensures Transform(b, Vec3(0.0, 0.0, 1.0)) == b.w
  {
    assert Scale(0.0, b.u) == Zero && Scale(0.0, b.v) == Zero && Scale(0.0, b.w) == Zero;
    assert Scale(1.0, b.u) == b.u && Scale(1.0, b.v) == b.v && Scale(1.0, b.w) == b.w;
  }

  /** transform is linear. */
  lemma TransformLinear(b: Onb, x: Vec3, y: Vec3, k: real)
    ensures Transform(b, Add(x, y)) == Add(Transform(b, x), Transform(b, y))
    ensures Transform(b, Scale(k, x)) == Scale(k, Transform(b, x))
  {
    TransformAdditive(b, x, y);
    TransformHomogeneous(b, x, k);
  }

  lemma TransformAdditive(b: Onb, x: Vec3, y: Vec3)
    ensures Transform(b, Add(x, y)) == Add(Transform(b, x), Transform(b, y))
  {
    ScaleSum(x.x, y.x, b.u);
    ScaleSum(x.y, y.y, b.v);
    ScaleSum(x.z, y.z, b.w);
    var s := Add(x, y);
    assert s.x == x.x + y.x && s.y == x.y + y.y && s.z == x.z + y.z;
  }

  lemma TransformHomogeneous(b: Onb, x: Vec3, k: real)
    ensures Transform(b, Scale(k, x)) == Scale(k, Transform(b, x))
  {
    ScaleScale(k, x.x, b.u);
    ScaleScale(k, x.y, b.v);
    ScaleScale(k, x.z, b.w);
    var pu, pv, pw := Scale(x.x, b.u), Scale(x.y, b.v), Scale(x.z, b.w);
    ScaleAdd(k, pu, pv);
    ScaleAdd(k, Add(pu, pv), pw);
    var sx := Scale(k, x);
    assert sx.x == k * x.x && sx.y == k * x.y && sx.z == k * x.z;
    calc {
      Transform(b, sx);
      Add(Add(Scale(k * x.x, b.u), Scale(k * x.y, b.v)), Scale(k * x.z, b.w));
      Add(Add(Scale(k, pu), Scale(k, pv)), Scale(k, pw));
      Scale(k, Add(Add(pu, pv), pw));
    }
  }

  lemma ScaleSum(a: real, c: real, p: Vec3)
    ensures Scale(a + c, p) == Add(Scale(a, p), Scale(c, p))
  {
  }

  lemma ScaleAdd(k: real, p: Vec3, q: Vec3)
    ensures Scale(k, Add(p, q)) == Add(Scale(k, p), Scale(k, q))
  {
  }

  lemma ScaleScale(k: real, a: real, p: Vec3)
    ensures Scale(k * a, p) == Scale(k, Scale(a, p))
  {
    assert (k * a) * p.x == k * (a * p.x);
    assert (k * a) * p.y == k * (a * p.y);
    assert (k * a) * p.z == k * (a * p.z);
  }

  lemma DotCombination(a: real, p: Vec3, c: real, q: Vec3, e: real, r: Vec3, s: Vec3)
    ensures Dot(Add(Add(Scale(a, p), Scale(c, q)), Scale(e, r)), s)
      == Product(a, Dot(p, s)) + Product(c, Dot(q, s)) + Product(e, Dot(r, s))
  {
  }

  /** In an orthonormal basis transform keeps coordinates and lengths: the
      component of transform(vec) along u, v, w is vec.x, vec.y, vec.z, and
      |transform(vec)| = |vec|. */
  lemma {:induction false} TransformCoordinates(b: Onb, vec: Vec3)
    requires Orthonormal(b)
    ensures Dot(Transform(b, vec), b.u) == vec.x
    ensures Dot(Transform(b, vec), b.v) == vec.y
    ensures Dot(Transform(b, vec), b.w) == vec.z
    ensures Dot(Transform(b, vec), Transform(b, vec)) == Dot(vec, vec)
  {
    var t := Transform(b, vec);
    DotCombination(vec.x, b.u, vec.y, b.v, vec.z, b.w, b.u);
    assert Dot(b.v, b.u) == Dot(b.u, b.v) && Dot(b.w, b.u) == Dot(b.u, b.w);
    DotCombination(vec.x, b.u, vec.y, b.v, vec.z, b.w, b.v);
    assert Dot(b.w, b.v) == Dot(b.v, b.w);
    DotCombination(vec.x, b.u, vec.y, b.v, vec.z, b.w, b.w);
    assert Dot(t, t) == Dot(Transform(b, vec), t);
    DotCombination(vec.x, b.u, vec.y, b.v, vec.z, b.w, t);
    assert Dot(b.u, t) == Dot(t, b.u) && Dot(b.v, t) == Dot(t, b.v) && Dot(b.w, t) == Dot(t, b.w);
  }
}
