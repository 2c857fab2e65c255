// Scattering rules that the three versions of the renderer's materials
// share line for line: the fuzz clamp of a metal, the refraction ratio and
// Schlick's reflectance of a dielectric, and the scatter directions of the
// Lambertian, metal and dielectric surfaces.
module Optics {
  import opened Reals
  import opened Vectors
  import opened Common
  import opened Textures
  import opened MaterialTypes
  import Onbs

  /** Metal(albedo, fuzz): the fuzz is clamped to at most 1. */
  function MakeMetal(albedo: Color, fuzz: real): (m: Material)
    ensures m.Metal? && m.albedo == albedo
    ensures m.fuzz <= 1.0
    ensures fuzz < 1.0 ==> m.fuzz == fuzz
    ensures fuzz >= 1.0 ==> m.fuzz == 1.0
  {
    Metal(albedo, if fuzz < 1.0 then fuzz else 1.0)
  }

  /** Lambertian(albedo) and the other colour constructors wrap the colour
      in a solid-colour texture, which yields it everywhere. */
  function SolidTexture(albedo: Color): (t: Texture)
    ensures forall u: real, v: real, p: Vec3 :: GetValue(t, u, v, p) == albedo
  {
    SolidColor(albedo)
  }

  /** ri = 1 / eta on the front face and eta on the back face. */
  function RefractionRatio(frontFace: bool, index: real): (ri: real)
    requires index != 0.0
    ensures frontFace ==> Product(ri, index) == 1.0
    ensures !frontFace ==> ri == index
    ensures index > 0.0 ==> ri > 0.0
  {
    if frontFace then 1.0 / index else index
  }

  /** (1 - cos)^5, written as repeated products. */
  function Pow5(x: real): real {
    Product(x, Product(x, Product(x, Product(x, x))))
  }

  /** A product of two values in [0, 1] is in [0, 1]. */
  lemma UnitProduct(a: real, b: real)
    requires 0.0 <= a <= 1.0 && 0.0 <= b <= 1.0
    ensures 0.0 <= Product(a, b) <= 1.0
  {
    ProductMonotone(a, 0.0, b);
    ProductMonotone(a, b, 1.0);
  }

  lemma Pow5Unit(x: real)
    requires 0.0 <= x <= 1.0
    ensures 0.0 <= Pow5(x) <= 1.0
    ensures x == 0.0 ==> Pow5(x) == 0.0
    ensures x == 1.0 ==> Pow5(x) == 1.0
  {
    UnitProduct(x, x);
    UnitProduct(x, Product(x, x));
    UnitProduct(x, Product(x, Product(x, x)));
    UnitProduct(x, Product(x, Product(x, Product(x, x))));
  }

  /** r0 = ((1 - ri) / (1 + ri))^2, the reflectance at normal incidence. */
  function R0(ri: real): real
    requires ri != -1.0
  {
    var q := (1.0 - ri) / (1.0 + ri);
    Product(q, q)
  }

  /** Schlick's approximation r0 + (1 - r0)(1 - cos)^5. */
  function Reflectance(cosine: real, ri: real): real
    requires ri != -1.0
  {
    R0(ri) + Product(1.0 - R0(ri), Pow5(1.0 - cosine))
  }

  /** For a positive ratio, q = (1 - ri) / (1 + ri) lies in (-1, 1). */
  lemma RatioQuotientBounds(ri: real)
    requires ri > 0.0
    ensures -1.0 < (1.0 - ri) / (1.0 + ri) < 1.0
  {
    var q := (1.0 - ri) / (1.0 + ri);
    assert q == Product(1.0 - ri, 1.0 / (1.0 + ri));
    DividePositive(1.0 - ri, 1.0 + ri, 1.0);
    DividePositive(1.0 - ri, 1.0 + ri, -1.0);
  }

  /** For a positive ratio r0 lies in [0, 1). */
  lemma R0Bounds(ri: real)
    requires ri > 0.0
    ensures 0.0 <= R0(ri) < 1.0
  {
    var q := (1.0 - ri) / (1.0 + ri);
    RatioQuotientBounds(ri);
    var m := Abs(q);
    assert Product(m, m) == Product(q, q);
    ProductMonotone(m, m, 1.0);
    SquareSign(q);
  }

  /** For a positive ratio r0 lies in [0, 1), and for cos in [0, 1] the
      reflectance lies in [r0, 1]: r0 at normal incidence, 1 at grazing
      incidence. */
  lemma {:induction false} ReflectanceBounds(cosine: real, ri: real)
    requires ri > 0.0 && 0.0 <= cosine <= 1.0
    ensures 0.0 <= R0(ri) < 1.0
    ensures R0(ri) <= Reflectance(cosine, ri) <= 1.0
    ensures cosine == 1.0 ==> Reflectance(cosine, ri) == R0(ri)
    ensures cosine == 0.0 ==> Reflectance(cosine, ri) == 1.0
  {
    R0Bounds(ri);
    var r0 := R0(ri);
    var x := 1.0 - cosine;
    Pow5Unit(x);
    ProductMonotone(1.0 - r0, 0.0, Pow5(x));
    ProductMonotone(1.0 - r0, Pow5(x), 1.0);
  }

  /** cos_theta = min(-unit . n, 1) */
  function CosTheta(unit: Vec3, normal: Vec3): (c: real)
    ensures c <= 1.0 && c <= Dot(Neg(unit), normal)
    ensures c == 1.0 || c == Dot(Neg(unit), normal)
  {
    var d := Dot(Neg(unit), normal);
    if d < 1.0 then d else 1.0
  }

  /** sin_theta = sqrt(1 - cos^2) */
  function SinTheta(c: real, sqrt: real -> real): real {
    sqrt(1.0 - Product(c, c))
  }

  /** The total internal reflection test ri * sin_theta > 1. */
  predicate CannotRefract(ri: real, sinTheta: real) {
    Product(ri, sinTheta) > 1.0
  }

  /** Cauchy-Schwarz for unit vectors: their dot product is in [-1, 1]. */
  lemma {:induction false} UnitDotBounded(a: Vec3, b: Vec3)
    requires Dot(a, a) == 1.0 && Dot(b, b) == 1.0
    ensures -1.0 <= Dot(a, b) <= 1.0
  {
    Onbs.CrossLength(a, b);
    DotSelfNonNegative(Cross(a, b));
    assert Product(Dot(a, a), Dot(b, b)) == 1.0;
    assert Product(Dot(a, b), Dot(a, b)) <= Product(1.0, 1.0);
    SquareBound(Dot(a, b), 1.0);
  }

  /** Entering a denser medium (front face, eta >= 1) through unit vectors
      never triggers total internal reflection. */
  lemma {:induction false} FrontFaceRefracts(unit: Vec3, normal: Vec3, index: real, sqrt: real -> real)
    requires IsSqrt(sqrt) && index >= 1.0
    requires Dot(unit, unit) == 1.0 && Dot(normal, normal) == 1.0
    ensures !CannotRefract(RefractionRatio(true, index),
                           SinTheta(CosTheta(unit, normal), sqrt))
  {
    assert Dot(Neg(unit), Neg(unit)) == Dot(unit, unit);
    UnitDotBounded(Neg(unit), normal);
    var c := CosTheta(unit, normal);
    assert -1.0 <= c <= 1.0;
    var m := Abs(c);
    assert Product(m, m) == Product(c, c);
    UnitProduct(m, m);
    var x := 1.0 - Product(c, c);
    var s := sqrt(x);
    assert s * s == x && s >= 0.0;
    assert Product(s, s) <= Product(1.0, 1.0);
    SquareBound(s, 1.0);
    var ri := RefractionRatio(true, index);
    assert ri == 1.0 / index;
    DividePositive(1.0, index, 1.0);
    assert Product(1.0, 1.0 / index) == ri;
    ProductMonotone(ri, s, 1.0);
  }

  /** The Lambertian direction: normal + sample, replaced by the normal
      when that sum is near zero. */
  function LambertianDirection(normal: Vec3, sample: Vec3): (d: Vec3)
    ensures d == normal || d == Add(normal, sample)
    ensures !NearZero(Add(normal, sample)) ==> d == Add(normal, sample)
    ensures NearZero(Add(normal, sample)) ==> d == normal
    ensures Dot(normal, normal) == 1.0 ==> !NearZero(d)
  {
    UnitNotNearZero(normal);
    var sum := Add(normal, sample);
    if NearZero(sum) then normal else sum
  }

  lemma SmallSquare(x: real)
    requires Abs(x) < 1e-8
    ensures Product(x, x) < 1e-16
  {
    var m := Abs(x);
    assert Product(m, m) == Product(x, x);
    ProductMonotone(m, m, 1e-8);
    assert Product(m, 1e-8) == Product(1e-8, m);
    ProductMonotone(1e-8, m, 1e-8);
  }

  /** A unit vector is not near zero, so the Lambertian fallback to the
      normal never yields a degenerate scattered ray. */
  lemma UnitNotNearZero(normal: Vec3)
    ensures Dot(normal, normal) == 1.0 ==> !NearZero(normal)
  {
    if NearZero(normal) {
      SmallSquare(normal.x);
      SmallSquare(normal.y);
      SmallSquare(normal.z);
    }
  }

  /** normalize(reflect(dir, n)) + fuzz * sample */
  function MetalDirection(dir: Vec3, normal: Vec3, fuzz: real, sample: Vec3,
                          sqrt: real -> real): Vec3 {
    Add(Normalize(Reflect(dir, normal), sqrt), Scale(fuzz, sample))
  }

  /** For a unit normal reflecting keeps the length. */
  lemma {:induction false} ReflectPreservesLength(v: Vec3, n: Vec3)
    requires Dot(n, n) == 1.0
    ensures Dot(Reflect(v, n), Reflect(v, n)) == Dot(v, v)
  {
    var k := 2.0 * Dot(v, n);
    var r := Reflect(v, n);
    assert r == Add(v, Scale(-k, n));
    assert Dot(r, r) == Dot(v, v) - 2.0 * Product(k, Dot(v, n)) + Product(Product(k, k), Dot(n, n));
    assert Product(Product(k, k), Dot(n, n)) == Product(k, k);
    assert Product(k, k) == 2.0 * Product(k, Dot(v, n));
  }

  /** A mirror (fuzz 0) metal hit through a unit normal sends the ray
      away from the surface exactly when the ray arrived from the normal's
      side, so its scatter test dot(scattered, n) > 0 succeeds exactly for
      such rays. */
  lemma {:induction false} MirrorMetalScatters(dir: Vec3, normal: Vec3, sample: Vec3, sqrt: real -> real)
    requires IsSqrt(sqrt) && Dot(normal, normal) == 1.0 && dir != Zero
    ensures Dot(MetalDirection(dir, normal, 0.0, sample, sqrt), normal) > 0.0
      <==> Dot(dir, normal) < 0.0
  {
    var r := Reflect(dir, normal);
    ReflectFlipsNormalComponent(dir, normal);
    ReflectPreservesLength(dir, normal);
    DotSelfNonNegative(dir);
    DotSelfNonNegative(r);
    assert r != Zero;
    DotSelfNonNegative(r);
    var len := Length(r, sqrt);
    assert len * len == Dot(r, r) && len >= 0.0;
    assert len > 0.0;
    var k := 1.0 / len;
    assert k > 0.0;
    assert Normalize(r, sqrt) == Scale(k, r);
    assert MetalDirection(dir, normal, 0.0, sample, sqrt) == Scale(k, r);
    assert Dot(Scale(k, r), normal) == Dot(normal, Scale(k, r));
    DotScaleRight(normal, k, r);
    var c := Dot(dir, normal);
    assert Dot(normal, r) == -c;
    assert Dot(Scale(k, r), normal) == Product(k, -c);
    if c < 0.0 {
      ProductPositive(k, -c);
    } else {
      ProductMonotone(k, -c, 0.0);
    }
  }

  /** The dielectric direction: the mirror direction when it reflects, the
      refracted one otherwise. */
  function DielectricDirection(unit: Vec3, normal: Vec3, ri: real, reflects: bool,
                               sqrt: real -> real): Vec3 {
    if reflects then Reflect(unit, normal) else Refract(unit, normal, ri, sqrt)
  }

  /** The dielectric's choice between reflection and refraction for a unit
      incoming direction: it reflects without a draw under total internal
      reflection, and otherwise draws one random_double and reflects when
      Schlick's reflectance exceeds it. */
  method ChooseDielectricDirection(unit: Vec3, normal: Vec3, frontFace: bool, index: real,
                                   rng: Rng, sqrt: real -> real) returns (dir: Vec3)
    requires rng.Valid() && index > 0.0
    modifies rng
    ensures rng.Valid()
    ensures var c := CosTheta(unit, normal);
      var ri := RefractionRatio(frontFace, index);
      if CannotRefract(ri, SinTheta(c, sqrt)) then
        rng.pos == old(rng.pos) && dir == Reflect(unit, normal)
      else
        rng.pos == old(rng.pos) + 1 &&
        dir == DielectricDirection(unit, normal, ri, Reflectance(c, ri) > rng.DoubleAt(old(rng.pos)), sqrt)
  {
    var ri := RefractionRatio(frontFace, index);
    var cosTheta := CosTheta(unit, normal);
    var sinTheta := SinTheta(cosTheta, sqrt);
    var reflects := CannotRefract(ri, sinTheta);
    if !reflects {
      var u := rng.NextDouble();
      reflects := Reflectance(cosTheta, ri) > u;
    }
    dir := DielectricDirection(unit, normal, ri, reflects, sqrt);
  }
}
