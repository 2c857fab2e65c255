// Probability densities over directions: the uniform sphere density, the
// cosine density around a normal, the density of sampling a quad, and the
// mixture of two densities.
module Pdfs {
  import opened Reals
  import opened Wrappers
  import opened Vectors
  import opened Rays
  import opened Common
  import opened Onbs
  import opened Quads

  datatype Pdf =
    | SpherePdf
    | CosinePdf(uvw: Onb)
    /** The sampled object is a quad, the one kind whose pdf_value and
        random the renderer defines. */
    | HittablePdf(objects: Quad, origin: Vec3)
    | MixturePdf(p0: Pdf, p1: Pdf, mixRate: real)

  /** The density of the uniform sphere: 1 / (4 pi). */
  const SphereDensity: real := 1.0 / (4.0 * PI)

  /** CosinePDF(w): the basis built around w. */
  function MakeCosinePdf(w: Vec3, sqrt: real -> real): (p: Pdf)
    ensures p.CosinePdf? && p.uvw.w == Normalize(w, sqrt)
  {
    CosinePdf(MakeOnb(w, sqrt))
  }

  /** Around a non-zero w the cosine density's basis is orthonormal. */
  lemma CosinePdfOrthonormal(w: Vec3, sqrt: real -> real)
    requires IsSqrt(sqrt) && w != Zero
    ensures Orthonormal(MakeCosinePdf(w, sqrt).uvw)
  {
    OnbOrthonormal(w, sqrt);
  }

  /** MixturePDF(p0, p1) with the default mix rate 0.5. */
  function MakeMixture(p0: Pdf, p1: Pdf): (p: Pdf)
    ensures p.MixturePdf? && p.p0 == p0 && p.p1 == p1 && p.mixRate == 0.5
  {
    MixturePdf(p0, p1, 0.5)
  }

  /** Every sampled quad carries the plane its constructor derives. */
  predicate Valid(p: Pdf, sqrt: real -> real) {
    match p
    case HittablePdf(quad, _) => Built(quad, sqrt)
    case MixturePdf(p0, p1, _) => Valid(p0, sqrt) && Valid(p1, sqrt)
    case _ => true
  }

  /** Every mix rate lies in [0, 1]. */
  predicate MixesInRange(p: Pdf) {
    match p
    case MixturePdf(p0, p1, m) => 0.0 <= m <= 1.0 && MixesInRange(p0) && MixesInRange(p1)
    case _ => true
  }

  /** The cosine of the angle between a direction and w, as CosinePDF
      computes it. */
  function Cosine(uvw: Onb, direction: Vec3, sqrt: real -> real): real {
    Dot(Normalize(direction, sqrt), uvw.w)
  }

  /** value(direction). With mix rates in [0, 1] no density is negative. */
  function Value(p: Pdf, direction: Vec3, sqrt: real -> real): (r: real)
    requires IsSqrt(sqrt) && Valid(p, sqrt)
    ensures MixesInRange(p) ==> r >= 0.0
  {
    match p
    case SpherePdf => SphereDensity
    case CosinePdf(uvw) =>
      var cosine := Cosine(uvw, direction, sqrt);
      if 0.0 < cosine / PI then cosine / PI else 0.0
    case HittablePdf(quad, origin) => PdfValue(quad, origin, direction, sqrt)
    case MixturePdf(p0, p1, m) =>
      var a, b := Value(p0, direction, sqrt), Value(p1, direction, sqrt);
      if MixesInRange(p) then
        ProductMonotone(m, 0.0, a);
        ProductMonotone(1.0 - m, 0.0, b);
        Product(m, a) + Product(1.0 - m, b)
      else
        Product(m, a) + Product(1.0 - m, b)
  }

  /** The sphere density is the same positive constant for every direction. */
  lemma SphereValueConstant(d1: Vec3, d2: Vec3, sqrt: real -> real)
    requires IsSqrt(sqrt)
    ensures Value(SpherePdf, d1, sqrt) == Value(SpherePdf, d2, sqrt) == 1.0 / (4.0 * PI)
    ensures Value(SpherePdf, d1, sqrt) > 0.0
  {
  }

  /** The cosine density is positive exactly for directions on w's side and
      is then cos / pi; for all other directions it is 0. */
  lemma {:induction false} CosineValueSign(uvw: Onb, direction: Vec3, sqrt: real -> real)
    requires IsSqrt(sqrt) && direction != Zero
    ensures Value(CosinePdf(uvw), direction, sqrt) > 0.0 <==> Dot(direction, uvw.w) > 0.0
    ensures Dot(direction, uvw.w) > 0.0 ==>
      Value(CosinePdf(uvw), direction, sqrt) == Cosine(uvw, direction, sqrt) / PI
    ensures Dot(direction, uvw.w) <= 0.0 ==> Value(CosinePdf(uvw), direction, sqrt) == 0.0
  {
    DotSelfNonNegative(direction);
    var len := Length(direction, sqrt);
    assert len * len == Dot(direction, direction) && len >= 0.0;
    assert len > 0.0;
    var k := 1.0 / len;
    assert k > 0.0;
    assert Normalize(direction, sqrt) == Scale(k, direction);
    DotScaleRight(uvw.w, k, direction);
    assert Cosine(uvw, direction, sqrt) == Product(k, Dot(direction, uvw.w));
    var c := Dot(direction, uvw.w);
    if c > 0.0 {
      ProductPositive(k, c);
    } else if c < 0.0 {
      ProductPositive(k, -c);
      assert Product(k, -c) == -Product(k, c);
    }
  }

  /** The mixture's value lies between its two parts' values. */
  lemma {:induction false} MixtureBetween(p0: Pdf, p1: Pdf, m: real, direction: Vec3, sqrt: real -> real)
    requires IsSqrt(sqrt) && Valid(p0, sqrt) && Valid(p1, sqrt) && 0.0 <= m <= 1.0
    ensures var a, b, r := Value(p0, direction, sqrt), Value(p1, direction, sqrt),
                          Value(MixturePdf(p0, p1, m), direction, sqrt);
      (a <= r <= b) || (b <= r <= a)
  {
    MixtureValueIs(p0, p1, m, direction, sqrt, Value(p0, direction, sqrt), Value(p1, direction, sqrt));
  }

  lemma MixtureValueIs(p0: Pdf, p1: Pdf, m: real, direction: Vec3, sqrt: real -> real, a: real, b: real)
    requires IsSqrt(sqrt) && Valid(p0, sqrt) && Valid(p1, sqrt) && 0.0 <= m <= 1.0
    requires a == Value(p0, direction, sqrt) && b == Value(p1, direction, sqrt)
    ensures var r := Value(MixturePdf(p0, p1, m), direction, sqrt); (a <= r <= b) || (b <= r <= a)
  {
    Interpolation(m, a, b);
  }

  /** With the default mix rate the value is the mean of the two parts. */
  lemma MixtureDefaultMean(p0: Pdf, p1: Pdf, direction: Vec3, sqrt: real -> real)
    requires IsSqrt(sqrt) && Valid(p0, sqrt) && Valid(p1, sqrt)
    ensures Value(MakeMixture(p0, p1), direction, sqrt)
      == (Value(p0, direction, sqrt) + Value(p1, direction, sqrt)) / 2.0
  {
  }

  /** A stream of std::rand() results. */
  ghost predicate Draws(draws: nat -> int) {
    forall k: nat :: IsDraw(draws(k))
  }

  /** generate(), with the std::rand() results read from draws at pos and
      after. random_cosine_direction is not part of this model: its result
      is the parameter cosineSample. A mixture spends one draw to choose. */
  function Generate(p: Pdf, draws: nat -> int, pos: nat, cosineSample: Vec3,
                    sqrt: real -> real): (r: Vec3)
    requires Draws(draws) && IsSqrt(sqrt)
    ensures p.SpherePdf? ==> r == Zero || Dot(r, r) == 1.0
    ensures p.CosinePdf? && Orthonormal(p.uvw) ==>
      Dot(r, p.uvw.w) == cosineSample.z && Dot(r, r) == Dot(cosineSample, cosineSample)
  {
    match p
    case SpherePdf =>
      RandomUnitVec3Unit(draws(pos), draws(pos + 1), draws(pos + 2), sqrt);
      RandomUnitVec3(draws(pos), draws(pos + 1), draws(pos + 2), sqrt)
    case CosinePdf(uvw) =>
      if Orthonormal(uvw) then TransformCoordinates(uvw, cosineSample); Transform(uvw, cosineSample)
      else Transform(uvw, cosineSample)
    case HittablePdf(quad, origin) => RandomToward(quad, origin, draws(pos), draws(pos + 1))
    case MixturePdf(p0, p1, m) =>
      if RandomDouble(draws(pos)) < m then Generate(p0, draws, pos + 1, cosineSample, sqrt)
      else Generate(p1, draws, pos + 1, cosineSample, sqrt)
  }

  /** A mixture generates from p0 exactly when its draw is below the mix
      rate, and from p1 otherwise. */
  lemma MixtureChooses(p0: Pdf, p1: Pdf, m: real, draws: nat -> int, pos: nat,
                       cosineSample: Vec3, sqrt: real -> real)
    requires Draws(draws) && IsSqrt(sqrt)
    ensures RandomDouble(draws(pos)) < m ==>
      Generate(MixturePdf(p0, p1, m), draws, pos, cosineSample, sqrt)
        == Generate(p0, draws, pos + 1, cosineSample, sqrt)
    ensures RandomDouble(draws(pos)) >= m ==>
      Generate(MixturePdf(p0, p1, m), draws, pos, cosineSample, sqrt)
        == Generate(p1, draws, pos + 1, cosineSample, sqrt)
  {
  }

  /** The conditions under which each density the draws lead to can be
      sampled: a cosine basis is orthonormal and the sample lies above its
      plane, a quad is not degenerate and the sampled direction is not
      parallel to it. */
  ghost predicate Sampleable(p: Pdf, draws: nat -> int, pos: nat, cosineSample: Vec3,
                             sqrt: real -> real)
    requires Draws(draws) && IsSqrt(sqrt)
  {
    match p
    case SpherePdf => true
    case CosinePdf(uvw) => Orthonormal(uvw) && cosineSample.z > 0.0
    case HittablePdf(quad, origin) =>
      Cross(quad.u, quad.v) != Zero &&
      Abs(Dot(quad.normal, RandomToward(quad, origin, draws(pos), draws(pos + 1)))) >= 1e-8
    case MixturePdf(p0, p1, m) =>
      if RandomDouble(draws(pos)) < m then Sampleable(p0, draws, pos + 1, cosineSample, sqrt)
      else Sampleable(p1, draws, pos + 1, cosineSample, sqrt)
  }

  /** Every direction generate() returns has positive density under
      value(): the two halves of each PDF describe the same distribution's
      support. */
  lemma {:induction false} GeneratedHasDensity(p: Pdf, draws: nat -> int, pos: nat,
                                                cosineSample: Vec3, sqrt: real -> real)
    requires IsSqrt(sqrt) && Draws(draws) && Valid(p, sqrt) && MixesInRange(p)
    requires Sampleable(p, draws, pos, cosineSample, sqrt)
    ensures Value(p, Generate(p, draws, pos, cosineSample, sqrt), sqrt) > 0.0
  {
    var r := Generate(p, draws, pos, cosineSample, sqrt);
    match p
    case SpherePdf =>
    case CosinePdf(uvw) =>
      assert Dot(r, uvw.w) == cosineSample.z;
      assert r != Zero;
      CosineValueSign(uvw, r, sqrt);
    case HittablePdf(quad, origin) =>
      RandomTowardHits(quad, origin, draws(pos), draws(pos + 1), sqrt);
    case MixturePdf(p0, p1, m) =>
      var a, b := Value(p0, r, sqrt), Value(p1, r, sqrt);
      assert Value(p, r, sqrt) == Product(m, a) + Product(1.0 - m, b);
      var u := RandomDouble(draws(pos));
      if u < m {
        GeneratedHasDensity(p0, draws, pos + 1, cosineSample, sqrt);
        ProductPositive(m, a);
        ProductMonotone(1.0 - m, 0.0, b);
      } else {
        GeneratedHasDensity(p1, draws, pos + 1, cosineSample, sqrt);
        ProductPositive(1.0 - m, b);
        ProductMonotone(m, 0.0, a);
      }
  }
}
