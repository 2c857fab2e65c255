// The materials of the third renderer, which samples scattered directions by
// importance: scatter fills a scatter record that either fixes the
// direction (metal, glass) or names the density to sample it from
// (Lambertian, isotropic); scattering_pdf is the material's own density.
module MaterialsV3 {
  import opened Reals
  import opened Wrappers
  import opened Vectors
  import opened Rays
  import opened Common
  import opened Textures
  import opened MaterialTypes
  import opened Records
  import opened Optics
  import opened Onbs
  import opened Pdfs

  const Black: Color := Zero
  const White: Color := Vec3(1.0, 1.0, 1.0)

  /** The source divides by a dielectric's refraction index. */
  predicate Usable(mat: Material) {
    mat.Dielectric? ==> mat.refractionIndex > 0.0
  }

  /** ISRecord: the attenuation, the density to sample from (null when the
      direction is determined), and the ray to follow when it is. */
  class ScatterRecord {
    var attenuation: Color
    var pdf: Option<Pdf>
    var isDirectionDetermined: bool
    var skipPdfRay: Ray

    constructor()
      ensures attenuation == Black && pdf.None? && !isDirectionDetermined
      ensures skipPdfRay == Ray(Zero, Zero, 0.0)
    {
      attenuation, pdf, isDirectionDetermined := Black, None, false;
      skipPdfRay := Ray(Zero, Zero, 0.0);
    }
  }

  /** The record a successful scatter leaves: the density is null exactly
      when the direction is determined. */
  ghost predicate Consistent(srec: ScatterRecord)
    reads srec
  {
    srec.pdf.None? <==> srec.isDirectionDetermined
  }

  /** Fills the record of a surface whose direction is sampled from pdf. */
  method SampleFrom(srec: ScatterRecord, attenuation: Color, pdf: Pdf)
    modifies srec
    ensures srec.attenuation == attenuation && srec.pdf == Some(pdf)
    ensures !srec.isDirectionDetermined && srec.skipPdfRay == old(srec.skipPdfRay)
  {
    srec.attenuation := attenuation;
    srec.pdf := Some(pdf);
    srec.isDirectionDetermined := false;
  }

  /** Fills the record of a surface that fixes the scattered ray. */
  method Determine(srec: ScatterRecord, attenuation: Color, scattered: Ray)
    modifies srec
    ensures srec.attenuation == attenuation && srec.pdf.None?
    ensures srec.isDirectionDetermined && srec.skipPdfRay == scattered
  {
    srec.attenuation := attenuation;
    srec.pdf := None;
    srec.isDirectionDetermined := true;
    srec.skipPdfRay := scattered;
  }

  /** scatter(r_in, rec, srec). Lambertian surfaces sample the cosine
      density around the normal and isotropic media the uniform sphere;
      metal and glass fix the direction. Only metal and glass draw random
      numbers, in the order the source draws them. */
  method Scatter(mat: Material, rIn: Ray, rec: HitRecord, srec: ScatterRecord, rng: Rng,
                 sqrt: real -> real) returns (ok: bool)
    requires rng.Valid() && IsSqrt(sqrt) && Usable(mat)
    modifies srec, rng
    ensures rng.Valid()
    ensures ok <==> !(mat.BaseMaterial? || mat.DiffuseLight?)
    ensures !ok ==> unchanged(srec) && rng.pos == old(rng.pos)
    ensures ok ==> Consistent(srec)
    ensures mat.Lambertian? ==>
      srec.attenuation == GetValue(mat.tex, rec.u, rec.v, rec.p) &&
      srec.pdf == Some(MakeCosinePdf(rec.normal, sqrt)) && !srec.isDirectionDetermined &&
      srec.skipPdfRay == old(srec.skipPdfRay) && rng.pos == old(rng.pos)
    ensures mat.Metal? ==>
      srec.attenuation == mat.albedo && srec.pdf.None? && srec.isDirectionDetermined &&
      srec.skipPdfRay == Ray(rec.p, MetalDirection(rIn.dir, rec.normal, mat.fuzz,
                                                   rng.UnitAt(old(rng.pos), sqrt), sqrt), rIn.time) &&
      rng.pos == old(rng.pos) + 3
    ensures mat.Dielectric? ==>
      srec.attenuation == White && srec.pdf.None? && srec.isDirectionDetermined &&
      srec.skipPdfRay.orig == rec.p && srec.skipPdfRay.time == rIn.time &&
      var unit := Normalize(rIn.dir, sqrt);
      var c := CosTheta(unit, rec.normal);
      var ri := RefractionRatio(rec.FrontFace(), mat.refractionIndex);
      if CannotRefract(ri, SinTheta(c, sqrt)) then
        rng.pos == old(rng.pos) && srec.skipPdfRay.dir == Reflect(unit, rec.normal)
      else
        rng.pos == old(rng.pos) + 1 &&
        srec.skipPdfRay.dir == DielectricDirection(unit, rec.normal, ri,
                                                   Reflectance(c, ri) > rng.DoubleAt(old(rng.pos)), sqrt)
    ensures mat.Isotropic? ==>
      srec.attenuation == GetValue(mat.tex, rec.u, rec.v, rec.p) &&
      srec.pdf == Some(SpherePdf) && !srec.isDirectionDetermined &&
      srec.skipPdfRay == old(srec.skipPdfRay) && rng.pos == old(rng.pos)
  {
    match mat {
      case BaseMaterial =>
        ok := false;
      case DiffuseLight(_) =>
        ok := false;
      case Lambertian(tex) =>
        SampleFrom(srec, GetValue(tex, rec.u, rec.v, rec.p), MakeCosinePdf(rec.normal, sqrt));
        ok := true;
      case Metal(albedo, fuzz) =>
        var sample := rng.NextUnitVec3(sqrt);
        Determine(srec, albedo, Ray(rec.p, MetalDirection(rIn.dir, rec.normal, fuzz, sample, sqrt), rIn.time));
        ok := true;
      case Dielectric(index) =>
        var dir := ChooseDielectricDirection(Normalize(rIn.dir, sqrt), rec.normal, rec.FrontFace(),
                                             index, rng, sqrt);
        Determine(srec, White, Ray(rec.p, dir, rIn.time));
        ok := true;
      case Isotropic(tex) =>
        SampleFrom(srec, GetValue(tex, rec.u, rec.v, rec.p), SpherePdf);
        ok := true;
    }
  }

  /** scattering_pdf(r_in, rec, scattered): for a Lambertian surface
      max(0, cos) / pi of the angle between the normal and the scattered
      direction, 1 / (4 pi) for an isotropic medium, 0 for every other
      material. It is never negative. */
  function ScatteringPdf(mat: Material, normal: Vec3, scattered: Ray, sqrt: real -> real): (r: real)
    ensures r >= 0.0
    ensures !(mat.Lambertian? || mat.Isotropic?) ==> r == 0.0
    ensures mat.Isotropic? ==> r == SphereDensity
  {
    match mat
    case Lambertian(_) =>
      var cosTheta := Dot(normal, Normalize(scattered.dir, sqrt));
      if cosTheta < 0.0 then 0.0 else cosTheta / PI
    case Isotropic(_) => SphereDensity
    case _ => 0.0
  }

  /** A genuine square root maps 1 to 1. */
  lemma SqrtOne(sqrt: real -> real)
    requires IsSqrt(sqrt)
    ensures sqrt(1.0) == 1.0
  {
    var s := sqrt(1.0);
    assert s * s == 1.0 && s >= 0.0;
    assert Product(s - 1.0, s + 1.0) == 0.0;
    ProductZero(s - 1.0, s + 1.0);
  }

  /** The Lambertian density is the cosine density's rule applied to the
      cosine against the normal itself. */
  lemma LambertianIsCosineRule(tex: Texture, uvw: Onb, normal: Vec3, scattered: Ray, sqrt: real -> real)
    requires IsSqrt(sqrt) && uvw.w == normal
    ensures ScatteringPdf(Lambertian(tex), normal, scattered, sqrt)
      == Value(CosinePdf(uvw), scattered.dir, sqrt)
  {
    var d := Normalize(scattered.dir, sqrt);
    var c := Dot(normal, d);
    assert Cosine(uvw, scattered.dir, sqrt) == c by {
      assert Dot(d, normal) == Dot(normal, d);
    }
  }

  /** For a unit normal the Lambertian density is exactly the cosine
      density its scatter samples from, so the importance weights cancel. */
  lemma {:induction false} LambertianMatchesCosinePdf(tex: Texture, normal: Vec3, scattered: Ray,
                                                      sqrt: real -> real)
    requires IsSqrt(sqrt) && Dot(normal, normal) == 1.0
    ensures ScatteringPdf(Lambertian(tex), normal, scattered, sqrt)
      == Value(MakeCosinePdf(normal, sqrt), scattered.dir, sqrt)
  {
    SqrtOne(sqrt);
    assert Length(normal, sqrt) == 1.0;
    assert Normalize(normal, sqrt) == normal;
    var p := MakeCosinePdf(normal, sqrt);
    LambertianIsCosineRule(tex, p.uvw, normal, scattered, sqrt);
  }

  /** The isotropic density is the uniform sphere density its scatter
      samples from. */
  lemma IsotropicMatchesSpherePdf(tex: Texture, normal: Vec3, scattered: Ray, sqrt: real -> real)
    requires IsSqrt(sqrt)
    ensures ScatteringPdf(Isotropic(tex), normal, scattered, sqrt)
      == Value(SpherePdf, scattered.dir, sqrt)
  {
  }

  /** emitted(r_in, rec, u, v, p): a light emits its texture value from its
      front face only; nothing else emits. */
  function Emitted(mat: Material, rec: HitRecord, u: real, v: real, p: Vec3): (c: Color)
    reads rec
    ensures !mat.DiffuseLight? || !rec.isFrontFace ==> c == Black
    ensures mat.DiffuseLight? && rec.isFrontFace ==> c == GetValue(mat.emit, u, v, p)
  {
    match mat
    case DiffuseLight(emit) => if rec.isFrontFace then GetValue(emit, u, v, p) else Black
    case _ => Black
  }
}
