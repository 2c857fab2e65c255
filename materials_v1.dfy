// The materials of the first renderer: a Lambertian surface with a plain
// albedo, a fuzzy metal and a dielectric. Its rays carry no time; they are
// modelled as rays at time 0.
module MaterialsV1 {
  import opened Vectors
  import opened Rays
  import opened Common
  import opened Textures
  import opened MaterialTypes
  import opened Records
  import opened Optics

  const Black: Color := Zero
  const White: Color := Vec3(1.0, 1.0, 1.0)

  /** The kinds the first renderer has. Its Lambertian holds an albedo,
      modelled as a solid-colour texture; the source divides by a
      dielectric's refraction index. */
  predicate Usable(mat: Material) {
    match mat
    case BaseMaterial => true
    case Lambertian(tex) => tex.SolidColor?
    case Metal(_, _) => true
    case Dielectric(index) => index > 0.0
    case _ => false
  }

  /** scatter(r_in, rec, attenuation, scattered). Lambertian and dielectric
      surfaces always scatter, a metal only into the normal's side, the
      base material never. Random draws are taken from rng in the order the
      source takes them. */
  method Scatter(mat: Material, rIn: Ray, rec: HitRecord, rng: Rng, sqrt: real -> real)
    returns (ok: bool, attenuation: Color, scattered: Ray)
    requires rng.Valid() && IsSqrt(sqrt) && Usable(mat)
    modifies rng
    ensures rng.Valid()
    ensures ok <==> (mat.Lambertian? || mat.Dielectric? ||
                     (mat.Metal? && Dot(scattered.dir, rec.normal) > 0.0))
    ensures mat.BaseMaterial? ==> rng.pos == old(rng.pos)
    ensures !mat.BaseMaterial? ==> scattered.orig == rec.p && scattered.time == 0.0
    ensures mat.Lambertian? ==>
      rng.pos == old(rng.pos) + 3 && attenuation == mat.tex.albedo &&
      scattered.dir == LambertianDirection(rec.normal, rng.UnitAt(old(rng.pos), sqrt))
    ensures mat.Metal? ==>
      rng.pos == old(rng.pos) + 3 && attenuation == mat.albedo &&
      scattered.dir == MetalDirection(rIn.dir, rec.normal, mat.fuzz,
                                      rng.UnitAt(old(rng.pos), sqrt), sqrt)
    ensures mat.Dielectric? ==>
      attenuation == White &&
      var unit := Normalize(rIn.dir, sqrt);
      var c := CosTheta(unit, rec.normal);
      var ri := RefractionRatio(rec.FrontFace(), mat.refractionIndex);
      if CannotRefract(ri, SinTheta(c, sqrt)) then
        rng.pos == old(rng.pos) && scattered.dir == Reflect(unit, rec.normal)
      else
        rng.pos == old(rng.pos) + 1 &&
        scattered.dir == DielectricDirection(unit, rec.normal, ri,
                                             Reflectance(c, ri) > rng.DoubleAt(old(rng.pos)), sqrt)
  {
    match mat {
      case BaseMaterial =>
        ok, attenuation, scattered := false, Black, RayAtTimeZero(Zero, Zero);
      case Lambertian(tex) =>
        var sample := rng.NextUnitVec3(sqrt);
        var direction := LambertianDirection(rec.normal, sample);
        scattered := RayAtTimeZero(rec.p, direction);
        attenuation := tex.albedo;
        ok := true;
      case Metal(albedo, fuzz) =>
        var sample := rng.NextUnitVec3(sqrt);
        var reflected := MetalDirection(rIn.dir, rec.normal, fuzz, sample, sqrt);
        scattered := RayAtTimeZero(rec.p, reflected);
        attenuation := albedo;
        ok := Dot(scattered.dir, rec.normal) > 0.0;
      case Dielectric(index) =>
        attenuation := White;
        var dir := ChooseDielectricDirection(Normalize(rIn.dir, sqrt), rec.normal, rec.FrontFace(),
                                             index, rng, sqrt);
        scattered := RayAtTimeZero(rec.p, dir);
        ok := true;
    }
  }
}
