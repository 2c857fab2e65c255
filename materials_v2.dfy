// The materials of the second renderer: scatter fills an attenuation and a
// scattered ray (out-parameters in the source, results here) and reports
// whether the ray goes on; emitted is the light's texture value.
module MaterialsV2 {
  import opened Vectors
  import opened Rays
  import opened Common
  import opened Textures
  import opened MaterialTypes
  import opened Records
  import opened Optics

  const Black: Color := Zero
  const White: Color := Vec3(1.0, 1.0, 1.0)

  /** The source divides by a dielectric's refraction index. */
  predicate Usable(mat: Material) {
    mat.Dielectric? ==> mat.refractionIndex > 0.0
  }

  /** emitted(u, v, p): a light's texture value; black for every other
      material. */
  function Emitted(mat: Material, u: real, v: real, p: Vec3): (c: Color)
    ensures !mat.DiffuseLight? ==> c == Black
    ensures mat.DiffuseLight? ==> c == GetValue(mat.emit, u, v, p)
  {
    match mat
    case DiffuseLight(emit) => GetValue(emit, u, v, p)
    case _ => Black
  }

  /** scatter(r_in, rec, attenuation, scattered). Lambertian, dielectric
      and isotropic surfaces always scatter, a metal only into the normal's
      side, the base material and lights never. Random draws are taken
      from rng in the order the source takes them. */
  method Scatter(mat: Material, rIn: Ray, rec: HitRecord, rng: Rng, sqrt: real -> real)
    returns (ok: bool, attenuation: Color, scattered: Ray)
    requires rng.Valid() && IsSqrt(sqrt) && Usable(mat)
    modifies rng
    ensures rng.Valid()
    ensures ok <==> (mat.Lambertian? || mat.Dielectric? || mat.Isotropic? ||
                     (mat.Metal? && Dot(scattered.dir, rec.normal) > 0.0))
    ensures mat.BaseMaterial? || mat.DiffuseLight? ==> rng.pos == old(rng.pos)
    ensures !(mat.BaseMaterial? || mat.DiffuseLight?) ==>
      scattered.orig == rec.p && scattered.time == rIn.time
    ensures mat.Lambertian? ==>
      rng.pos == old(rng.pos) + 3 &&
      attenuation == GetValue(mat.tex, rec.u, rec.v, rec.p) &&
      scattered.dir == LambertianDirection(rec.normal, rng.UnitAt(old(rng.pos), sqrt))
    ensures mat.Metal? ==>
      rng.pos == old(rng.pos) + 3 && attenuation == mat.albedo &&
      scattered.dir == MetalDirection(rIn.dir, rec.normal, mat.fuzz,
                                      rng.UnitAt(old(rng.pos), sqrt), sqrt)
    ensures mat.Dielectric? ==>
      attenuation == White &&
      var unit := Normalize(rIn.dir, sqrt);
      var c := CosTheta(unit, rec.normal);
      var ri := RefractionRatio(rec.FrontFace(), mat.refractionIndex);
      if CannotRefract(ri, SinTheta(c, sqrt)) then
        rng.pos == old(rng.pos) && scattered.dir == Reflect(unit, rec.normal)
      else
        rng.pos == old(rng.pos) + 1 &&
        scattered.dir == DielectricDirection(unit, rec.normal, ri,
                                             Reflectance(c, ri) > rng.DoubleAt(old(rng.pos)), sqrt)
    ensures mat.Isotropic? ==>
      rng.pos == old(rng.pos) + 3 &&
      attenuation == GetValue(mat.tex, rec.u, rec.v, rec.p) &&
      scattered.dir == rng.UnitAt(old(rng.pos), sqrt)
  {
    match mat {
      case BaseMaterial =>
        ok, attenuation, scattered := false, Black, Ray(Zero, Zero, 0.0);
      case DiffuseLight(_) =>
        ok, attenuation, scattered := false, Black, Ray(Zero, Zero, 0.0);
      case Lambertian(tex) =>
        var sample := rng.NextUnitVec3(sqrt);
        var direction := LambertianDirection(rec.normal, sample);
        scattered := Ray(rec.p, direction, rIn.time);
        attenuation := GetValue(tex, rec.u, rec.v, rec.p);
        ok := true;
      case Metal(albedo, fuzz) =>
        var sample := rng.NextUnitVec3(sqrt);
        var reflected := MetalDirection(rIn.dir, rec.normal, fuzz, sample, sqrt);
        scattered := Ray(rec.p, reflected, rIn.time);
        attenuation := albedo;
        ok := Dot(scattered.dir, rec.normal) > 0.0;
      case Dielectric(index) =>
        attenuation := White;
        var dir := ChooseDielectricDirection(Normalize(rIn.dir, sqrt), rec.normal, rec.FrontFace(),
                                             index, rng, sqrt);
        scattered := Ray(rec.p, dir, rIn.time);
        ok := true;
      case Isotropic(tex) =>
        var direction := rng.NextUnitVec3(sqrt);
        scattered := Ray(rec.p, direction, rIn.time);
        attenuation := GetValue(tex, rec.u, rec.v, rec.p);
        ok := true;
    }
  }
}
