// The material kinds a hit record can carry. Their scattering rules are
// per version of the renderer and live in the Materials modules.
module MaterialTypes {
  import opened Vectors
  import opened Textures

  datatype Material =
    | BaseMaterial
    | Lambertian(tex: Texture)
    | Metal(albedo: Color, fuzz: real)
    | Dielectric(refractionIndex: real)
    | DiffuseLight(emit: Texture)
    | Isotropic(tex: Texture)
}
