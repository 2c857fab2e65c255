// ray_color of the first renderer: light comes only from a sky gradient,
// and each bounce multiplies it by the surface's attenuation.
module CameraV1 {
  import opened Reals
  import opened Vectors
  import opened Rays
  import opened Cameras
  import Optics

  const Black: Color := Zero
  const White: Color := Vec3(1.0, 1.0, 1.0)
  const SkyBlue: Color := Vec3(0.5, 0.7, 1.0)

  /** What one step of ray_color finds: objects.hit over the positive
      interval misses, or hits a material whose scatter fails, or one that
      scatters with an attenuation and a scattered ray. */
  datatype Outcome =
    | Missed
    | Absorbed
    | Scattered(attenuation: Color, scattered: Ray)

  /** The background: white blended towards sky blue as the normalised
      direction's y goes from -1 to 1. */
  function Sky(r: Ray, sqrt: real -> real): Color {
    var a := 0.5 * (Normalize(r.dir, sqrt).y + 1.0);
    Add(Scale(1.0 - a, White), Scale(a, SkyBlue))
  }

  /** A normalised direction has its y in [-1, 1]. */
  lemma NormalizedHeight(dir: Vec3, sqrt: real -> real)
    requires IsSqrt(sqrt)
    ensures -1.0 <= Normalize(dir, sqrt).y <= 1.0
  {
    var n := Normalize(dir, sqrt);
    if dir == Zero {
      assert n == Zero;
    } else {
      NormalizeUnit(dir, sqrt);
      SquareSign(n.x);
      SquareSign(n.y);
      SquareSign(n.z);
      assert Dot(n, n) == Product(n.x, n.x) + Product(n.y, n.y) + Product(n.z, n.z);
      SquareBound(n.y, 1.0);
    }
  }

  /** The sky lies between white and sky blue channel by channel: red in
      [0.5, 1], green in [0.7, 1], blue exactly 1. Straight up it is sky
      blue and straight down white. */
  lemma SkyBetween(r: Ray, sqrt: real -> real)
    requires IsSqrt(sqrt)
    ensures var c := Sky(r, sqrt);
      0.5 <= c.x <= 1.0 && 0.7 <= c.y <= 1.0 && c.z == 1.0
    ensures Normalize(r.dir, sqrt).y == 1.0 ==> Sky(r, sqrt) == SkyBlue
    ensures Normalize(r.dir, sqrt).y == -1.0 ==> Sky(r, sqrt) == White
  {
    NormalizedHeight(r.dir, sqrt);
  }

  /** ray_color(r, depth, objects). The hit test and scatter, which consume
      random draws, are the parameter outcome: its value for a ray at a
      depth is what they return there. */
  function RayColorV1(r: Ray, depth: int, outcome: (Ray, int) -> Outcome,
                      sqrt: real -> real): (c: Color)
    ensures depth <= 0 ==> c == Black
    decreases depth
  {
    if depth <= 0 then Black
    else
      match outcome(r, depth)
      case Missed => Sky(r, sqrt)
      case Absorbed => Black
      case Scattered(attenuation, scattered) =>
        Mul(attenuation, RayColorV1(scattered, depth - 1, outcome, sqrt))
  }

  /** Attenuation channels in [0, 1]. */
  predicate Attenuates(o: Outcome) {
    o.Scattered? ==> InBox(o.attenuation, 0.0, 1.0)
  }

  /** A product of two colours with channels in [0, 1]. */
  lemma MulUnit(a: Color, c: Color)
    requires InBox(a, 0.0, 1.0) && InBox(c, 0.0, 1.0)
    ensures InBox(Mul(a, c), 0.0, 1.0)
  {
    Optics.UnitProduct(a.x, c.x);
    Optics.UnitProduct(a.y, c.y);
    Optics.UnitProduct(a.z, c.z);
  }

  /** With attenuations in [0, 1] every colour ray_color returns has its
      channels in [0, 1]: the sky is the only light and bounces only dim it. */
  lemma {:induction false} RayColorV1InUnitRange(r: Ray, depth: int, outcome: (Ray, int) -> Outcome,
                                                 sqrt: real -> real)
    requires IsSqrt(sqrt)
    requires forall r': Ray, d: int :: Attenuates(outcome(r', d))
    ensures InBox(RayColorV1(r, depth, outcome, sqrt), 0.0, 1.0)
    decreases depth
  {
    if depth > 0 {
      assert Attenuates(outcome(r, depth));
      match outcome(r, depth)
      case Missed => SkyBetween(r, sqrt);
      case Absorbed =>
      case Scattered(attenuation, scattered) =>
        RayColorV1InUnitRange(scattered, depth - 1, outcome, sqrt);
        MulUnit(attenuation, RayColorV1(scattered, depth - 1, outcome, sqrt));
    }
  }

  /** Every pixel render writes has its channels in [0, 1], so write_color's
      clamp never cuts it off. */
  lemma PixelInUnitRange(cam: Camera, i: int, j: int, shade: Ray -> Color, outcome: (Ray, int) -> Outcome,
                         sqrt: real -> real, pixel: Color, samples: seq<Color>, rays: seq<Ray>)
    requires cam.samplesPerPixel > 0 && IsSqrt(sqrt)
    requires forall r: Ray :: shade(r) == RayColorV1(r, cam.maxDepth, outcome, sqrt)
    requires forall r': Ray, d: int :: Attenuates(outcome(r', d))
    requires PixelWritten(cam, i, j, shade, false, pixel, samples, rays)
    ensures InBox(pixel, 0.0, 1.0)
  {
    forall s | 0 <= s < |samples|
      ensures InBox(samples[s], 0.0, 1.0)
    {
      RayColorV1InUnitRange(rays[s], cam.maxDepth, outcome, sqrt);
    }
    WrittenPixelBounded(cam, i, j, shade, false, pixel, samples, rays, 1.0);
  }
}
