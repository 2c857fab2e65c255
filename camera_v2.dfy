// ray_color of the second renderer: emitted light plus attenuated light
// from the scattered ray, with a fixed background for rays that escape.
module CameraV2 {
  import opened Reals
  import opened Vectors
  import opened Rays
  import opened Cameras

  const Black: Color := Zero

  /** What one step of ray_color finds: objects.hit over (0.001, +inf)
      misses, or hits a material that only emits, or one that also
      scatters with an attenuation and a scattered ray. */
  datatype Interaction =
    | Miss
    | Absorbed(emitted: Color)
    | Bounce(emitted: Color, attenuation: Color, scattered: Ray)

  /** ray_color(r, depth, objects). The hit test and the material calls,
      which consume random draws, are the parameter interact: its value
      for a ray at a depth is what they return there. */
  function RayColor(r: Ray, depth: int, interact: (Ray, int) -> Interaction,
                    background: Color): (c: Color)
    ensures depth <= 0 ==> c == Black
    decreases depth
  {
    if depth <= 0 then Black
    else
      match interact(r, depth)
      case Miss => background
      case Absorbed(emitted) => emitted
      case Bounce(emitted, attenuation, scattered) =>
        Add(Mul(attenuation, RayColor(scattered, depth - 1, interact, background)), emitted)
  }

  /** Emission channels in [0, e], attenuation channels in [0, 1]. */
  predicate Bounded(i: Interaction, e: real) {
    match i
    case Miss => true
    case Absorbed(emitted) => InBox(emitted, 0.0, e)
    case Bounce(emitted, attenuation, _) => InBox(emitted, 0.0, e) && InBox(attenuation, 0.0, 1.0)
  }

  /** One channel of attenuation * incoming + emitted at depth k. */
  lemma ChannelStep(a: real, c: real, em: real, k: int, e: real, b: real)
    requires k >= 1 && e >= 0.0 && b >= 0.0
    requires 0.0 <= a <= 1.0 && 0.0 <= c <= Product((k - 1) as real, e + b) && 0.0 <= em <= e
    ensures 0.0 <= a * c + em <= Product(k as real, e + b)
  {
    ProductMonotone(c, a, 1.0);
    ProductMonotone(c, 0.0, a);
    assert Product(c, a) == a * c;
    assert Product(k as real, e + b) == Product((k - 1) as real, e + b) + (e + b);
  }

  /** depth (e + b) covers one emission and one background. */
  lemma DepthCovers(depth: int, e: real, b: real)
    requires depth >= 1 && e >= 0.0 && b >= 0.0
    ensures e <= Product(depth as real, e + b) && b <= Product(depth as real, e + b)
  {
    ProductMonotone(e + b, 1.0, depth as real);
    assert Product(depth as real, e + b) == Product(e + b, depth as real);
  }

  /** One bounce: attenuation * incoming + emitted stays within depth (e + b)
      when the incoming light is within (depth - 1)(e + b). */
  lemma BounceBounded(attenuation: Color, incoming: Color, emitted: Color, depth: int, e: real, b: real)
    requires depth >= 1 && e >= 0.0 && b >= 0.0
    requires InBox(attenuation, 0.0, 1.0) && InBox(emitted, 0.0, e)
    requires InBox(incoming, 0.0, Product((depth - 1) as real, e + b))
    ensures InBox(Add(Mul(attenuation, incoming), emitted), 0.0, Product(depth as real, e + b))
  {
    ChannelStep(attenuation.x, incoming.x, emitted.x, depth, e, b);
    ChannelStep(attenuation.y, incoming.y, emitted.y, depth, e, b);
    ChannelStep(attenuation.z, incoming.z, emitted.z, depth, e, b);
  }

  /** With emissions at most e, attenuations at most 1 and a background at
      most b per channel, a ray followed for depth bounces gathers at most
      depth (e + b) per channel, and never a negative amount. */
  lemma {:induction false} RayColorBounded(r: Ray, depth: int, interact: (Ray, int) -> Interaction,
                                           background: Color, e: real, b: real)
    requires depth >= 0 && e >= 0.0 && b >= 0.0 && InBox(background, 0.0, b)
    requires forall r': Ray, d: int :: Bounded(interact(r', d), e)
    ensures InBox(RayColor(r, depth, interact, background), 0.0, Product(depth as real, e + b))
    decreases depth
  {
    if depth > 0 {
      DepthCovers(depth, e, b);
      assert Bounded(interact(r, depth), e);
      match interact(r, depth)
      case Miss =>
      case Absorbed(emitted) =>
      case Bounce(emitted, attenuation, scattered) =>
        RayColorBounded(scattered, depth - 1, interact, background, e, b);
        BounceBounded(attenuation, RayColor(scattered, depth - 1, interact, background),
                      emitted, depth, e, b);
    }
  }

  /** A scene with no light and a black background renders black. */
  lemma DarkSceneIsBlack(r: Ray, depth: int, interact: (Ray, int) -> Interaction)
    requires depth >= 0
    requires forall r': Ray, d: int :: Bounded(interact(r', d), 0.0)
    ensures RayColor(r, depth, interact, Black) == Black
  {
    RayColorBounded(r, depth, interact, Black, 0.0, 0.0);
    assert Product(depth as real, 0.0 + 0.0) == 0.0;
  }

  /** Every pixel render writes is bounded by max_depth (e + b) per channel
      and is never negative. */
  lemma PixelBounded(cam: Camera, i: int, j: int, shade: Ray -> Color,
                     interact: (Ray, int) -> Interaction, e: real, b: real,
                     pixel: Color, samples: seq<Color>, rays: seq<Ray>)
    requires cam.samplesPerPixel > 0 && cam.maxDepth >= 0 && e >= 0.0 && b >= 0.0
    requires InBox(cam.background, 0.0, b)
    requires forall r: Ray :: shade(r) == RayColor(r, cam.maxDepth, interact, cam.background)
    requires forall r': Ray, d: int :: Bounded(interact(r', d), e)
    requires PixelWritten(cam, i, j, shade, true, pixel, samples, rays)
    ensures InBox(pixel, 0.0, Product(cam.maxDepth as real, e + b))
  {
    var hi := Product(cam.maxDepth as real, e + b);
    ProductMonotone(cam.maxDepth as real, 0.0, e + b);
    forall s | 0 <= s < |samples|
      ensures InBox(samples[s], 0.0, hi)
    {
      RayColorBounded(rays[s], cam.maxDepth, interact, cam.background, e, b);
    }
    WrittenPixelBounded(cam, i, j, shade, true, pixel, samples, rays, hi);
  }
}
