// The camera shared by the first two renderers: the jittered primary ray
// through a pixel (get_ray) and the image loop that averages the estimates
// of samples_per_pixel rays per pixel (render). The two versions differ
// only in ray_color and in whether a ray carries a random time, so ray
// colouring is a parameter here and lives in CameraV1 / CameraV2.
module Cameras {
  import opened Reals
  import opened Wrappers
  import opened Vectors
  import opened Rays
  import opened Common

  /** The camera after initialize(): image size, sampling counts, the
      viewport's first pixel centre and pixel steps, and the defocus disk.
      initialize's trigonometry is not part of this model; its results are
      the fields. */
  datatype Camera = Camera(
    imageWidth: nat, imageHeight: nat, samplesPerPixel: nat, maxDepth: int,
    center: Vec3, pixel00: Vec3, pixelDeltaU: Vec3, pixelDeltaV: Vec3,
    defocusAngle: real, defocusDiskU: Vec3, defocusDiskV: Vec3, background: Color)

  /** pixel_sample_scale = 1 / samples_per_pixel */
  function SampleScale(cam: Camera): (s: real)
    requires cam.samplesPerPixel > 0
    ensures s > 0.0 && Product(s, cam.samplesPerPixel as real) == 1.0
  {
    1.0 / cam.samplesPerPixel as real
  }

  /** pixel00 + (i + ox) du + (j + oy) dv */
  function PixelSample(cam: Camera, i: int, j: int, ox: real, oy: real): Vec3 {
    Add(Add(cam.pixel00, Scale(i as real + ox, cam.pixelDeltaU)),
        Scale(j as real + oy, cam.pixelDeltaV))
  }

  /** center + x du + y dv for a point (x, y) of the unit disk. */
  function DiskPoint(cam: Camera, p: Vec3): Vec3 {
    Add(Add(cam.center, Scale(p.x, cam.defocusDiskU)), Scale(p.y, cam.defocusDiskV))
  }

  /** A primary ray for pixel (i, j): it starts at the centre (or, with
      defocus, at a point of the disk) and aims at the pixel centre moved
      by an offset in [-0.5, 0.5)^2; a timed ray's time is in [0, 1), an
      untimed one's is 0. */
  ghost predicate PixelRay(cam: Camera, i: int, j: int, timed: bool, r: Ray) {
    (exists ox: real, oy: real ::
       -0.5 <= ox < 0.5 && -0.5 <= oy < 0.5 && r.dir == Sub(PixelSample(cam, i, j, ox, oy), r.orig)) &&
    (cam.defocusAngle <= 0.0 ==> r.orig == cam.center) &&
    (cam.defocusAngle > 0.0 ==>
       exists p: Vec3 :: p.z == 0.0 && Dot(p, p) < 1.0 && r.orig == DiskPoint(cam, p)) &&
    (timed ==> 0.0 <= r.time < 1.0) && (!timed ==> r.time == 0.0)
  }

  /** sample_square(): two draws, each shifted by -0.5. */
  method SampleSquare(rng: Rng) returns (ox: real, oy: real)
    requires rng.Valid()
    modifies rng
    ensures rng.Valid() && rng.pos == old(rng.pos) + 2
    ensures ox == rng.DoubleAt(old(rng.pos)) - 0.5 && oy == rng.DoubleAt(old(rng.pos) + 1) - 0.5
    ensures -0.5 <= ox < 0.5 && -0.5 <= oy < 0.5
  {
    var x := rng.NextDouble();
    var y := rng.NextDouble();
    ox, oy := x - 0.5, y - 0.5;
  }

  /** get_ray(i, j). The defocus disk sample retries without bound in the
      source; here at most maxTries candidates are drawn, and None means
      the source would still be drawing. Without defocus the ray always
      exists and starts at the centre. */
  method GetRay(cam: Camera, i: int, j: int, timed: bool, rng: Rng, maxTries: nat)
    returns (r: Option<Ray>)
    requires rng.Valid()
    modifies rng
    ensures rng.Valid()
    ensures cam.defocusAngle <= 0.0 ==> r.Some? && r.value.orig == cam.center
    ensures r.Some? ==> PixelRay(cam, i, j, timed, r.value)
    ensures r.Some? ==> r.value.dir == Sub(PixelSample(cam, i, j, rng.DoubleAt(old(rng.pos)) - 0.5,
                                                       rng.DoubleAt(old(rng.pos) + 1) - 0.5),
                                           r.value.orig)
    ensures r.None? ==> rng.pos == old(rng.pos) + 2 + 2 * maxTries
    ensures cam.defocusAngle <= 0.0 ==> rng.pos == old(rng.pos) + 2 + (if timed then 1 else 0)
    ensures cam.defocusAngle > 0.0 && r.Some? ==>
      exists k: nat :: k < maxTries && rng.pos == old(rng.pos) + 2 * k + 4 + (if timed then 1 else 0) &&
        r.value.orig == DiskPoint(cam, rng.CircleTry(old(rng.pos) + 2, k)) &&
        rng.CircleRejects(old(rng.pos) + 2, k)
    ensures timed && r.Some? ==> rng.pos >= 1 && r.value.time == rng.DoubleAt(rng.pos - 1)
  {
    var ox, oy := SampleSquare(rng);
    var pixelSample := PixelSample(cam, i, j, ox, oy);
    var origin := cam.center;
    if cam.defocusAngle > 0.0 {
      var p := RandomInUnitCircle(rng, maxTries);
      if p.None? {
        return None;
      }
      origin := DiskPoint(cam, p.value);
    }
    var direction := Sub(pixelSample, origin);
    var time := 0.0;
    if timed {
      time := rng.NextDouble();
    }
    r := Some(Ray(origin, direction, time));
  }

  /** The sum of a sequence of colours, accumulated left to right. */
  function Sum(s: seq<Color>): Color {
    if |s| == 0 then Zero else Add(Sum(s[..|s| - 1]), s[|s| - 1])
  }

  /** Every channel of c is in [lo, hi]. */
  predicate InBox(c: Color, lo: real, hi: real) {
    lo <= c.x <= hi && lo <= c.y <= hi && lo <= c.z <= hi
  }

  /** A sum of n colours with channels in [0, hi] has channels in [0, n hi]. */
  lemma {:induction false} SumBounded(s: seq<Color>, hi: real)
    requires hi >= 0.0
    requires forall k :: 0 <= k < |s| ==> InBox(s[k], 0.0, hi)
    ensures InBox(Sum(s), 0.0, Product(|s| as real, hi))
  {
    if |s| > 0 {
      SumBounded(s[..|s| - 1], hi);
      assert Product(|s| as real, hi) == Product((|s| - 1) as real, hi) + hi;
    }
  }

  /** One channel of the mean: a total in [0, n hi] divided by n > 0 is in
      [0, hi]. */
  lemma MeanChannel(total: real, n: real, hi: real)
    requires n > 0.0 && 0.0 <= total <= Product(n, hi)
    ensures 0.0 <= Product(1.0 / n, total) <= hi
  {
    assert Product(n, hi) == Product(hi, n);
    DividePositive(total, n, hi);
    assert Product(1.0 / n, total) == Product(total, 1.0 / n);
    ProductMonotone(1.0 / n, 0.0, total);
  }

  /** A total with channels in [0, n hi] scaled by 1 / n has its channels
      in [0, hi]. */
  lemma MeanOfTotal(total: Color, n: real, hi: real)
    requires n > 0.0 && InBox(total, 0.0, Product(n, hi))
    ensures InBox(Scale(1.0 / n, total), 0.0, hi)
  {
    MeanChannel(total.x, n, hi);
    MeanChannel(total.y, n, hi);
    MeanChannel(total.z, n, hi);
  }

  /** The mean of one or more colours with channels in [0, hi] has its
      channels in [0, hi]: averaging the samples keeps their range. */
  lemma {:induction false} MeanBounded(s: seq<Color>, hi: real)
    requires |s| > 0 && hi >= 0.0
    requires forall k :: 0 <= k < |s| ==> InBox(s[k], 0.0, hi)
    ensures InBox(Scale(1.0 / |s| as real, Sum(s)), 0.0, hi)
  {
    SumBounded(s, hi);
    MeanOfTotal(Sum(s), |s| as real, hi);
  }

  /** Each sample is the shade of its ray, and each ray is a primary ray
      through pixel (i, j). */
  ghost predicate Traced(cam: Camera, i: int, j: int, shade: Ray -> Color, timed: bool,
                         samples: seq<Color>, rays: seq<Ray>)
  {
    |samples| == |rays| &&
    forall s :: 0 <= s < |rays| ==> samples[s] == shade(rays[s]) && PixelRay(cam, i, j, timed, rays[s])
  }

  /** Appending one more traced sample keeps the samples traced. */
  lemma TracedAppend(cam: Camera, i: int, j: int, shade: Ray -> Color, timed: bool,
                     samples: seq<Color>, rays: seq<Ray>, r: Ray)
    requires Traced(cam, i, j, shade, timed, samples, rays) && PixelRay(cam, i, j, timed, r)
    ensures Traced(cam, i, j, shade, timed, samples + [shade(r)], rays + [r])
  {
    var samples', rays' := samples + [shade(r)], rays + [r];
    forall s | 0 <= s < |rays'|
      ensures samples'[s] == shade(rays'[s]) && PixelRay(cam, i, j, timed, rays'[s])
    {
      if s < |rays| {
        assert samples'[s] == samples[s] && rays'[s] == rays[s];
      }
    }
  }

  /** The sum grows by the appended colour. */
  lemma SumAppend(s: seq<Color>, c: Color)
    ensures Sum(s + [c]) == Add(Sum(s), c)
  {
    assert (s + [c])[..|s|] == s;
  }

  /** The estimate of one pixel: samples_per_pixel primary rays, each
      coloured by shade (ray_color at max_depth), summed in final_color and
      scaled by pixel_sample_scale. */
  method RenderPixel(cam: Camera, i: int, j: int, shade: Ray -> Color, timed: bool,
                     rng: Rng, maxTries: nat)
    returns (ok: bool, pixel: Color, ghost samples: seq<Color>, ghost rays: seq<Ray>)
    requires rng.Valid() && cam.samplesPerPixel > 0
    modifies rng
    ensures rng.Valid()
    ensures cam.defocusAngle <= 0.0 ==> ok
    ensures ok ==> |samples| == cam.samplesPerPixel
    ensures ok ==> pixel == Scale(SampleScale(cam), Sum(samples))
    ensures ok ==> Traced(cam, i, j, shade, timed, samples, rays)
  {
    var finalColor := Zero;
    samples, rays := [], [];
    var sample := 0;
    while sample < cam.samplesPerPixel
      invariant 0 <= sample <= cam.samplesPerPixel
      invariant rng.Valid()
      invariant |samples| == sample
      invariant finalColor == Sum(samples)
      invariant Traced(cam, i, j, shade, timed, samples, rays)
    {
      var r := GetRay(cam, i, j, timed, rng, maxTries);
      if r.None? {
        return false, Zero, samples, rays;
      }
      var estimate := shade(r.value);
      finalColor := Add(finalColor, estimate);
      SumAppend(samples, estimate);
      TracedAppend(cam, i, j, shade, timed, samples, rays, r.value);
      samples, rays := samples + [estimate], rays + [r.value];
      sample := sample + 1;
    }
    pixel := Scale(SampleScale(cam), finalColor);
    ok := true;
  }

  /** What render writes for pixel (i, j) of the image: the mean of its
      samples, each the shade of a primary ray through that pixel. */
  ghost predicate PixelWritten(cam: Camera, i: int, j: int, shade: Ray -> Color, timed: bool,
                               pixel: Color, samples: seq<Color>, rays: seq<Ray>)
    requires cam.samplesPerPixel > 0
  {
    |samples| == cam.samplesPerPixel &&
    pixel == Scale(SampleScale(cam), Sum(samples)) &&
    Traced(cam, i, j, shade, timed, samples, rays)
  }

  /** One image row, left to right. */
  method RenderRow(cam: Camera, j: int, shade: Ray -> Color, timed: bool, rng: Rng, maxTries: nat)
    returns (ok: bool, row: seq<Color>, ghost samples: seq<seq<Color>>, ghost rays: seq<seq<Ray>>)
    requires rng.Valid() && cam.samplesPerPixel > 0
    modifies rng
    ensures rng.Valid()
    ensures cam.defocusAngle <= 0.0 ==> ok
    ensures ok ==> |row| == |samples| == |rays| == cam.imageWidth
    ensures ok ==> forall i :: 0 <= i < |row| ==>
      PixelWritten(cam, i, j, shade, timed, row[i], samples[i], rays[i])
  {
    row, samples, rays := [], [], [];
    var i := 0;
    while i < cam.imageWidth
      invariant 0 <= i <= cam.imageWidth
      invariant rng.Valid()
      invariant |row| == |samples| == |rays| == i
      invariant forall i' :: 0 <= i' < i ==>
        PixelWritten(cam, i', j, shade, timed, row[i'], samples[i'], rays[i'])
    {
      var pixelOk, pixel, pixelSamples, pixelRays := RenderPixel(cam, i, j, shade, timed, rng, maxTries);
      if !pixelOk {
        return false, row, samples, rays;
      }
      row, samples, rays := row + [pixel], samples + [pixelSamples], rays + [pixelRays];
      i := i + 1;
    }
    ok := true;
  }

  /** render(objects): rows top to bottom, each left to right, so the
      output stream is the concatenation of the rows. Without defocus the
      image is always complete. */
  method Render(cam: Camera, shade: Ray -> Color, timed: bool, rng: Rng, maxTries: nat)
    returns (ok: bool, image: seq<seq<Color>>, ghost samples: seq<seq<seq<Color>>>,
             ghost rays: seq<seq<seq<Ray>>>)
    requires rng.Valid() && cam.samplesPerPixel > 0
    modifies rng
    ensures rng.Valid()
    ensures cam.defocusAngle <= 0.0 ==> ok
    ensures ok ==> |image| == |samples| == |rays| == cam.imageHeight
    ensures ok ==> forall j :: 0 <= j < |image| ==>
      |image[j]| == |samples[j]| == |rays[j]| == cam.imageWidth &&
      forall i :: 0 <= i < |image[j]| ==>
        PixelWritten(cam, i, j, shade, timed, image[j][i], samples[j][i], rays[j][i])
  {
    image, samples, rays := [], [], [];
    var j := 0;
    while j < cam.imageHeight
      invariant 0 <= j <= cam.imageHeight
      invariant rng.Valid()
      invariant |image| == |samples| == |rays| == j
      invariant forall j' :: 0 <= j' < j ==>
        |image[j']| == |samples[j']| == |rays[j']| == cam.imageWidth &&
        forall i :: 0 <= i < |image[j']| ==>
          PixelWritten(cam, i, j', shade, timed, image[j'][i], samples[j'][i], rays[j'][i])
    {
      var rowOk, row, rowSamples, rowRays := RenderRow(cam, j, shade, timed, rng, maxTries);
      if !rowOk {
        return false, image, samples, rays;
      }
      image, samples, rays := image + [row], samples + [rowSamples], rays + [rowRays];
      j := j + 1;
    }
    ok := true;
  }

  /** A written pixel whose samples all have channels in [0, hi] has its
      channels in [0, hi]. */
  lemma {:induction false} WrittenPixelBounded(cam: Camera, i: int, j: int, shade: Ray -> Color,
                                               timed: bool, pixel: Color, samples: seq<Color>,
                                               rays: seq<Ray>, hi: real)
    requires cam.samplesPerPixel > 0 && hi >= 0.0
    requires PixelWritten(cam, i, j, shade, timed, pixel, samples, rays)
    requires forall s :: 0 <= s < |samples| ==> InBox(samples[s], 0.0, hi)
    ensures InBox(pixel, 0.0, hi)
  {
    MeanBounded(samples, hi);
  }
}
