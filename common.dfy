// The shared numeric helpers of common.h: constants, the random-number
// helpers (with the draw of std::rand passed in), and the small vector
// rules used by the materials and the camera.
module Common {
  import opened Vectors
  import opened Wrappers
  import opened Reals

  const PI: real := 3.141592653589

  /** glibc's RAND_MAX: std::rand() returns a value in [0, RAND_MAX]. */
  const RAND_MAX: int := 2147483647

  predicate IsDraw(d: int) { 0 <= d <= RAND_MAX }

  function DegreesToRadians(degrees: real): real {
    degrees * PI / 180.0
  }

  /** The conversion is linear and maps a half turn to PI. */
  lemma DegreesToRadiansLinear(a: real, b: real)
    ensures DegreesToRadians(180.0) == PI
    ensures DegreesToRadians(a + b) == DegreesToRadians(a) + DegreesToRadians(b)
  {
  }

  /** random_double(): rand() / (RAND_MAX + 1), a value in [0, 1). */
  function RandomDouble(draw: int): (r: real)
    requires IsDraw(draw)
    ensures 0.0 <= r < 1.0
  {
    draw as real / (RAND_MAX as real + 1.0)
  }

  /** random_double(min, max) = min + (max - min) * random_double(). */
  function RandomDoubleIn(min: real, max: real, draw: int): (r: real)
    requires IsDraw(draw)
    ensures min < max ==> min <= r < max
    ensures min == max ==> r == min
  {
    Lerp(min, max, RandomDouble(draw))
  }

  /** min + (max - min) * u for a fraction u in [0, 1). */
  function Lerp(min: real, max: real, u: real): (r: real)
    requires 0.0 <= u < 1.0
    ensures min < max ==> min <= r < max
    ensures min == max ==> r == min
  {
    if min < max then ProductFraction(max - min, u); min + Product(max - min, u)
    else min + Product(max - min, u)
  }

  /** int(x) in C++: truncation toward zero. */
  function Truncate(x: real): (r: int)
    ensures 0.0 <= x ==> r as real <= x < r as real + 1.0
    ensures x < 0.0 ==> r as real - 1.0 < x <= r as real
  {
    if x >= 0.0 then x.Floor else -((-x).Floor)
  }

  /** random_int(min, max) as written: int(random_double(min, max + 1)),
      which truncates toward zero. */
  function RandomIntAsWritten(min: int, max: int, draw: int): int
    requires IsDraw(draw)
  {
    Truncate(RandomDoubleIn(min as real, max as real + 1.0, draw))
  }

  /** random_int with the floor the documented range [min, max] needs. */
  function RandomInt(min: int, max: int, draw: int): int
    requires IsDraw(draw)
  {
    RandomDoubleIn(min as real, max as real + 1.0, draw).Floor
  }

  /** As written, the result is in [min, max] when min is not negative. */
  lemma RandomIntAsWrittenInRange(min: int, max: int, draw: int)
    requires IsDraw(draw) && 0 <= min <= max
    ensures min <= RandomIntAsWritten(min, max, draw) <= max
  {
    var x := RandomDoubleIn(min as real, max as real + 1.0, draw);
    assert min as real <= x < max as real + 1.0;
  }

  /** As written, random_int(-5, -2) returns -1 for the draw 7/8 * 2^31
      (random_double() = 0.875, random_double(-5, -1) = -1.5). */
  lemma RandomIntAsWrittenEscapesRange()
    ensures IsDraw(1879048192)
    ensures RandomIntAsWritten(-5, -2, 1879048192) == -1
  {
    assert RandomDouble(1879048192) == 0.875;
    assert RandomDoubleIn(-5.0, -1.0, 1879048192) == -1.5;
  }

  /** The floor-based random_int stays in [min, max] for every sign. */
  lemma RandomIntInRange(min: int, max: int, draw: int)
    requires IsDraw(draw) && min <= max
    ensures min <= RandomInt(min, max, draw) <= max
  {
    var x := RandomDoubleIn(min as real, max as real + 1.0, draw);
    assert min as real <= x < max as real + 1.0;
  }

  /** The two agree whenever min is not negative. */
  lemma RandomIntAgrees(min: int, max: int, draw: int)
    requires IsDraw(draw) && 0 <= min <= max
    ensures RandomInt(min, max, draw) == RandomIntAsWritten(min, max, draw)
  {
    var x := RandomDoubleIn(min as real, max as real + 1.0, draw);
    assert 0.0 <= x;
  }

  /** random_vec3(-1, 1) normalised; the draws are passed in. */
  function RandomUnitVec3(d1: int, d2: int, d3: int, sqrt: real -> real): Vec3
    requires IsDraw(d1) && IsDraw(d2) && IsDraw(d3)
  {
    Normalize(Vec3(RandomDoubleIn(-1.0, 1.0, d1), RandomDoubleIn(-1.0, 1.0, d2),
                   RandomDoubleIn(-1.0, 1.0, d3)), sqrt)
  }

  /** A sampled unit vector is a unit vector, except for the zero sample
      (the source's NaN case). */
  lemma RandomUnitVec3Unit(d1: int, d2: int, d3: int, sqrt: real -> real)
    requires IsDraw(d1) && IsDraw(d2) && IsDraw(d3) && IsSqrt(sqrt)
    ensures var r := RandomUnitVec3(d1, d2, d3, sqrt); r == Zero || Dot(r, r) == 1.0
  {
    var p := Vec3(RandomDoubleIn(-1.0, 1.0, d1), RandomDoubleIn(-1.0, 1.0, d2),
                  RandomDoubleIn(-1.0, 1.0, d3));
    assert RandomUnitVec3(d1, d2, d3, sqrt) == Normalize(p, sqrt);
    if p != Zero {
      NormalizeUnit(p, sqrt);
    } else {
      assert Normalize(p, sqrt) == Zero;
    }
  }

  /** random_hemisphere with the sampled unit vector passed in: the sample
      or its opposite, whichever lies on the normal's side. */
  function RandomHemisphere(normal: Vec3, sample: Vec3): (r: Vec3)
    ensures r == sample || r == Neg(sample)
    ensures Dot(normal, r) >= 0.0
    ensures Dot(normal, sample) > 0.0 <==> r == sample && Dot(normal, r) > 0.0
  {
    if Dot(normal, sample) > 0.0 then sample else Neg(sample)
  }

  function Abs(r: real): real { if r < 0.0 then -r else r }

  predicate NearZero(v: Vec3) {
    Abs(v.x) < 1e-8 && Abs(v.y) < 1e-8 && Abs(v.z) < 1e-8
  }

  /** near_zero is symmetric, holds at zero, and fails as soon as one
      component reaches 1e-8 in magnitude. */
  lemma NearZeroProperties(v: Vec3)
    ensures NearZero(Zero)
    ensures NearZero(Neg(v)) <==> NearZero(v)
    ensures NearZero(v) ==> -1e-8 < v.x < 1e-8 && -1e-8 < v.y < 1e-8 && -1e-8 < v.z < 1e-8
    ensures (Abs(v.x) >= 1e-8 || Abs(v.y) >= 1e-8 || Abs(v.z) >= 1e-8) ==> !NearZero(v)
  {
  }

  /** The mirror direction v - 2 (v . n) n. */
  function Reflect(v: Vec3, n: Vec3): Vec3 {
    Sub(v, Scale(2.0 * Dot(v, n), n))
  }

  /** For a unit normal, reflecting flips the normal component. */
  lemma ReflectFlipsNormalComponent(v: Vec3, n: Vec3)
    requires Dot(n, n) == 1.0
    ensures Dot(Reflect(v, n), n) == -Dot(v, n)
  {
    var k := 2.0 * Dot(v, n);
    calc {
      Dot(Reflect(v, n), n);
      Dot(v, n) - k * Dot(n, n);
      Dot(v, n) - k;
    }
  }

  /** For a unit normal, reflecting twice gives the vector back. */
  lemma ReflectInvolution(v: Vec3, n: Vec3)
    requires Dot(n, n) == 1.0
    ensures Reflect(Reflect(v, n), n) == v
  {
    ReflectFlipsNormalComponent(v, n);
    var r := Reflect(v, n);
    assert Reflect(r, n) == Sub(r, Scale(-2.0 * Dot(v, n), n));
  }

  /** refract: the perpendicular part eta (uv + cos n), with
      cos = min(-uv . n, 1), plus the parallel part
      -sqrt(|1 - perp . perp|) n. */
  function RefractPerp(uv: Vec3, n: Vec3, eta: real): Vec3 {
    var cosTheta := if Dot(Neg(uv), n) < 1.0 then Dot(Neg(uv), n) else 1.0;
    Scale(eta, Add(uv, Scale(cosTheta, n)))
  }

  function Refract(uv: Vec3, n: Vec3, eta: real, sqrt: real -> real): Vec3 {
    var perp := RefractPerp(uv, n, eta);
    var parallel := Scale(-sqrt(Abs(1.0 - Dot(perp, perp))), n);
    Add(perp, parallel)
  }

  /** The refracted vector is the perpendicular part plus a non-positive
      multiple of the normal; for a unit normal and -uv . n <= 1 the
      perpendicular part is orthogonal to the normal. */
  lemma RefractDecomposition(uv: Vec3, n: Vec3, eta: real, sqrt: real -> real)
    requires IsSqrt(sqrt)
    ensures exists k: real :: (k <= 0.0 &&
      Refract(uv, n, eta, sqrt) == Add(RefractPerp(uv, n, eta), Scale(k, n)))
    ensures Dot(n, n) == 1.0 && Dot(Neg(uv), n) <= 1.0 ==> Dot(RefractPerp(uv, n, eta), n) == 0.0
  {
    var perp := RefractPerp(uv, n, eta);
    var s := sqrt(Abs(1.0 - Dot(perp, perp)));
    assert s >= 0.0;
    assert Refract(uv, n, eta, sqrt) == Add(perp, Scale(-s, n));
    if Dot(n, n) == 1.0 && Dot(Neg(uv), n) <= 1.0 {
      var c := Dot(Neg(uv), n);
      assert Dot(Add(uv, Scale(c, n)), n) == Dot(uv, n) + c * Dot(n, n);
      DotScaleRight(n, eta, Add(uv, Scale(c, n)));
    }
  }

  /** The global std::rand() state as an explicit stream of draws: each
      call takes the next draw and advances the position. */
  class Rng {
    const stream: nat -> int
    var pos: nat

    ghost predicate Valid() {
      forall k: nat :: IsDraw(stream(k))
    }

    constructor(stream: nat -> int)
      requires forall k: nat :: IsDraw(stream(k))
      ensures Valid() && this.stream == stream && pos == 0
    {
      this.stream := stream;
      pos := 0;
    }

    /** The value random_double() yields from the draw at position k. */
    function DoubleAt(k: nat): (x: real)
      requires Valid()
      ensures 0.0 <= x < 1.0
    {
      RandomDouble(stream(k))
    }

    /** The vector random_unit_vec3() yields from the draws at k, k+1, k+2. */
    function UnitAt(k: nat, sqrt: real -> real): (v: Vec3)
      requires Valid() && IsSqrt(sqrt)
      ensures v == Zero || Dot(v, v) == 1.0
    {
      RandomUnitVec3Unit(stream(k), stream(k + 1), stream(k + 2), sqrt);
      RandomUnitVec3(stream(k), stream(k + 1), stream(k + 2), sqrt)
    }

    /** std::rand() */
    method Next() returns (d: int)
      requires Valid()
      modifies this
      ensures Valid() && IsDraw(d)
      ensures d == stream(old(pos)) && pos == old(pos) + 1
    {
      d := stream(pos);
      pos := pos + 1;
    }

    /** random_double() */
    method NextDouble() returns (x: real)
      requires Valid()
      modifies this
      ensures Valid() && 0.0 <= x < 1.0
      ensures x == RandomDouble(stream(old(pos))) && pos == old(pos) + 1
    {
      var d := Next();
      x := RandomDouble(d);
    }

    /** random_double(min, max) */
    method NextDoubleIn(min: real, max: real) returns (x: real)
      requires Valid()
      modifies this
      ensures Valid() && (min < max ==> min <= x < max)
      ensures x == RandomDoubleIn(min, max, stream(old(pos))) && pos == old(pos) + 1
    {
      var d := Next();
      x := RandomDoubleIn(min, max, d);
    }

    /** The candidate random_in_unit_circle draws on its try j when the
        first try starts at position start: x from one draw, y from the
        next, both in [-1, 1). */
    function CircleTry(start: nat, j: nat): (q: Vec3)
      requires Valid()
    {
      Vec3(RandomDoubleIn(-1.0, 1.0, stream(start + 2 * j)),
           RandomDoubleIn(-1.0, 1.0, stream(start + 2 * j + 1)), 0.0)
    }

    /** The first n tries from position start all fall outside the circle. */
    ghost predicate CircleRejects(start: nat, n: nat)
      requires Valid()
    {
      forall j: nat :: j < n ==> Dot(CircleTry(start, j), CircleTry(start, j)) >= 1.0
    }

    /** random_unit_vec3(): three draws, in order x, y, z. */
    method NextUnitVec3(sqrt: real -> real) returns (v: Vec3)
      requires Valid() && IsSqrt(sqrt)
      modifies this
      ensures Valid() && v == UnitAt(old(pos), sqrt) && pos == old(pos) + 3
    {
      var d1 := Next();
      var d2 := Next();
      var d3 := Next();
      v := RandomUnitVec3(d1, d2, d3, sqrt);
    }
  }

  /** random_in_unit_circle: draw (x, y, 0) with x, y in [-1, 1) until the
      point lies strictly inside the unit circle. The source retries without
      bound; here at most maxTries candidates are drawn and None means none
      was accepted. */
  method RandomInUnitCircle(rng: Rng, maxTries: nat) returns (p: Option<Vec3>)
    requires rng.Valid()
    modifies rng
    ensures rng.Valid()
    ensures p.Some? ==> p.value.z == 0.0 && Dot(p.value, p.value) < 1.0
    ensures p.Some? ==> -1.0 <= p.value.x < 1.0 && -1.0 <= p.value.y < 1.0
    ensures p.None? ==> rng.pos == old(rng.pos) + 2 * maxTries && rng.CircleRejects(old(rng.pos), maxTries)
    ensures p.Some? ==>
      exists k: nat :: k < maxTries && rng.pos == old(rng.pos) + 2 * k + 2 &&
        p.value == rng.CircleTry(old(rng.pos), k) && rng.CircleRejects(old(rng.pos), k)
  {
    var tries := 0;
    while tries < maxTries
      invariant 0 <= tries <= maxTries
      invariant rng.Valid() && rng.pos == old(rng.pos) + 2 * tries
      invariant rng.CircleRejects(old(rng.pos), tries)
    {
      var x := rng.NextDoubleIn(-1.0, 1.0);
      var y := rng.NextDoubleIn(-1.0, 1.0);
      var q := Vec3(x, y, 0.0);
      assert q == rng.CircleTry(old(rng.pos), tries);
      if Dot(q, q) < 1.0 {
        assert rng.pos == old(rng.pos) + 2 * tries + 2;
        return Some(q);
      }
      tries := tries + 1;
    }
    return None;
  }
}
