// The arithmetic of ConstantMedium: the stored negative inverse density,
// the clamp of the random sample and the free-flight distance.
module Media {
  import opened Reals

  /** The lower clamp bound of the random sample. */
  const MinSample: real := 0.000001

  /** neg_inv_density = -1 / density */
  function NegInvDensity(density: real): (r: real)
    requires density != 0.0
    ensures density > 0.0 ==> r < 0.0
    ensures Product(r, density) == -1.0
  {
    -1.0 / density
  }

  /** glm::clamp(x, 1e-6, 1): min(max(x, 1e-6), 1). */
  function ClampSample(x: real): (r: real)
    ensures MinSample <= r <= 1.0
    ensures MinSample <= x <= 1.0 ==> r == x
    ensures x < MinSample ==> r == MinSample
    ensures x > 1.0 ==> r == 1.0
  {
    var lifted := if x < MinSample then MinSample else x;
    if lifted > 1.0 then 1.0 else lifted
  }

  /** hit_distance = neg_inv_density * (1 - 1 / randomv) */
  function HitDistance(negInvDensity: real, randomv: real): real
    requires randomv != 0.0
  {
    negInvDensity * (1.0 - 1.0 / randomv)
  }

  /** For a positive density the free-flight distance of a clamped sample is
      never negative; a sample of 1 gives distance 0. */
  lemma HitDistanceNonNegative(negInvDensity: real, randomv: real)
    requires negInvDensity <= 0.0 && MinSample <= randomv <= 1.0
    ensures HitDistance(negInvDensity, randomv) >= 0.0
    ensures randomv == 1.0 ==> HitDistance(negInvDensity, randomv) == 0.0
  {
    var k := 1.0 - 1.0 / randomv;
    DividePositive(1.0, randomv, 1.0);
    assert Product(1.0, 1.0 / randomv) == 1.0 / randomv;
    assert k <= 0.0;
    if negInvDensity < 0.0 && k < 0.0 {
      ProductPositive(negInvDensity, k);
    }
    assert HitDistance(negInvDensity, randomv) == Product(negInvDensity, k);
  }

  /** An accepted flight (hit_distance <= (hi - lo) * length) ends at
      lo + hit_distance / length, no further than hi, and no earlier than lo
      when the distance is not negative. */
  lemma FlightWithinSpan(lo: real, hi: real, len: real, hitDistance: real)
    requires len > 0.0 && hitDistance <= (hi - lo) * len
    ensures lo + hitDistance / len <= hi
    ensures hitDistance >= 0.0 ==> lo <= lo + hitDistance / len
  {
    DividePositive(hitDistance, len, hi - lo);
    assert hitDistance / len == Product(hitDistance, 1.0 / len);
    assert Product(hi - lo, len) == (hi - lo) * len;
    if hitDistance >= 0.0 {
      if hitDistance / len < 0.0 {
        DividePositive(hitDistance, len, 0.0);
      }
    }
  }
}
