// class Ray: an origin, a direction and (from the third version on) the
// time at which the ray is cast.
module Rays {
  import opened Vectors

  datatype Ray = Ray(orig: Vec3, dir: Vec3, time: real)

  /** The two-argument constructor: time 0. */
  function RayAtTimeZero(origin: Vec3, direction: Vec3): (r: Ray)
    ensures r.orig == origin && r.dir == direction && r.time == 0.0
  {
    Ray(origin, direction, 0.0)
  }

  /** The point orig + t * dir. */
  function At(r: Ray, t: real): Vec3 {
    Add(r.orig, Scale(t, r.dir))
  }

  /** at(0) is the origin and at(1) is origin + direction. */
  lemma AtEnds(r: Ray)
    ensures At(r, 0.0) == r.orig
    ensures At(r, 1.0) == Add(r.orig, r.dir)
  {
  }

  /** Walking t further along the ray adds t * dir. */
  lemma AtAdditive(r: Ray, s: real, t: real)
    ensures At(r, s + t) == Add(At(r, s), Scale(t, r.dir))
  {
  }

  /** Points on the ray determine their parameter when the direction is
      not zero. */
  lemma AtInjective(r: Ray, s: real, t: real)
    requires r.dir != Zero && At(r, s) == At(r, t)
    ensures s == t
  {
    if r.dir.x != 0.0 {
      assert s * r.dir.x == t * r.dir.x;
    } else if r.dir.y != 0.0 {
      assert s * r.dir.y == t * r.dir.y;
    } else {
      assert s * r.dir.z == t * r.dir.z;
    }
  }
}
