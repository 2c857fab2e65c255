// The hittable objects of the scene (the Hittable hierarchy) and their hit
// tests. Every kind of object is a variant of one datatype; the virtual
// hit of the source becomes a dispatch on the variant, and each variant's
// hit is a method that writes the caller's HitRecord.
module Scene {
  import opened Reals
  import opened Wrappers
  import opened ExtReals
  import opened Vectors
  import opened Intervals
  import opened Rays
  import opened Boxes
  import opened Common
  import opened MaterialTypes
  import opened Records
  import opened Rotations
  import opened Media
  import Spheres
  import Quads

  datatype Hittable =
    | SphereObject(sphere: Spheres.Sphere)
    | QuadObject(quad: Quads.Quad)
      /** HittableList: the objects and the box grown by add */
    | ListObject(objects: seq<Hittable>, listBox: AABB)
      /** BVHNode: two children and the box of the span it was built from */
    | BVHNode(left: Hittable, right: Hittable, nodeBox: AABB)
    | TranslateObject(child: Hittable, offset: Vec3, translatedBox: AABB)
    | RotateYObject(child: Hittable, sinTheta: real, cosTheta: real, rotatedBox: AABB)
      /** ConstantMedium: the boundary, -1/density and the Isotropic phase */
    | ConstantMedium(boundary: Hittable, negInvDensity: real, phase: Material)

  /** get_bbox: the stored box; a medium reports its boundary's box. */
  function GetBBox(h: Hittable): AABB {
    match h
    case SphereObject(s) => s.bbox
    case QuadObject(q) => q.bbox
    case ListObject(_, b) => b
    case BVHNode(_, _, b) => b
    case TranslateObject(_, _, b) => b
    case RotateYObject(_, _, _, b) => b
    case ConstantMedium(boundary, _, _) => GetBBox(boundary)
  }

  /** A medium's box is exactly its boundary's box. */
  lemma MediumBoxIsBoundaryBox(boundary: Hittable, negInvDensity: real, phase: Material)
    ensures GetBBox(ConstantMedium(boundary, negInvDensity, phase)) == GetBBox(boundary)
  {
  }

  /** Every medium in the tree has a positive (or infinite) density, so its
      free-flight distances are never negative. */
  predicate WellFormed(h: Hittable) {
    match h
    case ListObject(objects, _) => forall i :: 0 <= i < |objects| ==> WellFormed(objects[i])
    case BVHNode(l, r, _) => WellFormed(l) && WellFormed(r)
    case TranslateObject(o, _, _) => WellFormed(o)
    case RotateYObject(o, _, _, _) => WellFormed(o)
    case ConstantMedium(b, negInvDensity, _) => negInvDensity <= 0.0 && WellFormed(b)
    case _ => true
  }

  /** A tree of surfaces: no medium anywhere, and every rotation has
      cos^2 + sin^2 = 1. For such a tree a hit record is consistent: its
      point is the ray's point at its t and its normal faces the ray. */
  predicate SurfacesOnly(h: Hittable) {
    match h
    case ListObject(objects, _) => forall i :: 0 <= i < |objects| ==> SurfacesOnly(objects[i])
    case BVHNode(l, r, _) => SurfacesOnly(l) && SurfacesOnly(r)
    case TranslateObject(o, _, _) => SurfacesOnly(o)
    case RotateYObject(o, s, c, _) => UnitRotation(s, c) && SurfacesOnly(o)
    case ConstantMedium(_, _, _) => false
    case _ => true
  }

  /** The upper end of ray_t lowered to the t of an earlier hit, if any. */
  function Lowered(prev: Option<real>, rt: Interval): Interval {
    Interval(rt.min, if prev.Some? then Fin(prev.value) else rt.max)
  }

  /** The t at which hit finds h on r within rt: the sphere's root, the
      quad's plane parameter, for a list its objects tried in order with
      the upper end lowered to each hit, for a node nothing when the ray
      misses its box and otherwise the left child, then the right child
      under the left hit's t; a translated or rotated object gives its
      child's t on the transformed ray. A medium draws a random number for
      every hit, so it has no fixed t and gives None. */
  function HitT(h: Hittable, r: Ray, rt: Interval, sqrt: real -> real): (t: Option<real>)
    decreases h, 1, 0
    ensures t.Some? ==> Contains(rt, t.value)
  {
    match h
    case SphereObject(s) => Spheres.Root(Spheres.CenterAt(s, r.time), s.radius, r, rt, sqrt)
    case QuadObject(q) =>
      var p := Quads.Intersect(q, r, rt);
      if p.Some? then Some(p.value.t) else None
    case ListObject(objects, _) => ListT(h, |objects|, r, rt, sqrt)
    case BVHNode(left, right, box) =>
      var slab := Narrowed(box, r, rt, 3);
      if !Lt(slab.min, slab.max) then None
      else
        var l := HitT(left, r, rt, sqrt);
        var rr := HitT(right, r, Lowered(l, rt), sqrt);
        if rr.Some? then rr else l
    case TranslateObject(o, offset, _) => HitT(o, Ray(Sub(r.orig, offset), r.dir, r.time), rt, sqrt)
    case RotateYObject(o, s, c, _) => HitT(o, Ray(ToObject(s, c, r.orig), ToObject(s, c, r.dir), r.time), rt, sqrt)
    case ConstantMedium(_, _, _) => None
  }

  /** The t HittableList::hit holds after trying the first n objects. */
  function ListT(list: Hittable, n: nat, r: Ray, rt: Interval, sqrt: real -> real): (t: Option<real>)
    requires list.ListObject? && n <= |list.objects|
    decreases list, 0, n
    ensures t.Some? ==> Contains(rt, t.value)
  {
    if n == 0 then None
    else
      var prev := ListT(list, n - 1, r, rt, sqrt);
      var member := list.objects[n - 1];
      assert member in list.objects;
      var cur := HitT(member, r, Lowered(prev, rt), sqrt);
      if cur.Some? then cur else prev
  }

  /** BVHNode::hit finds the node exactly when the ray meets its box and
      one of the two children is hit within ray_t; its t is then at or
      below the left child's and is the t of one of the children. */
  lemma NodeHitsIffEitherChild(node: Hittable, r: Ray, rt: Interval, sqrt: real -> real)
    requires node.BVHNode?
    ensures var slab := Narrowed(node.nodeBox, r, rt, 3);
      HitT(node, r, rt, sqrt).Some? <==>
        Lt(slab.min, slab.max) && (HitT(node.left, r, rt, sqrt).Some? || HitT(node.right, r, rt, sqrt).Some?)
    ensures HitT(node, r, rt, sqrt).Some? && HitT(node.left, r, rt, sqrt).Some? ==>
      HitT(node, r, rt, sqrt).value <= HitT(node.left, r, rt, sqrt).value
    ensures HitT(node, r, rt, sqrt).Some? ==>
      HitT(node, r, rt, sqrt) == HitT(node.left, r, rt, sqrt) ||
      HitT(node, r, rt, sqrt) == HitT(node.right, r, Lowered(HitT(node.left, r, rt, sqrt), rt), sqrt)
  {
    assert Lowered(None, rt) == rt;
  }

  /** No BVH node anywhere in the tree. A node's stored box is whatever its
      builder computed; nothing ties it to the children, so a node can hide
      a nearer hit behind a box that a lowered ray_t misses. */
  predicate NodeFree(h: Hittable) {
    match h
    case ListObject(objects, _) => forall i :: 0 <= i < |objects| ==> NodeFree(objects[i])
    case BVHNode(_, _, _) => false
    case TranslateObject(o, _, _) => NodeFree(o)
    case RotateYObject(o, _, _, _) => NodeFree(o)
    case _ => true
  }

  /** The nearest of the hits of the first n objects of a list, each one
      tried on the whole of rt. */
  function NearestT(list: Hittable, n: nat, r: Ray, rt: Interval, sqrt: real -> real): (t: Option<real>)
    requires list.ListObject? && n <= |list.objects|
    ensures t.Some? ==> Contains(rt, t.value)
  {
    if n == 0 then None
    else
      var prev := NearestT(list, n - 1, r, rt, sqrt);
      var cur := HitT(list.objects[n - 1], r, rt, sqrt);
      if cur.Some? && (prev.None? || cur.value <= prev.value) then cur else prev
  }

  /** NearestT is the nearest hit: there is one exactly when one of the
      first n objects is hit within rt, and it is the t of one of them, at
      or below the t of every one that is hit. */
  lemma {:induction false} NearestIsMinimum(list: Hittable, n: nat, r: Ray, rt: Interval, sqrt: real -> real)
    requires list.ListObject? && n <= |list.objects|
    ensures NearestT(list, n, r, rt, sqrt).Some? <==>
      exists i :: 0 <= i < n && HitT(list.objects[i], r, rt, sqrt).Some?
    ensures forall i :: 0 <= i < n && HitT(list.objects[i], r, rt, sqrt).Some? ==>
      NearestT(list, n, r, rt, sqrt).Some? &&
      NearestT(list, n, r, rt, sqrt).value <= HitT(list.objects[i], r, rt, sqrt).value
    ensures NearestT(list, n, r, rt, sqrt).Some? ==>
      exists i :: 0 <= i < n && HitT(list.objects[i], r, rt, sqrt) == NearestT(list, n, r, rt, sqrt)
  {
    if n > 0 {
      NearestIsMinimum(list, n - 1, r, rt, sqrt);
      var prev := NearestT(list, n - 1, r, rt, sqrt);
      var cur := HitT(list.objects[n - 1], r, rt, sqrt);
      var res := NearestT(list, n, r, rt, sqrt);
      if res == cur && cur.Some? {
        assert HitT(list.objects[n - 1], r, rt, sqrt) == res;
      }
    }
  }

  /** Lowering the upper end of ray_t from hi to b, for a tree without BVH
      nodes: a hit under b is the hit under hi, and a hit under hi that
      lies below b is found under b as well. */
  lemma {:induction false} HitTNarrowed(h: Hittable, r: Ray, lo: Ext, b: real, hi: Ext, sqrt: real -> real)
    requires IsSqrt(sqrt) && NodeFree(h) && Le(Fin(b), hi)
    decreases h, 1
    ensures var narrow := HitT(h, r, Interval(lo, Fin(b)), sqrt);
      narrow.Some? ==> HitT(h, r, Interval(lo, hi), sqrt) == narrow
    ensures var wide := HitT(h, r, Interval(lo, hi), sqrt);
      wide.Some? && wide.value < b ==> HitT(h, r, Interval(lo, Fin(b)), sqrt) == wide
  {
    match h
    case SphereObject(s) =>
      Spheres.RootNarrowed(Spheres.CenterAt(s, r.time), s.radius, r, lo, b, hi, sqrt);
    case QuadObject(q) =>
    case ListObject(objects, _) =>
      ListIsNearest(h, |objects|, r, Interval(lo, Fin(b)), sqrt);
      ListIsNearest(h, |objects|, r, Interval(lo, hi), sqrt);
      NearestNarrowed(h, |objects|, r, lo, b, hi, sqrt);
    case TranslateObject(o, offset, _) =>
      HitTNarrowed(o, Ray(Sub(r.orig, offset), r.dir, r.time), lo, b, hi, sqrt);
    case RotateYObject(o, s, c, _) =>
      HitTNarrowed(o, Ray(ToObject(s, c, r.orig), ToObject(s, c, r.dir), r.time), lo, b, hi, sqrt);
    case BVHNode(_, _, _) =>
    case ConstantMedium(_, _, _) =>
  }

  /** The nearest hit of the first n objects keeps the two properties of
      HitTNarrowed when the upper end is lowered from hi to b. */
  lemma {:induction false} NearestNarrowed(list: Hittable, n: nat, r: Ray, lo: Ext, b: real, hi: Ext,
                                          sqrt: real -> real)
    requires IsSqrt(sqrt) && list.ListObject? && NodeFree(list) && n <= |list.objects| && Le(Fin(b), hi)
    decreases list, 0, n
    ensures var narrow := NearestT(list, n, r, Interval(lo, Fin(b)), sqrt);
      narrow.Some? ==> NearestT(list, n, r, Interval(lo, hi), sqrt) == narrow
    ensures var wide := NearestT(list, n, r, Interval(lo, hi), sqrt);
      wide.Some? && wide.value < b ==> NearestT(list, n, r, Interval(lo, Fin(b)), sqrt) == wide
  {
    if n > 0 {
      NearestNarrowed(list, n - 1, r, lo, b, hi, sqrt);
      var member := list.objects[n - 1];
      assert member in list.objects;
      HitTNarrowed(member, r, lo, b, hi, sqrt);
    }
  }

  /** HittableList::hit, which lowers the upper end after every hit, finds
      the same t as trying every object on the whole of rt and keeping the
      nearest, for a list without BVH nodes. */
  lemma {:induction false} ListIsNearest(list: Hittable, n: nat, r: Ray, rt: Interval, sqrt: real -> real)
    requires IsSqrt(sqrt) && list.ListObject? && NodeFree(list) && n <= |list.objects|
    decreases list, 0, n
    ensures ListT(list, n, r, rt, sqrt) == NearestT(list, n, r, rt, sqrt)
  {
    if n > 0 {
      ListIsNearest(list, n - 1, r, rt, sqrt);
      var prev := ListT(list, n - 1, r, rt, sqrt);
      var member := list.objects[n - 1];
      assert member in list.objects;
      if prev.Some? {
        assert Interval(rt.min, rt.max) == rt;
        HitTNarrowed(member, r, rt.min, prev.value, rt.max, sqrt);
      } else {
        assert Lowered(prev, rt) == rt;
      }
    }
  }

  /** HittableList::hit reports the nearest hit, for a list without BVH
      nodes: it hits exactly when one of its objects is hit within ray_t,
      at the t of one of them, and at or below the t of every object that
      is hit. */
  lemma ListHitIsNearest(list: Hittable, r: Ray, rt: Interval, sqrt: real -> real)
    requires IsSqrt(sqrt) && list.ListObject? && NodeFree(list)
    ensures HitT(list, r, rt, sqrt).Some? <==>
      exists i :: 0 <= i < |list.objects| && HitT(list.objects[i], r, rt, sqrt).Some?
    ensures forall i :: 0 <= i < |list.objects| && HitT(list.objects[i], r, rt, sqrt).Some? ==>
      HitT(list, r, rt, sqrt).Some? && HitT(list, r, rt, sqrt).value <= HitT(list.objects[i], r, rt, sqrt).value
    ensures HitT(list, r, rt, sqrt).Some? ==>
      exists i :: 0 <= i < |list.objects| && HitT(list.objects[i], r, rt, sqrt) == HitT(list, r, rt, sqrt)
  {
    ListIsNearest(list, |list.objects|, r, rt, sqrt);
    NearestIsMinimum(list, |list.objects|, r, rt, sqrt);
  }

  /** hit(r, ray_t, rec), dispatched on the kind of object. */
  method Hit(h: Hittable, r: Ray, rt: Interval, rec: HitRecord, rng: Rng, sqrt: real -> real)
    returns (hit: bool)
    requires rng.Valid() && IsSqrt(sqrt)
    modifies rec, rng
    decreases h, 2
    ensures rng.Valid()
    ensures !hit ==> unchanged(rec)
    ensures hit ==> r.dir != Zero && Le(Fin(rec.t), rt.max)
    ensures hit && WellFormed(h) ==> Contains(rt, rec.t)
    ensures hit && SurfacesOnly(h) ==> rec.p == At(r, rec.t) && Dot(r.dir, rec.normal) <= 0.0
    ensures hit && SurfacesOnly(h) && rec.isFrontFace ==> Dot(r.dir, rec.normal) < 0.0
    ensures SurfacesOnly(h) ==> (hit <==> HitT(h, r, rt, sqrt).Some?) && (hit ==> HitT(h, r, rt, sqrt) == Some(rec.t))
  {
    match h
    case SphereObject(s) =>
      hit := Spheres.Hit(s, r, rt, rec, sqrt);
      if hit {
        assert Spheres.QuadA(r) != 0.0;
        SurroundsImpliesContains(rt, rec.t);
      }
    case QuadObject(q) =>
      hit := Quads.Hit(q, r, rt, rec, sqrt);
    case ListObject(_, _) =>
      hit := ListHit(h, r, rt, rec, rng, sqrt);
    case BVHNode(_, _, _) =>
      hit := NodeHit(h, r, rt, rec, rng, sqrt);
    case TranslateObject(_, _, _) =>
      hit := TranslateHit(h, r, rt, rec, rng, sqrt);
    case RotateYObject(_, _, _, _) =>
      hit := RotateYHit(h, r, rt, rec, rng, sqrt);
    case ConstantMedium(_, _, _) =>
      hit := MediumHitCorrected(h, r, rt, rec, rng, sqrt);
  }

  /** HittableList::hit: every object is tried against [ray_t.min,
      closest so far], the bound only ever comes down to the t of the last
      hit, and rec is copied from the temporary record on each hit. */
  method ListHit(list: Hittable, r: Ray, rt: Interval, rec: HitRecord, rng: Rng, sqrt: real -> real)
    returns (hit: bool)
    requires list.ListObject? && rng.Valid() && IsSqrt(sqrt)
    modifies rec, rng
    decreases list, 0
    ensures rng.Valid()
    ensures !hit ==> unchanged(rec)
    ensures hit ==> r.dir != Zero && Le(Fin(rec.t), rt.max)
    ensures hit && WellFormed(list) ==> Contains(rt, rec.t)
    ensures hit && SurfacesOnly(list) ==> rec.p == At(r, rec.t) && Dot(r.dir, rec.normal) <= 0.0
    ensures hit && SurfacesOnly(list) && rec.isFrontFace ==> Dot(r.dir, rec.normal) < 0.0
    ensures SurfacesOnly(list) ==> (hit <==> HitT(list, r, rt, sqrt).Some?) && (hit ==> HitT(list, r, rt, sqrt) == Some(rec.t))
  {
    var tmp := new HitRecord();
    hit := false;
    var closest := rt.max;
    var i := 0;
    while i < |list.objects|
      invariant 0 <= i <= |list.objects|
      invariant rng.Valid() && fresh(tmp)
      invariant !hit ==> unchanged(rec) && closest == rt.max
      invariant hit ==> closest == Fin(rec.t) && r.dir != Zero && Le(Fin(rec.t), rt.max)
      invariant hit && WellFormed(list) ==> Contains(rt, rec.t)
      invariant hit && SurfacesOnly(list) ==> rec.p == At(r, rec.t) && Dot(r.dir, rec.normal) <= 0.0
      invariant hit && SurfacesOnly(list) && rec.isFrontFace ==> Dot(r.dir, rec.normal) < 0.0
      invariant SurfacesOnly(list) ==>
        (hit <==> ListT(list, i, r, rt, sqrt).Some?) && (hit ==> ListT(list, i, r, rt, sqrt) == Some(rec.t))
    {
      var member := list.objects[i];
      assert member in list.objects;
      var hitMember := Hit(member, r, Interval(rt.min, closest), tmp, rng, sqrt);
      if hitMember {
        LeTransitive(Fin(tmp.t), closest, rt.max);
        hit := true;
        closest := Fin(tmp.t);
        rec.CopyFrom(tmp);
      }
      i := i + 1;
    }
  }

  /** BVHNode::hit: nothing is visited when the ray misses the node's box;
      otherwise the left child is searched, then the right child with the
      upper bound lowered to the left hit's t. */
  method NodeHit(node: Hittable, r: Ray, rt: Interval, rec: HitRecord, rng: Rng, sqrt: real -> real)
    returns (hit: bool)
    requires node.BVHNode? && rng.Valid() && IsSqrt(sqrt)
    modifies rec, rng
    decreases node, 0
    ensures rng.Valid()
    ensures !hit ==> unchanged(rec)
    ensures hit ==> r.dir != Zero && Le(Fin(rec.t), rt.max)
    ensures hit && WellFormed(node) ==> Contains(rt, rec.t)
    ensures hit && SurfacesOnly(node) ==> rec.p == At(r, rec.t) && Dot(r.dir, rec.normal) <= 0.0
    ensures hit && SurfacesOnly(node) && rec.isFrontFace ==> Dot(r.dir, rec.normal) < 0.0
    ensures SurfacesOnly(node) ==> (hit <==> HitT(node, r, rt, sqrt).Some?) && (hit ==> HitT(node, r, rt, sqrt) == Some(rec.t))
    ensures !Lt(Narrowed(node.nodeBox, r, rt, 3).min, Narrowed(node.nodeBox, r, rt, 3).max) ==>
      !hit && unchanged(rng)
  {
    var inBox := Boxes.Hit(node.nodeBox, r, rt);
    if !inBox {
      return false;
    }
    var hitLeft := Hit(node.left, r, rt, rec, rng, sqrt);
    var rightRange := Interval(rt.min, if hitLeft then Fin(rec.t) else rt.max);
    var hitRight := Hit(node.right, r, rightRange, rec, rng, sqrt);
    if hitRight && hitLeft {
      LeTransitive(Fin(rec.t), rightRange.max, rt.max);
    }
    hit := hitLeft || hitRight;
  }

  /** Translate::hit: the ray is moved back by the offset, and the hit
      point forward by it; t and the normal are the child's. */
  method TranslateHit(h: Hittable, r: Ray, rt: Interval, rec: HitRecord, rng: Rng, sqrt: real -> real)
    returns (hit: bool)
    requires h.TranslateObject? && rng.Valid() && IsSqrt(sqrt)
    modifies rec, rng
    decreases h, 0
    ensures rng.Valid()
    ensures !hit ==> unchanged(rec)
    ensures hit ==> r.dir != Zero && Le(Fin(rec.t), rt.max)
    ensures hit && WellFormed(h) ==> Contains(rt, rec.t)
    ensures hit && SurfacesOnly(h) ==> rec.p == At(r, rec.t) && Dot(r.dir, rec.normal) <= 0.0
    ensures hit && SurfacesOnly(h) && rec.isFrontFace ==> Dot(r.dir, rec.normal) < 0.0
    ensures SurfacesOnly(h) ==> (hit <==> HitT(h, r, rt, sqrt).Some?) && (hit ==> HitT(h, r, rt, sqrt) == Some(rec.t))
  {
    var offsetRay := Ray(Sub(r.orig, h.offset), r.dir, r.time);
    hit := Hit(h.child, offsetRay, rt, rec, rng, sqrt);
    if !hit {
      return;
    }
    rec.p := Add(rec.p, h.offset);
  }

  /** RotateY::hit: the ray is taken to object space, and the hit point and
      normal back to world space; t is the child's. */
  method RotateYHit(h: Hittable, r: Ray, rt: Interval, rec: HitRecord, rng: Rng, sqrt: real -> real)
    returns (hit: bool)
    requires h.RotateYObject? && rng.Valid() && IsSqrt(sqrt)
    modifies rec, rng
    decreases h, 0
    ensures rng.Valid()
    ensures !hit ==> unchanged(rec)
    ensures hit ==> r.dir != Zero && Le(Fin(rec.t), rt.max)
    ensures hit && WellFormed(h) ==> Contains(rt, rec.t)
    ensures hit && SurfacesOnly(h) ==> rec.p == At(r, rec.t) && Dot(r.dir, rec.normal) <= 0.0
    ensures hit && SurfacesOnly(h) && rec.isFrontFace ==> Dot(r.dir, rec.normal) < 0.0
    ensures SurfacesOnly(h) ==> (hit <==> HitT(h, r, rt, sqrt).Some?) && (hit ==> HitT(h, r, rt, sqrt) == Some(rec.t))
  {
    var s, c := h.sinTheta, h.cosTheta;
    var rotatedRay := Ray(ToObject(s, c, r.orig), ToObject(s, c, r.dir), r.time);
    hit := Hit(h.child, rotatedRay, rt, rec, rng, sqrt);
    if !hit {
      return;
    }
    if r.dir == Zero {
      ToObjectZero(s, c);
    }
    ghost var objectNormal := rec.normal;
    ghost var objectPoint := rec.p;
    rec.p := ToWorld(s, c, rec.p);
    rec.normal := ToWorld(s, c, rec.normal);
    RotationAdjoint(s, c, r.dir, objectNormal);
    if SurfacesOnly(h) {
      RotatedRayPoint(s, c, r, rec.t);
    }
  }

  /** The free flight of ConstantMedium::hit. The boundary must be hit
      twice, the second time from rec1.t + 0.0001 on; the two parameters
      are clipped to ray_t (and the entry to 0), and a flight drawn from one
      random number is accepted when it ends before the exit. t is the
      parameter the flight ends at. */
  method MediumFlight(h: Hittable, r: Ray, rt: Interval, rng: Rng, sqrt: real -> real)
    returns (hit: bool, t: real)
    requires h.ConstantMedium? && rng.Valid() && IsSqrt(sqrt)
    modifies rng
    decreases h, 0
    ensures rng.Valid()
    ensures hit ==> r.dir != Zero && Le(Fin(t), rt.max)
    ensures hit && WellFormed(h) ==> Contains(rt, t) && t >= 0.0
  {
    var rec1 := new HitRecord();
    var rec2 := new HitRecord();
    var hit1 := Hit(h.boundary, r, Universe, rec1, rng, sqrt);
    if !hit1 {
      return false, 0.0;
    }
    var hit2 := Hit(h.boundary, r, Interval(Fin(rec1.t + 0.0001), PosInf), rec2, rng, sqrt);
    if !hit2 {
      return false, 0.0;
    }
    var ok, lo, hi := ClipSpan(rec1.t, rec2.t, rt);
    if !ok {
      return false, 0.0;
    }
    var len := Length(r.dir, sqrt);
    LengthPositive(r.dir, sqrt);
    var distanceInside := (hi - lo) * len;
    var sample := rng.NextDouble();
    var randomv := ClampSample(sample);
    var hitDistance := HitDistance(h.negInvDensity, randomv);
    if hitDistance > distanceInside {
      return false, 0.0;
    }
    FlightWithinSpan(lo, hi, len, hitDistance);
    if h.negInvDensity <= 0.0 {
      HitDistanceNonNegative(h.negInvDensity, randomv);
    }
    hit, t := true, lo + hitDistance / len;
  }

  /** ConstantMedium::hit as the source writes it: the record's t is set
      to the end of the flight, but the point is computed from the t the
      output record held before the call. */
  method MediumHit(h: Hittable, r: Ray, rt: Interval, rec: HitRecord, rng: Rng, sqrt: real -> real)
    returns (hit: bool)
    requires h.ConstantMedium? && rng.Valid() && IsSqrt(sqrt)
    modifies rec, rng
    decreases h, 1
    ensures rng.Valid()
    ensures !hit ==> unchanged(rec)
    ensures hit ==> r.dir != Zero && Le(Fin(rec.t), rt.max)
    ensures hit && WellFormed(h) ==> Contains(rt, rec.t) && rec.t >= 0.0
    ensures hit ==> rec.p == At(r, old(rec.t)) && rec.normal == Vec3(1.0, 0.0, 0.0)
    ensures hit ==> rec.isFrontFace && rec.mat == h.phase
  {
    var t;
    hit, t := MediumFlight(h, r, rt, rng, sqrt);
    if !hit {
      return;
    }
    rec.SetPointNormal(At(r, rec.t), Vec3(1.0, 0.0, 0.0), t);
    rec.isFrontFace := true;
    rec.mat := h.phase;
  }

  /** The point MediumHit stores is off the ray's point at the stored t
      whenever the record held a different t before the call. */
  lemma StaleMediumPoint(r: Ray, oldT: real, t: real)
    requires r.dir != Zero && oldT != t
    ensures At(r, oldT) != At(r, t)
  {
  }

  /** ConstantMedium::hit with the point taken at the new t: the record
      holds the point of the ray at the end of the flight. Hit uses this
      one. */
  method MediumHitCorrected(h: Hittable, r: Ray, rt: Interval, rec: HitRecord, rng: Rng, sqrt: real -> real)
    returns (hit: bool)
    requires h.ConstantMedium? && rng.Valid() && IsSqrt(sqrt)
    modifies rec, rng
    decreases h, 1
    ensures rng.Valid()
    ensures !hit ==> unchanged(rec)
    ensures hit ==> r.dir != Zero && Le(Fin(rec.t), rt.max)
    ensures hit && WellFormed(h) ==> Contains(rt, rec.t) && rec.t >= 0.0
    ensures hit ==> rec.p == At(r, rec.t) && rec.normal == Vec3(1.0, 0.0, 0.0)
    ensures hit ==> rec.isFrontFace && rec.mat == h.phase
  {
    var t;
    hit, t := MediumFlight(h, r, rt, rng, sqrt);
    if !hit {
      return;
    }
    rec.SetPointNormal(At(r, t), Vec3(1.0, 0.0, 0.0), t);
    rec.isFrontFace := true;
    rec.mat := h.phase;
  }

  /** The clipping of rec1.t and rec2.t: the entry is raised to ray_t.min,
      the exit lowered to ray_t.max, the span must be non-empty, and then
      the entry is raised to 0. The bounds are extended reals, as ray_t's
      may be infinite. */
  method ClipSpan(t1: real, t2: real, rt: Interval) returns (ok: bool, lo: real, hi: real)
    ensures ok <==> Lt(Max(Fin(t1), rt.min), Min(Fin(t2), rt.max))
    ensures ok ==> Fin(hi) == Min(Fin(t2), rt.max) && Le(rt.min, Fin(lo)) && lo >= 0.0
    ensures ok ==> Le(Max(Fin(t1), rt.min), Fin(lo)) && (lo > 0.0 ==> Fin(lo) == Max(Fin(t1), rt.min))
  {
    var entry := Fin(t1);
    var exit := Fin(t2);
    if Lt(entry, rt.min) {
      entry := rt.min;
    }
    if Lt(rt.max, exit) {
      exit := rt.max;
    }
    LeTotal(Fin(t1), rt.min);
    LeTotal(rt.max, Fin(t2));
    if Le(exit, entry) {
      LeTotal(entry, exit);
      return false, 0.0, 0.0;
    }
    ok, lo, hi := true, entry.v, exit.v;
    if lo < 0.0 {
      lo := 0.0;
    }
  }

  /** The box grown by adding the objects of s, in order, to init: the box
      of a HittableList (from AABB()) and of a BVH node's span (from
      get_empty()). */
  function UnionFold(init: AABB, s: seq<Hittable>): AABB {
    if |s| == 0 then init else Boxes.Union(UnionFold(init, s[..|s| - 1]), GetBBox(s[|s| - 1]))
  }

  /** The grown box encloses the starting box and the box of every object. */
  lemma {:induction false} UnionFoldEncloses(init: AABB, s: seq<Hittable>)
    ensures Encloses(UnionFold(init, s), init)
    ensures forall i :: 0 <= i < |s| ==> Encloses(UnionFold(init, s), GetBBox(s[i]))
  {
    if |s| > 0 {
      var prefix := s[..|s| - 1];
      var last := GetBBox(s[|s| - 1]);
      UnionFoldEncloses(init, prefix);
      UnionEncloses(UnionFold(init, prefix), last, Zero);
      EnclosesTransitive(UnionFold(init, s), UnionFold(init, prefix), init);
      forall i | 0 <= i < |s| - 1
        ensures Encloses(UnionFold(init, s), GetBBox(s[i]))
      {
        assert s[i] == prefix[i];
        EnclosesTransitive(UnionFold(init, s), UnionFold(init, prefix), GetBBox(s[i]));
      }
    }
  }
}
