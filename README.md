# simple-rt in Dafny

A model of the core of *simple-rt*, a C++ path tracer that follows the three
"Ray Tracing in One Weekend" books in three versions (`weeknd1`, `weeknd2`,
`weeknd3`). The model covers what the tracer computes: intervals of ray
parameters, rays, axis-aligned bounding boxes and their slab test, the
bounding-volume hierarchy and its construction by partial sorting, spheres
(static and moving), quads and boxes built from six quads, the translate and
rotate-y instances, constant-density media, textures, the Perlin
permutation tables and lattice lookup, orthonormal bases, the three
material hierarchies, probability densities (sphere, cosine, quad, mixture),
the cameras' per-pixel loops and the colour output.

Doubles are modelled as mathematical reals, with the infinities of
`Interval` and `AABB` written out as an extended-real type (`ExtReals.Ext`)
and IEEE NaN written out where the code depends on it (an `Option` size,
a `Param.NaN` slab parameter). Square roots, `pow`, trigonometric functions
and `random_cosine_direction` are parameters of the functions that need
them, with only the facts the code relies on assumed as preconditions
(`Reals.IsSqrt`: non-negative and squaring back). The global `rand()`
stream is a sequence of draws: `Common.Rng` is a class that consumes it,
and the pure functions take the draw they need as an argument.

Each source file maps to one module:

| source | module (file) |
|---|---|
| `weeknd2/include/interval.h`, `weeknd1/include/interval.h` | `Intervals` (`interval.dfy`), `ExtReals` (`ext_real.dfy`) |
| `weeknd3/include/ray.h`, `weeknd1/include/ray.h` | `Rays` (`ray.dfy`) |
| `weeknd2/include/aabb.h` | `Boxes` (`aabb.dfy`) |
| `weeknd2/include/bvh.h` | `Bvh` (`bvh.dfy`) |
| `weeknd2/include/hittable.h` | `Records`, `Lists`, `Frames`, `Rotations`, `Scene` |
| `weeknd2/include/sphere.h`, `weeknd1/include/sphere.h` | `Spheres` (`spheres.dfy`) |
| `weeknd3/include/quad.h` | `Quads` (`quads.dfy`) |
| `weeknd3/include/medium.h` | `Media` (`media.dfy`) |
| `weeknd2/include/texture.h` | `Textures` (`texture.dfy`) |
| `weeknd3/include/perlin.h` | `PerlinNoise` (`perlin.dfy`) |
| `weeknd3/include/onb.h` | `Onbs` (`onb.dfy`) |
| `weeknd3/include/pdf.h` | `Pdfs` (`pdf.dfy`) |
| `weeknd1/include/material.h`, `weeknd2/include/material.h`, `weeknd3/include/material.h` | `MaterialsV1`, `MaterialsV2`, `MaterialsV3`, `Optics`, `MaterialTypes` |
| `weeknd1/include/camera.h` | `CameraV1` (`camera_v1.dfy`) |
| `weeknd2/include/camera.h` | `CameraV2`, `Cameras` |
| `weeknd2/include/common.h` | `Common` (`common.dfy`) |
| `weeknd3/src/color.cpp` | `Colors` (`color.dfy`) |

`Vectors`, `Reals` and `Wrappers` hold the vector algebra (glm's `vec3`),
real-arithmetic helper lemmas and `Option`.

## Model

| member | source | states |
|---|---|---|
| Intervals.Default | weeknd2/include/interval.h:8 | the default interval is (+inf, -inf) |
| Intervals.Union | weeknd2/include/interval.h:12-16 | the union's bounds are the lesser min and the greater max, each taken from one of the inputs |
| Intervals.Size | weeknd2/include/interval.h:18 | the size is max - min for finite bounds and undefined (NaN) exactly when both bounds are the same infinity |
| Intervals.Clamp | weeknd2/include/interval.h:24-26 | the clamp returns min, max or the value itself |
| Intervals.Expand | weeknd2/include/interval.h:28-31 | each finite bound moves out by delta/2; infinite bounds stay |
| Intervals.Shift | weeknd2/include/interval.h:35-37 | each finite bound moves by the displacement; infinite bounds stay |
| Intervals.ShiftLeft | weeknd2/include/interval.h:40-42 | displacement + ival equals ival + displacement |
| Intervals.EmptyContainsNothing | weeknd2/include/interval.h:45-48 | the default interval is the empty one, which neither contains nor surrounds any value |
| Intervals.UniverseContainsAll | weeknd2/include/interval.h:51-54 | the universe contains and surrounds every value |
| Intervals.PositiveBounds | weeknd1/include/interval.h:35-43 | the positive interval surrounds exactly t > 0.001 and never 0 |
| Intervals.UnionContains | weeknd2/include/interval.h:12-16 | the union contains every point of either input |
| Intervals.UnionLeast | weeknd2/include/interval.h:12-16 | any interval enclosing both inputs encloses their union |
| Intervals.UnionEmptyIdentity | weeknd2/include/interval.h:12-16 | the empty interval is a two-sided identity of the union |
| Intervals.SurroundsImpliesContains | weeknd2/include/interval.h:20-22 | surrounds implies contains; a finite bound is contained but not surrounded |
| Intervals.ClampInRange | weeknd2/include/interval.h:24-26 | for min <= max the clamped value lies in [min, max], and it equals x exactly when x is contained |
| Intervals.ExpandSize | weeknd2/include/interval.h:28-31 | expanding a finite interval by delta grows its size by exactly delta |
| Intervals.ShiftSize | weeknd2/include/interval.h:35-42 | shifting keeps the size (including NaN) and both operand orders agree |
| Intervals.ShiftContains | weeknd2/include/interval.h:35-42 | x + d is contained or surrounded by the shifted interval exactly when x is by the original |
| ExtReals.Min | weeknd2/include/interval.h:14 | the minimum is one of the inputs and not above either |
| ExtReals.Max | weeknd2/include/interval.h:15 | the maximum is one of the inputs and not below either |
| ExtReals.AddReal | weeknd2/include/interval.h:35-37 | adding a finite value keeps finiteness and adds to finite values; infinities absorb it |
| ExtReals.MulReal | weeknd2/include/aabb.h:58-59 | multiplying by a nonzero finite factor keeps finiteness and multiplies finite values |
| Rays.RayAtTimeZero | weeknd3/include/ray.h:12 | the two-argument ray has the given origin and direction and time 0 |
| Rays.AtEnds | weeknd3/include/ray.h:19 | at(0) is the origin and at(1) is origin + direction |
| Rays.AtAdditive | weeknd3/include/ray.h:19 | at(s + t) = at(s) + t dir |
| Rays.AtInjective | weeknd1/include/ray.h:14 | with a nonzero direction, equal points have equal parameters |
| Boxes.AxisInterval | weeknd2/include/aabb.h:44-46 | axis 0 is x, axis 1 is y, axis 2 is z |
| Boxes.Hit | weeknd2/include/aabb.h:48-77 | the method's loop returns true exactly when the interval narrowed by all three slabs is non-empty |
| Boxes.SlabStepNarrows | weeknd2/include/aabb.h:57-67 | one slab step never widens ray_t |
| Boxes.NarrowedStaysEmpty | weeknd2/include/aabb.h:69-70 | once max <= min after some axis, it stays so after every later axis, so the early return agrees with testing at the end |
| Boxes.SlabParamOrder | weeknd2/include/aabb.h:54-56 | for a nonzero direction component the slab parameter is a number, ordered against t as the bound is against the ray's coordinate (reversed for a negative component) |
| Boxes.SlabStepKeeps | weeknd2/include/aabb.h:52-67 | a parameter strictly inside ray_t at which the ray is strictly inside the slab stays strictly inside the narrowed interval |
| Boxes.SlabStepSound | weeknd2/include/aabb.h:52-67 | a parameter strictly inside the narrowed interval was strictly inside ray_t and puts the ray in the closed slab |
| Boxes.NarrowedKeeps | weeknd2/include/aabb.h:52-72 | a parameter at which the ray is strictly inside the box stays strictly inside the interval through every axis |
| Boxes.HitComplete | weeknd2/include/aabb.h:48-77 | a ray strictly inside the box at some parameter strictly inside ray_t hits the box |
| Boxes.NarrowedSound | weeknd2/include/aabb.h:52-72 | a parameter strictly inside the interval narrowed by k axes puts the ray inside the first k slabs |
| Boxes.HitSound | weeknd2/include/aabb.h:48-77 | for an ordered box, any parameter inside the final interval lies in ray_t and puts the ray in the closed box |
| Boxes.InteriorPoint | weeknd2/include/aabb.h:69-70 | a non-empty open interval has an interior point |
| Boxes.HitWitness | weeknd2/include/aabb.h:48-77 | a hit on an ordered box yields a parameter in ray_t at which the ray is inside the box |
| Boxes.EmptyBoxNeverNarrows | weeknd2/include/aabb.h:95-99 | against the empty box every slab comparison with NaN or an infinity leaves ray_t unchanged, as IEEE arithmetic makes it |
| Boxes.EmptyAxisNeverNarrows | weeknd2/include/aabb.h:52-67 | the same for every prefix of the three axes |
| Boxes.PadAxisEffect | weeknd2/include/aabb.h:6-17 | an axis narrower than 0.0001 grows by exactly 0.0001 around the original; a wider axis or one of NaN size is untouched |
| Boxes.SingletonsUnpadded | weeknd2/include/aabb.h:95-107 | padding leaves the empty and the universe boxes as they are |
| Boxes.FromPointsProperties | weeknd2/include/aabb.h:29-36 | the point-pair box orders each axis, does not depend on the order of the points, and contains both points |
| Boxes.FromPointsLeast | weeknd2/include/aabb.h:29-36 | every box holding both points encloses the point-pair box |
| Boxes.UnionEncloses | weeknd2/include/aabb.h:38-42 | the union box encloses both boxes and every point of either |
| Boxes.EnclosesTransitive | weeknd2/include/aabb.h:38-42 | enclosure is transitive |
| Boxes.TranslateShifts | weeknd2/include/aabb.h:88-92 | translating a padded box shifts each axis by the offset's component, keeps it padded, and both operand orders agree |
| Boxes.FromIntervalsPadded | weeknd2/include/aabb.h:24-27 | the interval constructor yields a padded box for finite ordered axes |
| Boxes.LongestAxisMaximal | weeknd2/include/aabb.h:79-86 | the longest axis is one of 0, 1, 2 with maximal size; x only when strictly longest, ties go to the higher index |
| Bvh.BoxCompareStrictWeak | weeknd2/include/bvh.h:74-94 | box_compare is irreflexive and transitive, and incomparability is transitive: a strict weak order, as nth_element demands |
| Bvh.SpanPermutation | weeknd2/include/bvh.h:44-45 | a permutation of the whole vector that leaves everything outside [start, end) alone permutes the span |
| Bvh.MinIndex | weeknd2/include/bvh.h:44-45 | the returned index lies in [i, end) and holds a smallest key of that range |
| Bvh.SwapExtends | weeknd2/include/bvh.h:44-45 | swapping a smallest remaining key into position i extends the sorted prefix, permutes the vector and touches only the span |
| Bvh.SortedSplits | weeknd2/include/bvh.h:44-45 | a sorted prefix through mid leaves no element before mid greater than the one at mid, none after it smaller, and every element before mid at or below every one from mid on |
| Bvh.SelectNth | weeknd2/include/bvh.h:44-45 | nth_element: the vector is permuted, only the span changes, and the element at mid separates the smaller from the larger keys |
| Bvh.SpanBox | weeknd2/include/bvh.h:22-26 | the node box is get_empty() unioned with the box of each object of the span, in order |
| Bvh.Build | weeknd2/include/bvh.h:18-52 | the node box is the union of the span's boxes; one object is both children, two objects are the children in order, more are split at start + span/2 along the longest axis of the node box; the vector is permuted only inside the span; the node is built from the span in its final order (`Bvh.BuiltFrom`): for three or more objects each child is a tree built the same way over its half of the span; and at every split of the tree the objects of the first half lie at or below those of the second on the longest axis of that node's box (`Bvh.SplitOrdered`) |
| Bvh.BuiltSmall | weeknd2/include/bvh.h:33-39 | a span of one object gives that object as both children, a span of two gives them in order, with the span's box |
| Bvh.BuiltSplit | weeknd2/include/bvh.h:40-49 | two trees built over the lower and upper halves of a span, cut at span/2, make a node built over the whole span |
| Bvh.OrderedSplit | weeknd2/include/bvh.h:27-49 | two trees ordered at every split, over halves that are themselves ordered on the longest axis of the span's box, make a node ordered at every split |
| Bvh.SplitNode | weeknd2/include/bvh.h:18-49 | after the selection reorders the span, the box grown in the original order is the box over the final order, and the node over the two children is built from the final span and ordered at every split |
| Bvh.BuiltHoldsSpan | weeknd2/include/bvh.h:18-52 | a tree built over a span has exactly the span's objects as its leaves, in the span's order: none dropped, none repeated |
| Bvh.UnionFoldPermutation | weeknd2/include/bvh.h:22-26 | the node box depends only on which objects the span holds, not on their order, so it is the same before and after nth_element reorders the span |
| Bvh.EmptySpanRepeats | weeknd2/include/bvh.h:32-48 | an empty span takes neither the one- nor the two-object branch, and its left child's span is the same empty span again |
| Bvh.Split | weeknd2/include/bvh.h:40-49 | after selection and the two recursive builds, the span is a permutation of the original, the two halves it returns are the span's final contents below and from mid, every element below mid is at or below every element from mid on, and each child is a tree built over its half and ordered at every split |
| Bvh.SplitBuildComposes | weeknd2/include/bvh.h:44-48 | selection followed by the two in-place sub-builds keeps the whole permutation, the span's permutation and the split |
| Bvh.KeepsBelow | weeknd2/include/bvh.h:47-48 | reordering either half after the split keeps the split |
| Bvh.BuildFromList | weeknd2/include/bvh.h:8-14 | building from a list copies its objects, the node box is the union of all their boxes, and the tree's leaves are the list's objects, each as often as the list holds it |
| Records.UnitGuardAlwaysHolds | weeknd2/include/hittable.h:40-44 | the unit-length guard of set_face_normal holds for every length, so the re-normalisation branch never runs |
| Records.HitRecord.constructor | weeknd2/include/hittable.h:12-23 | a fresh record; the source leaves its fields uninitialised (see Left out), the model fixes them to zero point, normal, t, u, v, a back face and the base material |
| Records.HitRecord.SetPointNormal | weeknd2/include/hittable.h:24-28 | set(p, normal, t) writes those three fields and nothing else |
| Records.HitRecord.SetPointMaterial | weeknd2/include/hittable.h:30-34 | set(p, t, mat) writes those three fields and nothing else |
| Records.HitRecord.SetFaceNormal | weeknd2/include/hittable.h:38-50 | the record is front-facing exactly when the ray runs against the outward normal; the stored normal is the outward one or its negation and always faces the ray; no other field changes |
| Records.HitRecord.CopyFrom | weeknd2/include/hittable.h:90 | rec = tmp_rec copies every field |
| Lists.HittableList.constructor | weeknd2/include/hittable.h:69 | an empty list with the empty box |
| Lists.HittableList.Single | weeknd2/include/hittable.h:70 | a list of one object whose box is that object's box grown from empty |
| Lists.HittableList.Clear | weeknd2/include/hittable.h:72 | clear() empties the objects and keeps the box |
| Lists.HittableList.Add | weeknd2/include/hittable.h:75-78 | add() appends the object and grows the box by its box, keeping the invariant that the box is the union of the boxes added since construction |
| Lists.HittableList.AsHittable | weeknd2/include/hittable.h:97 | the list's box, which encloses every object's box |
| Lists.MinCorner | weeknd3/include/quad.h:116-117 | each coordinate is the smaller of the two corners' |
| Lists.MaxCorner | weeknd3/include/quad.h:118-119 | each coordinate is the larger of the two corners' |
| Lists.CornerInside | weeknd3/include/quad.h:116-123 | a vertex built from min/max coordinates lies in the box of the two corners |
| Lists.FacesAtCorners | weeknd3/include/quad.h:121-136 | the six sides have all four vertices at corners of the box |
| Lists.SideAtCorners | weeknd3/include/quad.h:125-136 | a side whose Q, Q+u, Q+v and Q+u+v are corners is at the corners |
| Lists.FaceInside | weeknd3/include/quad.h:125-136 | a side at the corners lies in the box |
| Lists.SortedCorners | weeknd3/include/quad.h:116-119 | the box of the min and max corners is the box of the two given corners |
| Lists.BoxFacesOnBox | weeknd3/include/quad.h:107-139 | box() builds six sides, each with its four vertices in the box of a and b, with non-negative extents |
| Lists.SideQuad | weeknd3/include/quad.h:125-136 | each side is a quad with the given Q, u, v and material |
| Lists.MakeBox | weeknd3/include/quad.h:107-139 | box() returns a fresh, valid list holding the six sides front, right, back, left, top, bottom |
| Lists.AddSides | weeknd3/include/quad.h:125-136 | six add() calls append the six sides in order and keep the list valid |
| Frames.MakeTranslate | weeknd2/include/hittable.h:104-107 | the instance keeps child and offset; for a padded child box its box is each axis shifted by the offset |
| Frames.MakeMedium | weeknd3/include/medium.h:8-11 | the medium keeps the boundary, an isotropic phase of the texture and the boundary's box, and is well formed for a positive density |
| Frames.MakeMediumFromColor | weeknd3/include/medium.h:13-16 | the colour constructor is the texture constructor with a solid colour |
| Frames.HoldsWiden | weeknd2/include/hittable.h:156-159 | widening the running min/max keeps every point already held |
| Frames.Include | weeknd2/include/hittable.h:156-159 | the per-component fmin/fmax loop holds the tester, only widens the running bounds and makes them finite |
| Frames.IncludeCorner | weeknd2/include/hittable.h:147-159 | after a corner, every corner visited so far is held |
| Frames.MakeRotateY | weeknd2/include/hittable.h:135-165 | the rotated box holds all eight corners of the child's box taken to world space |
| Rotations.RotationsInverse | weeknd2/include/hittable.h:171-195 | for sin^2 + cos^2 = 1 the world-to-object and object-to-world maps invert each other |
| Rotations.RotationAdjoint | weeknd2/include/hittable.h:171-195 | the object-space map is the adjoint of the world-space map |
| Rotations.ToWorldLinear | weeknd2/include/hittable.h:190-195 | the world-space map is linear |
| Rotations.ToObjectZero | weeknd2/include/hittable.h:171-178 | the zero vector stays zero |
| Rotations.RotatedRayPoint | weeknd2/include/hittable.h:171-191 | the world-space image of the rotated ray's point at t is the original ray's point at t |
| Scene.MediumBoxIsBoundaryBox | weeknd3/include/medium.h:61 | a medium reports its boundary's box |
| Scene.HitT | weeknd2/include/hittable.h:57-58 | the t at which hit finds an object without media, defined by cases on the object as each hit below computes it; any such t lies in ray_t |
| Scene.ListT | weeknd2/include/hittable.h:80-95 | the t the list's loop holds after its first n objects, each tried up to the closest hit so far; it lies in ray_t |
| Scene.Hit | weeknd2/include/hittable.h:57-58 | the virtual hit: a miss leaves the record untouched; a hit has t at most ray_t.max, inside ray_t when every medium has positive density; for a tree of surfaces the object is hit exactly when `Scene.HitT` gives a t, the record then holds that t, its point is the ray's point at t, the normal faces the ray, and strictly against it on a front face; a medium runs the corrected hit (see Left out) |
| Scene.ListHit | weeknd2/include/hittable.h:80-95 | the list's loop, each object tried up to the closest hit so far, keeps the same guarantees as Scene.Hit; for surfaces it hits exactly when `Scene.ListT` over all objects gives a t, and records that t |
| Scene.NearestT | weeknd2/include/hittable.h:80-95 | the nearest of the first n objects' hits, each tried on the whole of ray_t; it lies in ray_t |
| Scene.NearestIsMinimum | weeknd2/include/hittable.h:80-95 | the nearest hit exists exactly when one of the objects is hit, is one of their ts and is at or below every one of them |
| Scene.HitTNarrowed | weeknd2/include/hittable.h:85-90 | for a tree without BVH nodes, lowering ray_t.max to b keeps a hit found under b and finds under b every hit below b |
| Scene.NearestNarrowed | weeknd2/include/hittable.h:85-90 | the nearest hit of the first n objects keeps both narrowing properties |
| Scene.ListIsNearest | weeknd2/include/hittable.h:80-95 | for a list without BVH nodes the loop's t, with the bound lowered after every hit, is the nearest hit over the whole of ray_t |
| Scene.ListHitIsNearest | weeknd2/include/hittable.h:80-95 | for a list without BVH nodes, hit reports the closest hit: the list is hit exactly when one object is hit within ray_t, at the t of one of them, at or below the t of every object that is hit |
| Scene.NodeHit | weeknd2/include/bvh.h:54-65 | the node's hit keeps the same guarantees, a ray that misses the node box hits nothing and draws no random number, and for surfaces it hits exactly when `Scene.HitT` gives a t, and records that t |
| Scene.NodeHitsIffEitherChild | weeknd2/include/bvh.h:54-65 | a node is hit exactly when the ray meets its box and the left or the right child is hit within ray_t; its t is at or below the left child's and is the t of the left child or of the right child under the lowered bound |
| Scene.TranslateHit | weeknd2/include/hittable.h:109-122 | hitting the child with the ray moved back by the offset and moving the point forward keeps the same guarantees, and for surfaces records the `Scene.HitT` t |
| Scene.RotateYHit | weeknd2/include/hittable.h:167-198 | hitting the child in object space and rotating point and normal back keeps the same guarantees, and for surfaces records the `Scene.HitT` t |
| Scene.MediumFlight | weeknd3/include/medium.h:18-51 | a free flight needs two boundary hits and a draw that ends before the exit; its t is at most ray_t.max, inside ray_t and not negative for a positive density |
| Scene.MediumHit | weeknd3/include/medium.h:18-59 | as written: a medium hit has the flight's t; the normal is (1, 0, 0), the face is front and the material is the phase function; the point is the ray's point at the t the record held before the call |
| Scene.StaleMediumPoint | weeknd3/include/medium.h:54 | the point at the record's old t differs from the point at the new t whenever the two ts differ and the ray has a direction |
| Scene.MediumHitCorrected | weeknd3/include/medium.h:18-59 | corrected: the same hit, with the point the ray's point at the t the record now holds |
| Scene.ClipSpan | weeknd3/include/medium.h:28-37 | the clipped span is accepted exactly when max(t1, ray_t.min) < min(t2, ray_t.max); the exit is that minimum and the entry that maximum raised to 0 |
| Scene.UnionFoldEncloses | weeknd2/include/hittable.h:75-78 | the box grown object by object encloses its start and every object's box |
| Media.NegInvDensity | weeknd3/include/medium.h:10 | neg_inv_density times the density is -1, and it is negative for a positive density |
| Media.ClampSample | weeknd3/include/medium.h:45 | the clamped sample lies in [1e-6, 1] and is the sample itself when that is already in range |
| Media.HitDistanceNonNegative | weeknd3/include/medium.h:47 | for a positive density the free-flight distance of a clamped sample is never negative, and 0 for a sample of 1 |
| Media.FlightWithinSpan | weeknd3/include/medium.h:50-54 | an accepted flight ends no later than the exit and, for a non-negative distance, no earlier than the entry |
| Spheres.ClampRadius | weeknd2/include/sphere.h:28 | fmax(0, radius) is the radius when it is not negative and 0 otherwise |
| Spheres.MakeStatic | weeknd2/include/sphere.h:26-32 | a stationary sphere: its center ray starts at the given centre with zero direction, so the centre is the same at every time; the radius is max(0, radius), equal to the given one when that is not negative; the material is the given one |
| Spheres.MakeMoving | weeknd2/include/sphere.h:35-43 | a moving sphere: the center ray starts at the first centre with direction centre2 - centre1 and time 0, so it is at the first centre at time 0 and the second at time 1; the radius is max(0, radius), equal to the given one when that is not negative; the material is the given one |
| Spheres.MakeAlongRay | weeknd2/include/sphere.h:45-47 | the center is the given ray and the box is left default (empty) |
| Spheres.CenterMotion | weeknd2/include/sphere.h:26-43 | a static center is the same at every time; a moving one is center_begin at 0 and center_end at 1 |
| Spheres.ComponentsBounded | weeknd2/include/sphere.h:30-31 | every component of an offset of length radius lies in [-radius, radius] |
| Spheres.PointInCenteredBox | weeknd2/include/sphere.h:30-31 | every point of the sphere lies in center +- (radius, radius, radius) |
| Spheres.BoxHoldsSphere | weeknd2/include/sphere.h:26-43 | a static sphere's box holds the sphere; a moving one's holds it at time 0 and at time 1 |
| Spheres.Root | weeknd2/include/sphere.h:51-70 | the chosen root is strictly inside ray_t, and a negative discriminant gives no root |
| Spheres.RootNarrowed | weeknd2/include/sphere.h:62-70 | lowering ray_t.max to b keeps a root found under b and finds under b every root below b, because the nearer root is never above the farther |
| Spheres.OnSphereIffRoot | weeknd2/include/sphere.h:51-54 | the ray's point at s is on the sphere exactly when s solves a s^2 - 2 h s + c = 0 |
| Spheres.Factor | weeknd2/include/sphere.h:62-66 | when q^2 is the discriminant the quadratic factors as a (s - near)(s - far) |
| Spheres.RootRelations | weeknd2/include/sphere.h:62-66 | a near = h - q, a far = h + q and a near far = c |
| Spheres.RootMakesDiscriminantSquare | weeknd2/include/sphere.h:56-60 | a solution makes h^2 - a c a square, so a point on the sphere means the discriminant is not negative |
| Spheres.NearNotAboveFar | weeknd2/include/sphere.h:62-66 | the root tried first is not above the one tried second |
| Spheres.SolutionIsRoot | weeknd2/include/sphere.h:62-66 | the ray's point at s is on the sphere exactly when s is the near or the far root |
| Spheres.RootOnSphere | weeknd2/include/sphere.h:49-79 | a hit lies on the sphere |
| Spheres.RootNearest | weeknd2/include/sphere.h:49-79 | for a nonzero direction, any point of the sphere strictly inside ray_t means a hit, at that point's parameter or nearer |
| Spheres.NegativeDiscriminantMisses | weeknd2/include/sphere.h:56-60 | with a negative discriminant no point of the ray is on the sphere |
| Spheres.Hit | weeknd2/include/sphere.h:49-79 | hit succeeds exactly when a root is found; the record then holds that t, the ray's point at it and the material; with outward = normalize(p - centre at the ray's time), the face is front exactly when the ray's direction has a negative dot product with outward, and the normal is outward on a front face and -outward otherwise, so it faces the ray; a miss leaves the record alone |
| Textures.MakeChecker | weeknd2/include/texture.h:31-33 | the checker stores 1/scale and the two textures |
| Textures.SolidColorConstant | weeknd2/include/texture.h:21-23 | a solid colour gives the same colour at every coordinate |
| Textures.CppRemParity | weeknd2/include/texture.h:44 | C++'s truncating % 2 is 0 exactly for even numbers, negative ones included |
| Textures.CheckerChoice | weeknd2/include/texture.h:39-47 | the checker gives the even texture exactly when the sum of the three floors is even |
| Textures.CheckerAlternates | weeknd2/include/texture.h:39-47 | moving one cell along x swaps the even and the odd texture |
| Colors.Linear2Gamma | weeknd3/src/color.cpp:6-10 | a non-positive component gives 0; a positive one is pow(component, 1/2.2); for a pow that is positive on positive bases, fixes 1 and is monotone (`Colors.IsGammaPow`), a positive component gives a positive result and one in (0, 1] a result in (0, 1] |
| Colors.QuantizeRange | weeknd3/src/color.cpp:13-20 | every byte lies in [0, 255], values at or below 0 give 0 and values at or above 1 give 255, and in between the byte is floor(255 g) |
| Colors.QuantizeMonotone | weeknd3/src/color.cpp:18-20 | quantising is monotone |
| Colors.ChannelByteRange | weeknd3/src/color.cpp:15-20 | a non-positive linear value writes 0; every byte is in [0, 255] |
| CameraV1.NormalizedHeight | weeknd1/include/camera.h:113-116 | the height of a unit direction lies in [-1, 1] |
| CameraV1.SkyBetween | weeknd1/include/camera.h:113-116 | the sky colour is a blend of white and sky blue: white straight down, sky blue straight up, every channel between the two |
| CameraV1.RayColorV1 | weeknd1/include/camera.h:90-117 | a ray past the depth limit is black |
| CameraV1.MulUnit | weeknd1/include/camera.h:90-117 | the product of two colours in [0, 1] is in [0, 1] |
| CameraV1.RayColorV1InUnitRange | weeknd1/include/camera.h:90-117 | when every scatter attenuates by a colour in [0, 1], ray_color is in [0, 1] at every depth |
| CameraV1.PixelInUnitRange | weeknd1/include/camera.h:151-169 | so every pixel render writes, before gamma, is in [0, 1] |
| CameraV2.RayColor | weeknd2/include/camera.h:89-115 | a ray past the depth limit is black |
| CameraV2.ChannelStep | weeknd2/include/camera.h:101-102 | attenuation in [0, 1] times an incoming value bounded for depth k-1, plus an emission up to e, is bounded for depth k |
| CameraV2.DepthCovers | weeknd2/include/camera.h:104-114 | the emission alone and the background alone stay within the depth bound |
| CameraV2.BounceBounded | weeknd2/include/camera.h:101-102 | the per-channel form of CameraV2.ChannelStep |
| CameraV2.RayColorBounded | weeknd2/include/camera.h:89-115 | with attenuations in [0, 1], emissions in [0, e] and a background in [0, b], ray_color is in [0, depth (e + b)] |
| CameraV2.DarkSceneIsBlack | weeknd2/include/camera.h:89-115 | with no emission and a black background every ray is black |
| CameraV2.PixelBounded | weeknd2/include/camera.h:162-178 | so every pixel render writes is in [0, max_depth (e + b)] |
| Cameras.SampleScale | weeknd2/include/camera.h:75 | pixel_sample_scale is positive and times samples_per_pixel gives 1 |
| Cameras.SampleSquare | weeknd2/include/camera.h:135-139 | two draws, each shifted by -0.5, so both offsets lie in [-0.5, 0.5) |
| Cameras.GetRay | weeknd2/include/camera.h:117-133 | a primary ray aims at the pixel sample chosen by the first two draws; without defocus it starts at the centre and takes exactly two draws, plus one for the time; with defocus it starts at the disk point of the first accepted circle candidate after those two draws, every earlier candidate having been rejected, and the position moves past that candidate's two draws and the time draw; the time is the last draw (time 0 in the first version); a None result has consumed all maxTries candidates |
| Cameras.SumBounded | weeknd2/include/camera.h:169-172 | a sum of n colours with channels in [0, hi] has channels in [0, n hi] |
| Cameras.MeanChannel | weeknd2/include/camera.h:175 | a total in [0, n hi] scaled by 1/n is in [0, hi] |
| Cameras.MeanOfTotal | weeknd2/include/camera.h:175 | the per-colour form of Cameras.MeanChannel |
| Cameras.MeanBounded | weeknd2/include/camera.h:169-175 | the mean of colours in [0, hi] is in [0, hi] |
| Cameras.TracedAppend | weeknd2/include/camera.h:169-172 | appending the shade of one more primary ray keeps the samples traced |
| Cameras.SumAppend | weeknd2/include/camera.h:171 | the sum grows by the appended colour |
| Cameras.RenderPixel | weeknd2/include/camera.h:167-175 | a pixel is pixel_sample_scale times the sum of samples_per_pixel shades, each of a primary ray of that pixel, `shade` standing for ray_color without its draws (see Left out) |
| Cameras.RenderRow | weeknd2/include/camera.h:166-176 | a row holds image_width pixels, pixel i being the written estimate of (i, j) |
| Cameras.Render | weeknd2/include/camera.h:162-178 | the image holds image_height rows, row j written left to right as above |
| Cameras.WrittenPixelBounded | weeknd2/include/camera.h:175 | a written pixel whose samples are in [0, hi] is in [0, hi] |
| Common.DegreesToRadiansLinear | weeknd2/include/common.h:28 | 180 degrees are PI radians, and the conversion is additive |
| Common.RandomDouble | weeknd2/include/common.h:30-33 | rand() / (RAND_MAX + 1) lies in [0, 1) |
| Common.RandomDoubleIn | weeknd2/include/common.h:35-38 | random_double(min, max) lies in [min, max), and is min for an empty range |
| Common.Lerp | weeknd2/include/common.h:37 | min + (max - min) u for u in [0, 1) lies in [min, max) |
| Common.Truncate | weeknd2/include/common.h:42 | int() truncates toward zero: down for non-negative values, up for negative ones |
| Common.RandomIntAsWrittenInRange | weeknd2/include/common.h:40-43 | as written, random_int(min, max) is in [min, max] for a non-negative min |
| Common.RandomIntAsWrittenEscapesRange | weeknd2/include/common.h:40-43 | as written, random_int(-5, -2) returns -1 for the draw 1879048192 |
| Common.RandomIntInRange | weeknd2/include/common.h:40-43 | the floor-based random_int is in [min, max] for every min <= max |
| Common.RandomIntAgrees | weeknd2/include/common.h:40-43 | the two agree whenever min is not negative, which covers every call in the tracer |
| Common.RandomUnitVec3Unit | weeknd2/include/common.h:54-58 | random_unit_vec3 is a unit vector, or zero when all three draws give 0 |
| Common.RandomHemisphere | weeknd2/include/common.h:60-63 | the result is the sample or its negation, never against the normal, and is the sample exactly when the sample is strictly on the normal's side |
| Common.NearZeroProperties | weeknd2/include/common.h:65-68 | zero is near zero, negation does not change it, and near zero means every component is below 1e-8 in magnitude |
| Common.ReflectFlipsNormalComponent | weeknd2/include/common.h:71-73 | for a unit normal, reflection negates the component along the normal |
| Common.ReflectInvolution | weeknd2/include/common.h:71-73 | reflecting twice about a unit normal gives the vector back |
| Common.RefractDecomposition | weeknd2/include/common.h:75-82 | the refracted vector is the perpendicular part plus a non-positive multiple of the normal, and the perpendicular part is orthogonal to a unit normal |
| Common.Rng.constructor | weeknd2/include/common.h:30-33 | the draw stream starts at position 0 |
| Common.Rng.DoubleAt | weeknd2/include/common.h:30-33 | the value drawn at a position lies in [0, 1) |
| Common.Rng.UnitAt | weeknd2/include/common.h:54-58 | the vector drawn at a position is unit length or zero |
| Common.Rng.Next | weeknd2/include/common.h:32 | rand() returns the draw at the current position and advances by one |
| Common.Rng.NextDouble | weeknd2/include/common.h:30-33 | random_double() consumes one draw |
| Common.Rng.NextDoubleIn | weeknd2/include/common.h:35-38 | random_double(min, max) consumes one draw and lies in [min, max) |
| Common.Rng.NextUnitVec3 | weeknd2/include/common.h:54-58 | random_unit_vec3() consumes three draws |
| Common.RandomInUnitCircle | weeknd2/include/common.h:84-90 | an accepted point has z = 0, x and y in [-1, 1) and lies strictly inside the unit circle; it is the candidate (`Common.Rng.CircleTry`) built from the last two draws, x before y, taken on some try k < maxTries after exactly 2k + 2 draws, and every earlier candidate lay on or outside the circle (`Common.Rng.CircleRejects`); None means all maxTries candidates were rejected after 2 * maxTries draws |
| Optics.MakeMetal | weeknd2/include/material.h:41-42 | the fuzz is kept below 1 and clamped to 1 from there on |
| Optics.SolidTexture | weeknd2/include/material.h:21 | the colour constructors wrap the colour in a texture that gives it everywhere |
| Optics.RefractionRatio | weeknd2/include/material.h:66 | on the front face the ratio is 1/index, on the back face index, and it is positive for a positive index |
| Optics.Pow5Unit | weeknd2/include/material.h:93 | (1 - cosine)^5 stays in [0, 1], with 0 and 1 fixed |
| Optics.ReflectanceBounds | weeknd2/include/material.h:89-94 | Schlick's reflectance lies between r0 and 1, with r0 in [0, 1): r0 at normal incidence and 1 at grazing incidence |
| Optics.CosTheta | weeknd2/include/material.h:70 | cos_theta is min(-unit . n, 1): at most 1, at most -unit . n, and equal to one of the two |
| Optics.UnitDotBounded | weeknd2/include/material.h:70-71 | the dot product of two unit vectors lies in [-1, 1], so sin_theta is well defined |
| Optics.FrontFaceRefracts | weeknd2/include/material.h:66-73 | entering a medium of index at least 1 through unit vectors never triggers total internal reflection |
| Optics.LambertianDirection | weeknd2/include/material.h:26-29 | the direction is normal + sample unless that is near zero, in which case it is the normal; with a unit normal the result is never near zero, so the scattered ray never degenerates |
| Optics.UnitNotNearZero | weeknd2/include/material.h:26-29 | a unit vector, such as the normal the Lambertian falls back to, is not near zero |
| Optics.ReflectPreservesLength | weeknd2/include/material.h:46 | reflection about a unit normal keeps the length |
| Optics.MirrorMetalScatters | weeknd2/include/material.h:44-52 | a fuzz-0 metal's scatter test succeeds exactly for rays that arrive against the unit normal |
| Optics.ChooseDielectricDirection | weeknd2/include/material.h:68-77 | under total internal reflection the dielectric reflects without a draw; otherwise it draws one random_double and reflects exactly when the reflectance exceeds it, refracting otherwise |
| MaterialsV1.Scatter | weeknd1/include/material.h:4-88 | the base material never scatters, a Lambertian and a dielectric always do, a metal only into the normal's side; the scattered ray starts at the hit point at time 0 with the direction each material's rule gives from the draws it takes, in the source's order |
| MaterialsV2.Emitted | weeknd2/include/material.h:97-104 | a light gives its texture value, every other material black |
| MaterialsV2.Scatter | weeknd2/include/material.h:19-126 | the base material and lights never scatter, Lambertian, dielectric and isotropic always do, a metal only into the normal's side; the ray starts at the hit point at the incoming ray's time, with each material's direction, attenuation and number of draws |
| MaterialsV3.ScatterRecord.constructor | weeknd3/include/material.h:8-15 | a fresh record: black attenuation, no density, direction not determined |
| MaterialsV3.SampleFrom | weeknd3/include/material.h:47-49 | the record is set to sample its direction from the given density |
| MaterialsV3.Determine | weeknd3/include/material.h:79-83 | the record is set to a fixed scattered ray with no density |
| MaterialsV3.Scatter | weeknd3/include/material.h:21-160 | scatter succeeds for every material but the base one and lights, leaving the record alone on failure; a Lambertian samples the cosine density around the normal and an isotropic medium the uniform sphere without drawing, while metal (always accepted in this version) and glass fix the direction from the draws they take |
| MaterialsV3.ScatteringPdf | weeknd3/include/material.h:29-32 | the scattering density is never negative, is 1/(4 pi) for an isotropic medium and 0 for materials without one |
| MaterialsV3.LambertianIsCosineRule | weeknd3/include/material.h:54-63 | the Lambertian scattering density is the cosine density's rule applied against the normal |
| MaterialsV3.LambertianMatchesCosinePdf | weeknd3/include/material.h:45-63 | for a unit normal it equals the cosine density the Lambertian samples from |
| MaterialsV3.IsotropicMatchesSpherePdf | weeknd3/include/material.h:154-166 | the isotropic density equals the sphere density it samples from |
| MaterialsV3.Emitted | weeknd3/include/material.h:138-142 | a light emits its texture value from its front face only, everything else is black |
| Pdfs.MakeCosinePdf | weeknd3/include/pdf.h:25 | the cosine density's basis is built around the normalised normal |
| Pdfs.CosinePdfOrthonormal | weeknd3/include/pdf.h:25 | for a nonzero normal that basis is orthonormal |
| Pdfs.MakeMixture | weeknd3/include/pdf.h:60-61 | the default mix rate is 0.5 |
| Pdfs.Value | weeknd3/include/pdf.h:10 | value() is never negative when every mix rate in the tree is in [0, 1] |
| Pdfs.SphereValueConstant | weeknd3/include/pdf.h:18 | the sphere density is 1/(4 pi) in every direction, which is positive |
| Pdfs.CosineValueSign | weeknd3/include/pdf.h:27-32 | the cosine density is cos/pi on the normal's side and 0 elsewhere, so it is positive exactly on the normal's side |
| Pdfs.MixtureBetween | weeknd3/include/pdf.h:63-66 | a mixture's value lies between the two parts' values |
| Pdfs.MixtureValueIs | weeknd3/include/pdf.h:63-66 | the same, for the two values given by name |
| Pdfs.MixtureDefaultMean | weeknd3/include/pdf.h:60-66 | the default mixture's value is the mean of the two parts' values |
| Pdfs.Generate | weeknd3/include/pdf.h:20-69 | the sphere density generates a unit vector (or zero); the cosine density's direction has the sample's height along w and its length |
| Pdfs.MixtureChooses | weeknd3/include/pdf.h:68-70 | a mixture generates from p0 exactly when its draw is below the mix rate, and from p1 otherwise |
| Pdfs.GeneratedHasDensity | weeknd3/include/pdf.h:10-70 | every direction generate() returns has positive value(): the two halves of each density agree on its support |
| Onbs.HelperAxis | weeknd3/include/onb.h:15 | the helper axis is y when abs(w.x) > 0.9 and x otherwise, and is never parallel to a unit w |
| Onbs.HelperAxisSound | weeknd3/include/onb.h:15 | a unit w with abs(w.x) <= 0.9 has a nonzero y or z, so it is not parallel to x |
| Onbs.MakeOnb | weeknd3/include/onb.h:12-19 | w is the normalised normal, v the normalised w x a and u = w x v, pairwise orthogonal |
| Onbs.CrossLength | weeknd3/include/onb.h:16-18 | Lagrange's identity for the cross product |
| Onbs.OnbOrthonormal | weeknd3/include/onb.h:12-19 | for a nonzero normal the basis is orthonormal and w points along the normal |
| Onbs.TransformAxes | weeknd3/include/onb.h:21-24 | the three unit coordinates map to u, v and w |
| Onbs.TransformLinear | weeknd3/include/onb.h:21-24 | transform is linear |
| Onbs.TransformCoordinates | weeknd3/include/onb.h:21-24 | for an orthonormal basis the coordinates are recovered by dot products with u, v, w, and lengths are kept |
| Onbs.DotCombination | weeknd3/include/onb.h:23 | the dot product distributes over the combination transform computes |
| Quads.MakeQuad | weeknd3/include/quad.h:6-15 | the quad keeps Q, u, v and the material; its normal is the normalised u x v and its area the length of u x v |
| Quads.BoxHoldsVertices | weeknd3/include/quad.h:17-22 | the box of the two diagonals holds all four vertices |
| Quads.Intersect | weeknd3/include/quad.h:49-70 | a plane hit has a direction not parallel to the plane (abs(denom) >= 1e-8), a t inside ray_t and plane coordinates in the unit square |
| Quads.HitOnPlane | weeknd3/include/quad.h:57 | the hit point satisfies the plane equation n . p = D |
| Quads.InverseMeasures | weeknd3/include/quad.h:11 | w = n / (n . n) measures multiples of n exactly |
| Quads.AlphaBetaRecover | weeknd3/include/quad.h:63-67 | the plane coordinates of Q + a u + b v are a and b |
| Quads.NormalOrthogonal | weeknd3/include/quad.h:8-9 | the normal is orthogonal to u and v |
| Quads.PlanePointOnPlane | weeknd3/include/quad.h:8-10 | every point Q + a u + b v satisfies the plane equation |
| Quads.IntersectFinds | weeknd3/include/quad.h:49-70 | a non-parallel ray that meets the quad at Q + a u + b v, a and b in [0, 1], at a t in ray_t is found with exactly that t, a and b |
| Quads.IsInterior | weeknd3/include/quad.h:79-91 | a point is interior exactly when both coordinates are in [0, 1], and then only u and v of the record are set |
| Quads.Hit | weeknd3/include/quad.h:49-77 | hit succeeds exactly when the plane intersection is found; the record then holds its t, the ray's point at it, the coordinates as u and v, and the material; the face is front exactly when the ray's direction has a negative dot product with the quad's normal, and the normal is the quad's normal on a front face and its negation otherwise, so it faces the ray; a miss leaves the record alone |
| Quads.PdfValue | weeknd3/include/quad.h:26-37 | the quad's density is 0 for a direction that misses it from the origin and positive for one that hits it |
| Quads.AreaPositive | weeknd3/include/quad.h:13 | a quad with a nonzero normal has a positive area |
| Quads.PositiveAreaOf | weeknd3/include/quad.h:8-13 | the length of a vector whose normalisation is nonzero is positive |
| Quads.PdfTermsPositive | weeknd3/include/quad.h:33-36 | for a hit, distance_squared, the direction's length, the area and cosine times area are all positive |
| Quads.RandomTowardHits | weeknd3/include/quad.h:39-42 | a direction random() generates hits the quad at t = 1 with the two draws as plane coordinates, so its density is positive |
| PerlinNoise.Range | weeknd3/include/perlin.h:85-86 | the identity table: entry i holds i |
| PerlinNoise.Target | weeknd3/include/perlin.h:93 | random_int(0, i) lies in [0, i] |
| PerlinNoise.ShufflePermutes | weeknd3/include/perlin.h:91-98 | the shuffle is a permutation and leaves the entries above i alone |
| PerlinNoise.ShuffleUsesPrefix | weeknd3/include/perlin.h:92-93 | a shuffle from i uses only the first i draws |
| PerlinNoise.ShuffleStep | weeknd3/include/perlin.h:93-96 | one swap with the drawn target followed by the shuffle of the rest is the shuffle from i |
| PerlinNoise.Shuffled | weeknd3/include/perlin.h:92-97 | the table after the loop has run from n - 1 down to i keeps its length |
| PerlinNoise.ShuffledThenShuffle | weeknd3/include/perlin.h:92-97 | finishing the shuffle from where the loop stands gives the whole shuffle |
| PerlinNoise.ShuffledIsShuffle | weeknd3/include/perlin.h:91-98 | the table the finished loop leaves is the shuffle, and so a permutation |
| PerlinNoise.SwapCells | weeknd3/include/perlin.h:94-96 | the three assignments swap the two cells |
| PerlinNoise.SwapWithTarget | weeknd3/include/perlin.h:93-96 | one iteration swaps cell i with random_int(0, i), here the floor version `Common.RandomInt`, which `Common.RandomIntAgrees` shows equals the source's truncating version for min = 0 |
| PerlinNoise.Permute | weeknd3/include/perlin.h:91-98 | permute(p, n) leaves the shuffle of the old contents, a permutation of them |
| PerlinNoise.PermutationBounds | weeknd3/include/perlin.h:84-89 | a permutation of 0..n-1 has every entry in [0, n) |
| PerlinNoise.GeneratePerm | weeknd3/include/perlin.h:84-89 | the table is the shuffle of 0..255, a permutation of it, so every entry is a valid index into randvec |
| PerlinNoise.LatticeIndex | weeknd3/include/perlin.h:32-33 | (i + d) & 255 lies in [0, 255] and is congruent to i + d modulo 256, for negative cells too |
| PerlinNoise.Hash | weeknd3/include/perlin.h:32-33 | the XOR of three table entries lies in [0, 255] |
| PerlinNoise.HashInjective | weeknd3/include/perlin.h:32-33 | with the other two fixed, the XOR determines the first entry |
| PerlinNoise.Frac | weeknd3/include/perlin.h:19-21 | p - floor(p) lies in [0, 1) and adds back to p |
| PerlinNoise.WeightsInverse | weeknd3/include/perlin.h:43-47 | after n steps the weight is 2^-n, the inverse of the point's scale 2^n, and positive |
| PerlinNoise.Turb | weeknd3/include/perlin.h:38-50 | turb is never negative, 0 for depth <= 0, and otherwise the absolute value of the sum of 2^-i noise(2^i p) |
| PerlinNoise.Perlin.constructor | weeknd3/include/perlin.h:6-16 | the three tables are the shuffles of 0..255 by their own draws, and randvec holds the samples |
| PerlinNoise.Perlin.CornerIndex | weeknd3/include/perlin.h:32-33 | the corner's index into randvec lies in [0, 255] |
| PerlinNoise.Perlin.NoiseCorners | weeknd3/include/perlin.h:18-33 | every one of the eight corners holds randvec at the hashed lattice index of its cell |
| PerlinNoise.Perlin.FillCorners | weeknd3/include/perlin.h:30-33 | the innermost loop fills the two dk corners and leaves the others |
| Vectors.DotSelfNonNegative | weeknd3/include/quad.h:11-13 | v . v is never negative, and zero only for the zero vector |
| Vectors.LengthPositive | weeknd3/include/medium.h:39-51 | the length of a non-zero direction, by which the medium divides the flight distance, is positive |
| Vectors.CrossOrthogonal | weeknd3/include/onb.h:16-18 | a x b is orthogonal to a and to b |
| Vectors.NormalizeIsScaled | weeknd3/include/onb.h:13 | normalize(v) is a scalar multiple of v |
| Vectors.NormalizeUnit | weeknd3/include/onb.h:13 | normalize(v) of a nonzero v has length 1 |

## Left out

- Floating point: every `floating`/`double` is a `real`. Rounding, the float/double switch at weeknd2/include/common.h:9-19, overflow of the integer casts and NaN are not modelled. The exceptions are the slab test's infinities (`ExtReals.Ext`) and a NaN interval size (`Option`).
- sqrt, pow, sin, cos and tan are parameters. sqrt is constrained by `Reals.IsSqrt`, and RotateY's sine and cosine by cos² + sin² = 1. glm's normalize and length are written with that sqrt.
- The standard library's rand() state is a stream of draws in [0, RAND_MAX]. `Common.Rng` reads it one draw at a time. Pure functions take their draws as arguments.
- All stream output is not modelled. This covers the image header, the progress lines on std::clog, and the printing in write_color. Only the clamp-and-quantise part of write_color is modelled.
- Camera::initialize is not modelled. It is viewport set-up through tan and normalize, so the camera's derived fields (pixel00, deltas, defocus disk) are inputs.
- Scene.Hit: a constant medium dispatches to `Scene.MediumHitCorrected`, which sets the point at the t it reports, not to the as-written `Scene.MediumHit`, which sets it at the record's previous t (weeknd3/include/medium.h:54, see Findings). The scene's hit therefore does not reproduce that stale point.
- Scene.Hit: for a tree of surfaces, the per-object normal rule (the outward normal or its negation, by the front-face test) is stated by `Spheres.Hit` and `Quads.Hit`. Across lists, nodes, translations and rotations only its consequences are carried: the normal never points along the ray, and strictly against it on a front face.
- Cameras.SampleSquare, Cameras.GetRay, Common.RandomInUnitCircle, Common.Rng.NextUnitVec3 and Quads.RandomToward: C++ leaves unspecified the order in which the arguments of vec2(random_double() - 0.5, random_double() - 0.5), vec3(random_double(-1, 1), random_double(-1, 1), 0), the three-draw vec3 constructors and Q + random_double() * u + random_double() * v are evaluated. The model fixes left to right (x before y before z, u before v), so which draw lands in which coordinate is one permitted order among several.
- Cameras.GetRay: the defocus-disk sample retries without bound in the source. The model draws at most maxTries candidates and reports None when none lands inside.
- Common.RandomInUnitCircle: the same bounded retry. Termination of the source's loop is only probabilistic.
- Sphere texture coordinates from get_sphere_uv (acos, atan2) are not computed. A sphere hit leaves u and v as the record holds them.
- NoiseTexture and Perlin interpolation are left out; perlin_interp does not appear in perlin.h. PerlinNoise.Turb takes noise as a parameter.
- The commented-out ImageTexture and the scene set-up in both main.cpp files are not modelled.
- Bvh.SelectNth: std::nth_element may leave either side of mid in any order. The model does a partial selection sort, which is one of the orders nth_element may produce. Its contract states only what nth_element promises.
- Bvh.Build requires a non-empty span. With an empty span the source recurses forever (weeknd2/include/bvh.h:41-48).
- Records.HitRecord.constructor: the source's HitRecord has no constructor, so a fresh record's doubles and is_front_face are indeterminate and mat is a null shared_ptr. The model starts them at zero, false and the base material; of the hit members only the as-written `Scene.MediumHit` reads one of them: its point comes from the record's t before the hit, which for a fresh record is this indeterminate value (see Findings). `Scene.Hit` runs the corrected medium hit, which does not read it.
- Scene.ListHitIsNearest and Scene.HitTNarrowed hold for trees without BVH nodes only. A node's box is whatever its builder stored, and nothing in the hit ties it to the children, so lowering the bound can make the ray miss a node's box and lose a nearer hit inside it; the boxes `Bvh.Build` computes enclose the children's boxes, but the model does not prove that a node's box is met by every ray that hits a child inside it, so BVH trees are excluded.
- Scene.HitT gives no t for a medium: a medium's hit draws a random number, so the hit methods state their `Scene.HitT` clauses only for trees of surfaces.
- Pdfs: HittablePDF is modelled over a single quad, the only object the tracer samples toward. random_cosine_direction is a parameter of generate.
- Pdfs.CosinePdfOrthonormal requires a non-zero normal, because normalize of the zero vector is NaN in the source. Pdfs.MakeCosinePdf itself accepts any normal, so for the zero normal the model promises nothing about the basis.
- Cameras.RenderPixel, Cameras.RenderRow and Cameras.Render: `shade` is one fixed function of the ray for the whole image, standing for ray_color. In the source, ray_color draws from the same rand() stream between two get_ray calls (weeknd2/include/camera.h:170-171, weeknd1/include/camera.h:161-162): a Lambertian's or isotropic's random_unit_vec3, a dielectric's random_double and a medium's flight draw. Those draws are not taken from `rng`, so in the model successive primary rays read consecutive draws where the source's read draws spread along the stream, and two samples along the same ray always get the same colour. CameraV1.PixelInUnitRange and CameraV2.PixelBounded likewise fix one hit-and-scatter oracle for every sample of the pixel.
- CameraV1.RayColorV1 and CameraV2.RayColor take the scene hit and the material's scatter as an oracle parameter. This models one ray's path with the draws it uses fixed.
- MaterialsV1.Scatter, MaterialsV2.Scatter and MaterialsV3.Scatter require a dielectric's refraction index to be positive, because the source divides by it. The first renderer's Lambertian albedo is a solid-colour texture.
- Frames.MakeMedium requires a non-zero density, because the source computes -1/density.
- Frames.MakeRotateY requires the child's box to be finite. An infinite bound times sin or cos would be NaN or infinity in the source.
- shared_ptr sharing is modelled as values. A BVH node's left and right children are equal values for a span of one, not one shared object.
- weeknd3/include/hittable.h, weeknd3/include/bvh.h, weeknd3/include/camera.h and weeknd3/include/common.h are not part of this model. The weeknd2 versions are modelled instead.

## Findings

| source | as written | input that shows it | evidently intended | confidence | as-written member | corrected member |
|---|---|---|---|---|---|---|
| weeknd2/include/common.h:40-43 | random_int casts random_double(min, max + 1) to int, which truncates toward zero | min = -5, max = -2 and rand() = 1879048192 give random_double = -1.5, cast to -1 > max | an integer in [min, max] for every min <= max, i.e. floor instead of truncation | not executed | Common.RandomIntAsWrittenEscapesRange | Common.RandomIntInRange |
| weeknd3/include/medium.h:54 | ConstantMedium::hit sets the point to r.at(rec.t) before rec.t is assigned, so the point uses the output record's previous t | a record that held t = 5 from an earlier object, and a flight ending at t = 2 on a ray with direction (1, 0, 0), store the point at 5 with t = 2 | the point r.at(t) at the t being reported | not executed | Scene.MediumHit | Scene.MediumHitCorrected |

One further quirk is modelled as written. The unit-length guard in set_face_normal at weeknd2/include/hittable.h:42 always holds, so the outward normal is never normalised there (`Records.UnitGuardAlwaysHolds`); this changes nothing.
