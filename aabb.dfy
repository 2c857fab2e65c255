// Axis-aligned bounding boxes (class AABB): one interval per axis, the
// minimum-width padding, the slab test and the longest-axis choice.
module Boxes {
  import opened Reals
  import opened ExtReals
  import opened Wrappers
  import opened Vectors
  import opened Intervals
  import opened Rays

  datatype AABB = AABB(x: Interval, y: Interval, z: Interval)

  /** The narrowest width a padded axis may have. */
  const PadDelta: real := 0.0001

  /** AABB(): three default (empty) intervals. */
  const EmptyBox: AABB := AABB(Default(), Default(), Default())

  /** size() < delta, which is false when the size is NaN. */
  predicate NarrowerThan(i: Interval, delta: real) {
    Size(i).Some? && Lt(Size(i).value, Fin(delta))
  }

  /** One step of pad2minimums: expand an axis narrower than the delta. */
  function PadAxis(i: Interval): Interval {
    if NarrowerThan(i, PadDelta) then Expand(i, PadDelta) else i
  }

  /** pad2minimums, which reassigns the three fields in turn. */
  function PadToMinimums(b: AABB): AABB {
    AABB(PadAxis(b.x), PadAxis(b.y), PadAxis(b.z))
  }

  /** AABB(x, y, z): stores the intervals and pads them. */
  function FromIntervals(x: Interval, y: Interval, z: Interval): AABB {
    PadToMinimums(AABB(x, y, z))
  }

  /** The ordered interval of one axis of AABB(a, b). */
  function Ordered(p: real, q: real): Interval {
    if p <= q then Of(p, q) else Of(q, p)
  }

  /** AABB(a, b): the two points as extrema, in either order; no padding. */
  function FromPoints(a: Vec3, b: Vec3): AABB {
    AABB(Ordered(a.x, b.x), Ordered(a.y, b.y), Ordered(a.z, b.z))
  }

  /** AABB(box0, box1): the per-axis union. */
  function Union(b0: AABB, b1: AABB): AABB {
    AABB(Intervals.Union(b0.x, b1.x), Intervals.Union(b0.y, b1.y), Intervals.Union(b0.z, b1.z))
  }

  /** axis_interval(n): x for 0, y for 1, z for anything else. */
  function AxisInterval(b: AABB, n: int): (r: Interval)
    ensures n == 0 ==> r == b.x
    ensures n == 1 ==> r == b.y
    ensures n == 2 ==> r == b.z
  {
    if n == 0 then b.x else if n == 1 then b.y else b.z
  }

  /** size() > size(), false when either is NaN. */
  predicate Longer(a: Interval, b: Interval) {
    Size(a).Some? && Size(b).Some? && Lt(Size(b).value, Size(a).value)
  }

  function LongestAxis(b: AABB): int {
    if Longer(b.x, b.y) then (if Longer(b.x, b.z) then 0 else 2)
    else (if Longer(b.y, b.z) then 1 else 2)
  }

  /** bbox + offset: each axis shifted, through the padding constructor. */
  function Translate(b: AABB, offset: Vec3): AABB {
    FromIntervals(Shift(b.x, offset.x), Shift(b.y, offset.y), Shift(b.z, offset.z))
  }

  /** offset + bbox, defined through the other operand order. */
  function TranslateLeft(offset: Vec3, b: AABB): AABB {
    Translate(b, offset)
  }

  function GetEmpty(): AABB {
    FromIntervals(Intervals.Empty, Intervals.Empty, Intervals.Empty)
  }

  function GetUniverse(): AABB {
    FromIntervals(Intervals.Universe, Intervals.Universe, Intervals.Universe)
  }

  // ---------------------------------------------------------------------
  // The slab test

  /** A slab parameter: an extended real, or NaN (0 * inf). */
  datatype Param = NaN | Num(e: Ext)

  /** (bound - origin) * (1 / direction). A zero direction component is
      taken as +0, so 1 / direction is +inf. */
  function SlabParam(bound: Ext, o: real, d: real): Param {
    if d != 0.0 then Num(MulReal(AddReal(bound, -o), 1.0 / d))
    else match bound
      case PosInf => Num(PosInf)
      case NegInf => Num(NegInf)
      case Fin(v) => if v - o > 0.0 then Num(PosInf) else if v - o < 0.0 then Num(NegInf) else NaN
  }

  /** a < b on parameters; every comparison with NaN is false. */
  predicate PLt(a: Param, b: Param) {
    a.Num? && b.Num? && Lt(a.e, b.e)
  }

  /** One iteration of the loop in hit, before its emptiness test. */
  function SlabStep(rt: Interval, ax: Interval, o: real, d: real): Interval {
    var t0 := SlabParam(ax.min, o, d);
    var t1 := SlabParam(ax.max, o, d);
    if PLt(t0, t1) then
      Interval(if PLt(Num(rt.min), t0) then t0.e else rt.min,
               if PLt(t1, Num(rt.max)) then t1.e else rt.max)
    else
      Interval(if PLt(Num(rt.min), t1) then t1.e else rt.min,
               if PLt(t0, Num(rt.max)) then t0.e else rt.max)
  }

  /** The ray interval after the first k axes have narrowed it. */
  function Narrowed(b: AABB, r: Ray, rt: Interval, k: nat): Interval
    requires k <= 3
  {
    if k == 0 then rt
    else SlabStep(Narrowed(b, r, rt, k - 1), AxisInterval(b, k - 1),
                  Component(r.orig, k - 1), Component(r.dir, k - 1))
  }

  /** The slab test only ever narrows the interval. */
  lemma SlabStepNarrows(rt: Interval, ax: Interval, o: real, d: real)
    ensures Le(rt.min, SlabStep(rt, ax, o, d).min)
    ensures Le(SlabStep(rt, ax, o, d).max, rt.max)
  {
    LeTotal(rt.min, SlabStep(rt, ax, o, d).min);
    LeTotal(SlabStep(rt, ax, o, d).max, rt.max);
  }

  /** Once max <= min, every further step keeps it so. */
  lemma NarrowedStaysEmpty(b: AABB, r: Ray, rt: Interval, k: nat, m: nat)
    requires k <= m <= 3
    requires Le(Narrowed(b, r, rt, k).max, Narrowed(b, r, rt, k).min)
    ensures Le(Narrowed(b, r, rt, m).max, Narrowed(b, r, rt, m).min)
    decreases m - k
  {
    if k < m {
      var n := Narrowed(b, r, rt, k);
      SlabStepNarrows(n, AxisInterval(b, k), Component(r.orig, k), Component(r.dir, k));
      var n1 := Narrowed(b, r, rt, k + 1);
      LeTransitive(n1.max, n.max, n.min);
      LeTransitive(n1.max, n.min, n1.min);
      NarrowedStaysEmpty(b, r, rt, k + 1, m);
    }
  }

  /** hit: the loop over the three axes, narrowing a local copy of ray_t
      and returning false as soon as max <= min. */
  method Hit(b: AABB, r: Ray, rayT: Interval) returns (hit: bool)
    ensures hit <==> Lt(Narrowed(b, r, rayT, 3).min, Narrowed(b, r, rayT, 3).max)
  {
    var t := rayT;
    for axis := 0 to 3
      invariant t == Narrowed(b, r, rayT, axis)
      invariant axis > 0 ==> Lt(t.min, t.max)
    {
      t := SlabStep(t, AxisInterval(b, axis), Component(r.orig, axis), Component(r.dir, axis));
      if Le(t.max, t.min) {
        NarrowedStaysEmpty(b, r, rayT, axis + 1, 3);
        LeTotal(Narrowed(b, r, rayT, 3).min, Narrowed(b, r, rayT, 3).max);
        return false;
      }
      LeTotal(t.max, t.min);
    }
    return true;
  }

  /** The slab parameter of a bound against a ray parameter t is ordered
      as the bound is against the point o + t * d. */
  lemma SlabParamOrder(bound: Ext, o: real, d: real, t: real)
    requires d != 0.0
    ensures SlabParam(bound, o, d).Num?
    ensures var e := SlabParam(bound, o, d).e; var p := Fin(o + Product(t, d));
      if d > 0.0 then
        (Lt(e, Fin(t)) <==> Lt(bound, p)) && (Lt(Fin(t), e) <==> Lt(p, bound))
      else
        (Lt(e, Fin(t)) <==> Lt(p, bound)) && (Lt(Fin(t), e) <==> Lt(bound, p))
  {
    if bound.Fin? {
      var a := bound.v + -o;
      assert SlabParam(bound, o, d).e == Fin(Product(a, 1.0 / d));
      if d > 0.0 { DividePositive(a, d, t); } else { DivideNegative(a, d, t); }
    }
  }

  /** A point strictly inside a slab at a parameter strictly inside the
      interval keeps that parameter strictly inside after the step. */
  lemma SlabStepKeeps(rt: Interval, ax: Interval, o: real, d: real, t: real)
    requires Surrounds(rt, t) && Surrounds(ax, o + Product(t, d))
    ensures Surrounds(SlabStep(rt, ax, o, d), t)
  {
    var t0 := SlabParam(ax.min, o, d);
    var t1 := SlabParam(ax.max, o, d);
    if d != 0.0 {
      SlabParamOrder(ax.min, o, d, t);
      SlabParamOrder(ax.max, o, d, t);
      if d > 0.0 {
        LtTransitive(t0.e, Fin(t), t1.e);
      } else {
        LtTransitive(t1.e, Fin(t), t0.e);
        LeTotal(t0.e, t1.e);
      }
    } else {
      assert Product(t, d) == 0.0;
    }
  }

  /** Conversely, a parameter strictly inside the narrowed interval was
      strictly inside the old one, and for a slab with min <= max its
      point lies in the closed slab. */
  lemma SlabStepSound(rt: Interval, ax: Interval, o: real, d: real, t: real)
    requires Le(ax.min, ax.max)
    requires Surrounds(SlabStep(rt, ax, o, d), t)
    ensures Surrounds(rt, t)
    ensures Contains(ax, o + Product(t, d))
  {
    var n := SlabStep(rt, ax, o, d);
    SlabStepNarrows(rt, ax, o, d);
    LeLtTransitive(rt.min, n.min, Fin(t));
    LtLeTransitive(Fin(t), n.max, rt.max);
    var t0 := SlabParam(ax.min, o, d);
    var t1 := SlabParam(ax.max, o, d);
    var p := Fin(o + Product(t, d));
    if d != 0.0 {
      SlabParamOrder(ax.min, o, d, t);
      SlabParamOrder(ax.max, o, d, t);
      LeTotal(ax.min, p);
      LeTotal(p, ax.max);
      LeTotal(t0.e, t1.e);
      LeTotal(rt.min, t0.e);
      LeTotal(rt.min, t1.e);
      LeTotal(t0.e, rt.max);
      LeTotal(t1.e, rt.max);
    } else {
      assert Product(t, d) == 0.0;
    }
  }

  lemma LeLtTransitive(a: Ext, b: Ext, c: Ext)
    requires Le(a, b) && Lt(b, c)
    ensures Lt(a, c)
  {
  }

  lemma LtLeTransitive(a: Ext, b: Ext, c: Ext)
    requires Lt(a, b) && Le(b, c)
    ensures Lt(a, c)
  {
  }

  /** The point is strictly inside the box on every axis. */
  predicate StrictlyInside(b: AABB, p: Vec3) {
    Surrounds(b.x, p.x) && Surrounds(b.y, p.y) && Surrounds(b.z, p.z)
  }

  /** The point is inside the closed box on every axis. */
  predicate InsideClosed(b: AABB, p: Vec3) {
    Contains(b.x, p.x) && Contains(b.y, p.y) && Contains(b.z, p.z)
  }

  /** Every axis of the box has min <= max. */
  predicate Ordered3(b: AABB) {
    Le(b.x.min, b.x.max) && Le(b.y.min, b.y.max) && Le(b.z.min, b.z.max)
  }

  lemma AtComponent(r: Ray, t: real, k: int)
    requires 0 <= k < 3
    ensures Component(At(r, t), k) == Component(r.orig, k) + Product(t, Component(r.dir, k))
  {
  }

  /** If the ray is strictly inside the box at a parameter strictly inside
      the interval, the interval stays non-empty through every axis. */
  lemma NarrowedKeeps(b: AABB, r: Ray, rt: Interval, t: real, k: nat)
    requires k <= 3
    requires Surrounds(rt, t) && StrictlyInside(b, At(r, t))
    ensures Surrounds(Narrowed(b, r, rt, k), t)
  {
    if k > 0 {
      NarrowedKeeps(b, r, rt, t, k - 1);
      AtComponent(r, t, k - 1);
      SlabStepKeeps(Narrowed(b, r, rt, k - 1), AxisInterval(b, k - 1),
                    Component(r.orig, k - 1), Component(r.dir, k - 1), t);
    }
  }

  /** Completeness of the slab test: a ray that is strictly inside the
      box at some parameter strictly inside ray_t hits it. */
  lemma HitComplete(b: AABB, r: Ray, rt: Interval, t: real)
    requires Surrounds(rt, t) && StrictlyInside(b, At(r, t))
    ensures Lt(Narrowed(b, r, rt, 3).min, Narrowed(b, r, rt, 3).max)
  {
    NarrowedKeeps(b, r, rt, t, 3);
    var n := Narrowed(b, r, rt, 3);
    LtTransitive(n.min, Fin(t), n.max);
  }

  /** A parameter strictly inside the narrowed interval was strictly
      inside ray_t and puts the ray inside every slab crossed so far. */
  lemma NarrowedSound(b: AABB, r: Ray, rt: Interval, t: real, k: nat)
    requires k <= 3 && Ordered3(b)
    requires Surrounds(Narrowed(b, r, rt, k), t)
    ensures Surrounds(rt, t)
    ensures forall j :: 0 <= j < k ==> Contains(AxisInterval(b, j), Component(At(r, t), j))
  {
    if k > 0 {
      var ax := AxisInterval(b, k - 1);
      SlabStepSound(Narrowed(b, r, rt, k - 1), ax,
                    Component(r.orig, k - 1), Component(r.dir, k - 1), t);
      AtComponent(r, t, k - 1);
      NarrowedSound(b, r, rt, t, k - 1);
    }
  }

  /** Soundness of the slab test for a box with min <= max on every axis:
      any parameter strictly inside the final interval lies strictly
      inside ray_t and puts the ray inside the closed box. */
  lemma HitSound(b: AABB, r: Ray, rt: Interval, t: real)
    requires Ordered3(b)
    requires Surrounds(Narrowed(b, r, rt, 3), t)
    ensures Surrounds(rt, t) && InsideClosed(b, At(r, t))
  {
    NarrowedSound(b, r, rt, t, 3);
    assert Contains(AxisInterval(b, 0), Component(At(r, t), 0));
    assert Contains(AxisInterval(b, 1), Component(At(r, t), 1));
    assert Contains(AxisInterval(b, 2), Component(At(r, t), 2));
  }

  /** A non-empty open interval has an interior point. */
  lemma InteriorPoint(i: Interval) returns (t: real)
    requires Lt(i.min, i.max)
    ensures Surrounds(i, t)
  {
    match (i.min, i.max)
    case (Fin(lo), Fin(hi)) => t := (lo + hi) / 2.0;
    case (Fin(lo), _) => t := lo + 1.0;
    case (_, Fin(hi)) => t := hi - 1.0;
    case (_, _) => t := 0.0;
  }

  /** So a hit on a box with min <= max on every axis means the ray meets
      the closed box at some parameter strictly inside ray_t. */
  lemma HitWitness(b: AABB, r: Ray, rt: Interval) returns (t: real)
    requires Ordered3(b)
    requires Lt(Narrowed(b, r, rt, 3).min, Narrowed(b, r, rt, 3).max)
    ensures Surrounds(rt, t) && InsideClosed(b, At(r, t))
  {
    t := InteriorPoint(Narrowed(b, r, rt, 3));
    HitSound(b, r, rt, t);
  }

  /** The empty box (+inf, -inf on every axis) never narrows ray_t: its
      entry parameter is -inf and its exit +inf, so every ray with a
      non-empty ray_t hits it. */
  lemma EmptyBoxNeverNarrows(r: Ray, rt: Interval)
    ensures Narrowed(EmptyBox, r, rt, 3) == rt
  {
    EmptyAxisNeverNarrows(r, rt, 3);
  }

  lemma EmptyAxisNeverNarrows(r: Ray, rt: Interval, k: nat)
    requires k <= 3
    ensures Narrowed(EmptyBox, r, rt, k) == rt
  {
    if k > 0 {
      EmptyAxisNeverNarrows(r, rt, k - 1);
      var d := Component(r.dir, k - 1);
      var o := Component(r.orig, k - 1);
      if d != 0.0 {
        assert SlabParam(PosInf, o, d) == Num(if d > 0.0 then PosInf else NegInf);
        assert SlabParam(NegInf, o, d) == Num(if d > 0.0 then NegInf else PosInf);
      }
    }
  }

  // ---------------------------------------------------------------------
  // Construction

  /** Padding an axis narrower than the delta widens it by exactly the
      delta and keeps it enclosing the original; wider axes (and axes
      whose size is NaN) are untouched. */
  lemma PadAxisEffect(i: Interval)
    ensures !NarrowerThan(i, PadDelta) ==> PadAxis(i) == i
    ensures NarrowerThan(i, PadDelta) && i.min.Fin? && i.max.Fin? ==>
      Size(PadAxis(i)) == Some(Fin(i.max.v - i.min.v + PadDelta)) &&
      Lt(PadAxis(i).min, i.min) && Lt(i.max, PadAxis(i).max)
  {
    if NarrowerThan(i, PadDelta) && i.min.Fin? && i.max.Fin? {
      ExpandSize(i, PadDelta);
    }
  }

  /** Padding keeps the empty box empty and the universe universal. */
  lemma SingletonsUnpadded()
    ensures GetEmpty() == EmptyBox
    ensures GetUniverse() == AABB(Intervals.Universe, Intervals.Universe, Intervals.Universe)
  {
    assert Size(Intervals.Empty) == Some(NegInf);
    assert Size(Intervals.Universe) == Some(PosInf);
  }

  /** The point-pair constructor orders each axis, does not depend on the
      order of the points, encloses both, and does not pad: equal
      coordinates give a zero-width axis. */
  lemma FromPointsProperties(a: Vec3, b: Vec3)
    ensures FromPoints(a, b) == FromPoints(b, a)
    ensures Ordered3(FromPoints(a, b))
    ensures InsideClosed(FromPoints(a, b), a) && InsideClosed(FromPoints(a, b), b)
    ensures FromPoints(a, a) == AABB(Of(a.x, a.x), Of(a.y, a.y), Of(a.z, a.z))
  {
  }

  /** The point-pair box is the least box enclosing both points. */
  lemma FromPointsLeast(a: Vec3, b: Vec3, c: AABB)
    requires InsideClosed(c, a) && InsideClosed(c, b)
    ensures Encloses(c, FromPoints(a, b))
  {
  }

  /** outer contains inner on every axis (bound-wise). */
  predicate Encloses(outer: AABB, inner: AABB) {
    EnclosesAxis(outer.x, inner.x) && EnclosesAxis(outer.y, inner.y) && EnclosesAxis(outer.z, inner.z)
  }

  predicate EnclosesAxis(outer: Interval, inner: Interval) {
    Le(outer.min, inner.min) && Le(inner.max, outer.max)
  }

  /** The union box encloses both input boxes, and so every point of
      either. */
  lemma UnionEncloses(b0: AABB, b1: AABB, p: Vec3)
    ensures Encloses(Union(b0, b1), b0) && Encloses(Union(b0, b1), b1)
    ensures InsideClosed(b0, p) || InsideClosed(b1, p) ==> InsideClosed(Union(b0, b1), p)
  {
    if InsideClosed(b0, p) || InsideClosed(b1, p) {
      UnionContains(b0.x, b1.x, p.x);
      UnionContains(b0.y, b1.y, p.y);
      UnionContains(b0.z, b1.z, p.z);
    }
  }

  /** Enclosure is transitive, so enclosing a union encloses its parts. */
  lemma EnclosesTransitive(a: AABB, b: AABB, c: AABB)
    requires Encloses(a, b) && Encloses(b, c)
    ensures Encloses(a, c)
  {
  }

  /** A box whose every axis is at least the padding width (or has no
      finite size) is left alone by padding. */
  predicate Padded(b: AABB) {
    !NarrowerThan(b.x, PadDelta) && !NarrowerThan(b.y, PadDelta) && !NarrowerThan(b.z, PadDelta)
  }

  /** Translating a padded box shifts each axis interval by the matching
      component of the offset, and keeps it padded; both operand orders
      agree. */
  lemma TranslateShifts(b: AABB, offset: Vec3)
    requires Padded(b)
    ensures Translate(b, offset) == AABB(Shift(b.x, offset.x), Shift(b.y, offset.y), Shift(b.z, offset.z))
    ensures Padded(Translate(b, offset))
    ensures TranslateLeft(offset, b) == Translate(b, offset)
  {
    ShiftSize(b.x, offset.x);
    ShiftSize(b.y, offset.y);
    ShiftSize(b.z, offset.z);
  }

  /** Every box built by the padding constructor is padded, when its
      axes are finite. */
  lemma FromIntervalsPadded(x: Interval, y: Interval, z: Interval)
    requires x.min.Fin? && x.max.Fin? && x.min.v <= x.max.v
    requires y.min.Fin? && y.max.Fin? && y.min.v <= y.max.v
    requires z.min.Fin? && z.max.Fin? && z.min.v <= z.max.v
    ensures Padded(FromIntervals(x, y, z))
  {
    PadAxisEffect(x);
    PadAxisEffect(y);
    PadAxisEffect(z);
  }

  /** The size of an axis as an extended real, when it is not NaN. */
  function SizeOf(i: Interval): Ext
    requires Size(i).Some?
  {
    Size(i).value
  }

  /** longest_axis: an index in {0, 1, 2} whose size is maximal; x wins
      only when strictly longer than both, y only when strictly longer
      than z, and every tie goes to the higher index. */
  lemma LongestAxisMaximal(b: AABB)
    requires Size(b.x).Some? && Size(b.y).Some? && Size(b.z).Some?
    ensures 0 <= LongestAxis(b) <= 2
    ensures var l := AxisInterval(b, LongestAxis(b));
      Le(SizeOf(b.x), SizeOf(l)) && Le(SizeOf(b.y), SizeOf(l)) && Le(SizeOf(b.z), SizeOf(l))
    ensures LongestAxis(b) == 0 <==> Lt(SizeOf(b.y), SizeOf(b.x)) && Lt(SizeOf(b.z), SizeOf(b.x))
    ensures LongestAxis(b) == 1 <==>
      !Lt(SizeOf(b.y), SizeOf(b.x)) && Lt(SizeOf(b.z), SizeOf(b.y))
  {
    var sx, sy, sz := SizeOf(b.x), SizeOf(b.y), SizeOf(b.z);
    LeTotal(sx, sy);
    LeTotal(sx, sz);
    LeTotal(sy, sz);
    if Lt(sy, sx) && !Lt(sz, sx) {
      LtLeTransitive(sy, sx, sz);
    }
    if !Lt(sy, sx) && !Lt(sz, sy) {
      LeTransitive(sx, sy, sz);
    }
  }
}
