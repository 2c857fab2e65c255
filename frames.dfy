// The constructors of the frame adapters (Translate, RotateY) and of
// ConstantMedium: each computes the box the object reports.
module Frames {
  import opened ExtReals
  import opened Vectors
  import opened Intervals
  import opened Boxes
  import opened Textures
  import opened MaterialTypes
  import opened Rotations
  import opened Media
  import opened Scene

  /** Translate(object, offset): bbox = object->get_bbox() + offset. For a
      padded child box this is each axis shifted by the offset's component. */
  function MakeTranslate(child: Hittable, offset: Vec3): (h: Hittable)
    ensures h.TranslateObject? && h.child == child && h.offset == offset
    ensures Padded(GetBBox(child)) ==>
      GetBBox(h) == AABB(Shift(GetBBox(child).x, offset.x), Shift(GetBBox(child).y, offset.y), Shift(GetBBox(child).z, offset.z))
  {
    if Padded(GetBBox(child)) then
      TranslateShifts(GetBBox(child), offset);
      TranslateObject(child, offset, Boxes.Translate(GetBBox(child), offset))
    else
      TranslateObject(child, offset, Boxes.Translate(GetBBox(child), offset))
  }

  /** ConstantMedium(boundary, density, tex): the phase function is an
      isotropic material over the texture. */
  function MakeMedium(boundary: Hittable, density: real, tex: Texture): (h: Hittable)
    requires density != 0.0
    ensures h.ConstantMedium? && h.boundary == boundary && h.phase == Isotropic(tex)
    ensures WellFormed(boundary) && density > 0.0 ==> WellFormed(h)
    ensures GetBBox(h) == GetBBox(boundary)
  {
    ConstantMedium(boundary, NegInvDensity(density), Isotropic(tex))
  }

  /** ConstantMedium(boundary, density, albedo): a solid-colour phase. */
  function MakeMediumFromColor(boundary: Hittable, density: real, albedo: Color): (h: Hittable)
    requires density != 0.0
    ensures h == MakeMedium(boundary, density, SolidColor(albedo))
  {
    ConstantMedium(boundary, NegInvDensity(density), Isotropic(SolidColor(albedo)))
  }

  /** Every bound of the box is finite, so its corners are points. */
  predicate Finite(b: AABB) {
    b.x.min.Fin? && b.x.max.Fin? && b.y.min.Fin? && b.y.max.Fin? && b.z.min.Fin? && b.z.max.Fin?
  }

  /** Corner (i, j, k) of the box: i * max + (1 - i) * min on each axis. */
  function Corner(b: AABB, i: int, j: int, k: int): Vec3
    requires Finite(b)
  {
    Vec3(i as real * b.x.max.v + (1 - i) as real * b.x.min.v,
         j as real * b.y.max.v + (1 - j) as real * b.y.min.v,
         k as real * b.z.max.v + (1 - k) as real * b.z.min.v)
  }

  /** The corner taken to world space. */
  function Tester(b: AABB, sinTheta: real, cosTheta: real, i: int, j: int, k: int): Vec3
    requires Finite(b)
  {
    ToWorld(sinTheta, cosTheta, Corner(b, i, j, k))
  }

  /** The running minimum and maximum enclose p on every axis. */
  predicate Holds(mn: seq<Ext>, mx: seq<Ext>, p: Vec3)
    requires |mn| == 3 && |mx| == 3
  {
    forall a :: 0 <= a < 3 ==> Le(mn[a], Fin(Component(p, a))) && Le(Fin(Component(p, a)), mx[a])
  }

  /** Lowering the minima and raising the maxima keeps every point enclosed. */
  lemma HoldsWiden(mn: seq<Ext>, mx: seq<Ext>, mn': seq<Ext>, mx': seq<Ext>, p: Vec3)
    requires |mn| == 3 && |mx| == 3 && |mn'| == 3 && |mx'| == 3
    requires Holds(mn, mx, p)
    requires forall a :: 0 <= a < 3 ==> Le(mn'[a], mn[a]) && Le(mx[a], mx'[a])
    ensures Holds(mn', mx', p)
  {
    forall a | 0 <= a < 3
      ensures Le(mn'[a], Fin(Component(p, a))) && Le(Fin(Component(p, a)), mx'[a])
    {
      LeTransitive(mn'[a], mn[a], Fin(Component(p, a)));
      LeTransitive(Fin(Component(p, a)), mx[a], mx'[a]);
    }
  }

  /** Corner (i, j, k) comes before corner (i', j', k') in the loop order. */
  predicate Before(i: int, j: int, k: int, i': int, j': int, k': int) {
    4 * i + 2 * j + k < 4 * i' + 2 * j' + k'
  }

  /** The min/max update over the three components of one tester. */
  method Include(mn: seq<Ext>, mx: seq<Ext>, tester: Vec3) returns (mn': seq<Ext>, mx': seq<Ext>)
    requires |mn| == 3 && |mx| == 3
    requires forall a :: 0 <= a < 3 ==> mn[a] != NegInf && mx[a] != PosInf
    ensures |mn'| == 3 && |mx'| == 3 && Holds(mn', mx', tester)
    ensures forall a :: 0 <= a < 3 ==> Le(mn'[a], mn[a]) && Le(mx[a], mx'[a])
    ensures forall a :: 0 <= a < 3 ==> mn'[a].Fin? && mx'[a].Fin?
  {
    mn', mx' := mn, mx;
    for a := 0 to 3
      invariant |mn'| == 3 && |mx'| == 3
      invariant forall a' :: 0 <= a' < 3 ==> Le(mn'[a'], mn[a']) && Le(mx[a'], mx'[a'])
      invariant forall a' :: 0 <= a' < 3 ==> mn'[a'] != NegInf && mx'[a'] != PosInf
      invariant forall a' :: 0 <= a' < a ==>
        mn'[a'].Fin? && mx'[a'].Fin? &&
        Le(mn'[a'], Fin(Component(tester, a'))) && Le(Fin(Component(tester, a')), mx'[a'])
    {
      var value := Fin(Component(tester, a));
      LeTransitive(Min(mn'[a], value), mn'[a], mn[a]);
      LeTransitive(mx[a], mx'[a], Max(mx'[a], value));
      mn' := mn'[a := Min(mn'[a], value)];
      mx' := mx'[a := Max(mx'[a], value)];
    }
  }

  /** One pass of the innermost loop: corner (i, j, k) is taken to world
      space and folded into the running minimum and maximum. */
  method IncludeCorner(bbox: AABB, sinTheta: real, cosTheta: real, i: int, j: int, k: int,
                       mn: seq<Ext>, mx: seq<Ext>) returns (mn': seq<Ext>, mx': seq<Ext>)
    requires Finite(bbox) && 0 <= i < 2 && 0 <= j < 2 && 0 <= k < 2
    requires |mn| == 3 && |mx| == 3
    requires forall a :: 0 <= a < 3 ==> mn[a] != NegInf && mx[a] != PosInf
    requires forall i', j', k' :: 0 <= i' < 2 && 0 <= j' < 2 && 0 <= k' < 2 && Before(i', j', k', i, j, k) ==>
      Holds(mn, mx, Tester(bbox, sinTheta, cosTheta, i', j', k'))
    ensures |mn'| == 3 && |mx'| == 3
    ensures forall a :: 0 <= a < 3 ==> mn'[a].Fin? && mx'[a].Fin?
    ensures forall i', j', k' :: 0 <= i' < 2 && 0 <= j' < 2 && 0 <= k' < 2 && Before(i', j', k', i, j, k + 1) ==>
      Holds(mn', mx', Tester(bbox, sinTheta, cosTheta, i', j', k'))
  {
    var x := i as real * bbox.x.max.v + (1 - i) as real * bbox.x.min.v;
    var y := j as real * bbox.y.max.v + (1 - j) as real * bbox.y.min.v;
    var z := k as real * bbox.z.max.v + (1 - k) as real * bbox.z.min.v;
    var newx := cosTheta * x + sinTheta * z;
    var newz := -sinTheta * x + cosTheta * z;
    var tester := Vec3(newx, y, newz);
    assert tester == Tester(bbox, sinTheta, cosTheta, i, j, k);
    mn', mx' := Include(mn, mx, tester);
    forall i', j', k' | 0 <= i' < 2 && 0 <= j' < 2 && 0 <= k' < 2 && Before(i', j', k', i, j, k + 1)
      ensures Holds(mn', mx', Tester(bbox, sinTheta, cosTheta, i', j', k'))
    {
      if Before(i', j', k', i, j, k) {
        HoldsWiden(mn, mx, mn', mx', Tester(bbox, sinTheta, cosTheta, i', j', k'));
      } else {
        assert i' == i && j' == j && k' == k;
      }
    }
  }

  /** RotateY(object, angle) with the sine and cosine given: the box is the
      per-axis envelope of the eight corners of the child's box taken to
      world space. */
  method MakeRotateY(child: Hittable, sinTheta: real, cosTheta: real) returns (h: Hittable)
    requires Finite(GetBBox(child))
    ensures h.RotateYObject? && h.child == child
    ensures h.sinTheta == sinTheta && h.cosTheta == cosTheta
    ensures forall i, j, k :: 0 <= i < 2 && 0 <= j < 2 && 0 <= k < 2 ==>
      InsideClosed(GetBBox(h), Tester(GetBBox(child), sinTheta, cosTheta, i, j, k))
  {
    var bbox := GetBBox(child);
    var mn := [PosInf, PosInf, PosInf];
    var mx := [NegInf, NegInf, NegInf];
    for i := 0 to 2
      invariant |mn| == 3 && |mx| == 3
      invariant forall a :: 0 <= a < 3 ==> mn[a] != NegInf && mx[a] != PosInf
      invariant i > 0 ==> forall a :: 0 <= a < 3 ==> mn[a].Fin? && mx[a].Fin?
      invariant forall i', j', k' :: 0 <= i' < 2 && 0 <= j' < 2 && 0 <= k' < 2 && Before(i', j', k', i, 0, 0) ==>
        Holds(mn, mx, Tester(bbox, sinTheta, cosTheta, i', j', k'))
    {
      for j := 0 to 2
        invariant |mn| == 3 && |mx| == 3
        invariant forall a :: 0 <= a < 3 ==> mn[a] != NegInf && mx[a] != PosInf
        invariant i > 0 || j > 0 ==> forall a :: 0 <= a < 3 ==> mn[a].Fin? && mx[a].Fin?
        invariant forall i', j', k' :: 0 <= i' < 2 && 0 <= j' < 2 && 0 <= k' < 2 && Before(i', j', k', i, j, 0) ==>
          Holds(mn, mx, Tester(bbox, sinTheta, cosTheta, i', j', k'))
      {
        for k := 0 to 2
          invariant |mn| == 3 && |mx| == 3
          invariant forall a :: 0 <= a < 3 ==> mn[a] != NegInf && mx[a] != PosInf
          invariant i > 0 || j > 0 || k > 0 ==> forall a :: 0 <= a < 3 ==> mn[a].Fin? && mx[a].Fin?
          invariant forall i', j', k' :: 0 <= i' < 2 && 0 <= j' < 2 && 0 <= k' < 2 && Before(i', j', k', i, j, k) ==>
            Holds(mn, mx, Tester(bbox, sinTheta, cosTheta, i', j', k'))
        {
          mn, mx := IncludeCorner(bbox, sinTheta, cosTheta, i, j, k, mn, mx);
        }
      }
    }
    var lo := Vec3(mn[0].v, mn[1].v, mn[2].v);
    var hi := Vec3(mx[0].v, mx[1].v, mx[2].v);
    h := RotateYObject(child, sinTheta, cosTheta, FromPoints(lo, hi));
    forall i, j, k | 0 <= i < 2 && 0 <= j < 2 && 0 <= k < 2
      ensures InsideClosed(GetBBox(h), Tester(bbox, sinTheta, cosTheta, i, j, k))
    {
      var p := Tester(bbox, sinTheta, cosTheta, i, j, k);
      assert Before(i, j, k, 2, 0, 0);
      assert Holds(mn, mx, p);
      assert Component(p, 0) == p.x && Component(p, 1) == p.y && Component(p, 2) == p.z;
    }
  }
}
