// HittableList as a mutable object (its add and clear change the object
// vector and the box in place), and the six-sided box built from quads.
module Lists {
  import opened Vectors
  import opened Boxes
  import opened MaterialTypes
  import opened Scene
  import Quads

  class HittableList {
    var objects: seq<Hittable>
    var bbox: AABB

    /** The box is the union of the boxes of the objects, grown from AABB(). */
    ghost predicate Valid()
      reads this
    {
      bbox == UnionFold(EmptyBox, objects)
    }

    /** HittableList(): no objects, the default (empty) box. */
    constructor()
      ensures objects == [] && bbox == EmptyBox && Valid()
    {
      objects := [];
      bbox := EmptyBox;
    }

    /** HittableList(member): add(member) on an empty list. */
    constructor Single(member: Hittable)
      ensures objects == [member] && bbox == Boxes.Union(EmptyBox, GetBBox(member)) && Valid()
    {
      objects := [member];
      bbox := Boxes.Union(EmptyBox, GetBBox(member));
      new;
      assert objects[..0] == [];
    }

    /** clear(): drops the objects but, as the source does, keeps the box
        of the objects it had, so Valid() no longer holds after clearing a
        list whose box had grown: an empty list then reports a non-empty
        box. */
    method Clear()
      modifies this
      ensures objects == [] && bbox == old(bbox)
    {
      objects := [];
    }

    /** add(member): appends the member and grows the box by its box. */
    method Add(member: Hittable)
      modifies this
      ensures objects == old(objects) + [member]
      ensures bbox == Boxes.Union(old(bbox), GetBBox(member))
      ensures old(Valid()) ==> Valid()
    {
      objects := objects + [member];
      bbox := Boxes.Union(bbox, GetBBox(member));
      assert objects[..|objects| - 1] == old(objects);
    }

    /** The list as a hittable: its hit is the closest-hit loop over the
        objects, and its get_bbox the stored box. */
    function AsHittable(): (h: Hittable)
      reads this
      ensures GetBBox(h) == bbox
      ensures Valid() ==> forall i :: 0 <= i < |objects| ==> Encloses(GetBBox(h), GetBBox(objects[i]))
    {
      UnionFoldEncloses(EmptyBox, objects);
      ListObject(objects, bbox)
    }
  }

  /** fmin / fmax of the two corners, axis by axis. */
  function MinCorner(a: Vec3, b: Vec3): (m: Vec3)
    ensures m.x <= a.x && m.x <= b.x && (m.x == a.x || m.x == b.x)
    ensures m.y <= a.y && m.y <= b.y && (m.y == a.y || m.y == b.y)
    ensures m.z <= a.z && m.z <= b.z && (m.z == a.z || m.z == b.z)
  {
    Vec3(if a.x <= b.x then a.x else b.x, if a.y <= b.y then a.y else b.y, if a.z <= b.z then a.z else b.z)
  }

  function MaxCorner(a: Vec3, b: Vec3): (m: Vec3)
    ensures m.x >= a.x && m.x >= b.x && (m.x == a.x || m.x == b.x)
    ensures m.y >= a.y && m.y >= b.y && (m.y == a.y || m.y == b.y)
    ensures m.z >= a.z && m.z >= b.z && (m.z == a.z || m.z == b.z)
  {
    Vec3(if a.x >= b.x then a.x else b.x, if a.y >= b.y then a.y else b.y, if a.z >= b.z then a.z else b.z)
  }

  /** The anchor and the two edges of one side. */
  datatype Face = Face(q: Vec3, u: Vec3, v: Vec3)

  /** The six sides of box(a, b): front, right, back, left, top, bottom,
      each an anchor and two edges among dx, dy, dz and their negations. */
  function BoxFaces(a: Vec3, b: Vec3): seq<Face> {
    FacesBetween(MinCorner(a, b), MaxCorner(a, b))
  }

  /** The six sides between the minimum and maximum corners. */
  function FacesBetween(lo: Vec3, hi: Vec3): seq<Face> {
    var dx := Vec3(hi.x - lo.x, 0.0, 0.0);
    var dy := Vec3(0.0, hi.y - lo.y, 0.0);
    var dz := Vec3(0.0, 0.0, hi.z - lo.z);
    [ Face(Vec3(lo.x, lo.y, hi.z), dx, dy),
      Face(Vec3(hi.x, lo.y, hi.z), Neg(dz), dy),
      Face(Vec3(hi.x, lo.y, lo.z), Neg(dx), dy),
      Face(Vec3(lo.x, lo.y, lo.z), dz, dy),
      Face(Vec3(lo.x, hi.y, hi.z), dx, Neg(dz)),
      Face(Vec3(lo.x, lo.y, lo.z), dx, dz) ]
  }

  /** The four vertices of a side. */
  predicate VerticesIn(box: AABB, f: Face) {
    InsideClosed(box, f.q) && InsideClosed(box, Add(f.q, f.u)) &&
    InsideClosed(box, Add(f.q, f.v)) && InsideClosed(box, Add(Add(f.q, f.u), f.v))
  }

  /** Every coordinate of p is the matching coordinate of lo or of hi. */
  predicate AtCorner(lo: Vec3, hi: Vec3, p: Vec3) {
    (p.x == lo.x || p.x == hi.x) && (p.y == lo.y || p.y == hi.y) && (p.z == lo.z || p.z == hi.z)
  }

  lemma CornerInside(lo: Vec3, hi: Vec3, p: Vec3)
    requires lo.x <= hi.x && lo.y <= hi.y && lo.z <= hi.z && AtCorner(lo, hi, p)
    ensures InsideClosed(FromPoints(lo, hi), p)
  {
  }

  /** The four vertices of a side are corners of the box. */
  predicate FaceAtCorners(lo: Vec3, hi: Vec3, f: Face) {
    AtCorner(lo, hi, f.q) && AtCorner(lo, hi, Add(f.q, f.u)) &&
    AtCorner(lo, hi, Add(f.q, f.v)) && AtCorner(lo, hi, Add(Add(f.q, f.u), f.v))
  }

  lemma FacesAtCorners(lo: Vec3, hi: Vec3)
    ensures |FacesBetween(lo, hi)| == 6
    ensures FaceAtCorners(lo, hi, FacesBetween(lo, hi)[0]) && FaceAtCorners(lo, hi, FacesBetween(lo, hi)[1])
    ensures FaceAtCorners(lo, hi, FacesBetween(lo, hi)[2]) && FaceAtCorners(lo, hi, FacesBetween(lo, hi)[3])
    ensures FaceAtCorners(lo, hi, FacesBetween(lo, hi)[4]) && FaceAtCorners(lo, hi, FacesBetween(lo, hi)[5])
  {
    var fs := FacesBetween(lo, hi);
    var dx := Vec3(hi.x - lo.x, 0.0, 0.0);
    var dy := Vec3(0.0, hi.y - lo.y, 0.0);
    var dz := Vec3(0.0, 0.0, hi.z - lo.z);
    SideAtCorners(lo, hi, fs[0], Vec3(lo.x, lo.y, hi.z), dx, dy);
    SideAtCorners(lo, hi, fs[1], Vec3(hi.x, lo.y, hi.z), Neg(dz), dy);
    SideAtCorners(lo, hi, fs[2], Vec3(hi.x, lo.y, lo.z), Neg(dx), dy);
    SideAtCorners(lo, hi, fs[3], Vec3(lo.x, lo.y, lo.z), dz, dy);
    SideAtCorners(lo, hi, fs[4], Vec3(lo.x, hi.y, hi.z), dx, Neg(dz));
    SideAtCorners(lo, hi, fs[5], Vec3(lo.x, lo.y, lo.z), dx, dz);
  }

  /** A side anchored at a corner whose edges each run along one axis
      from lo to hi or back has its four vertices at corners. */
  lemma SideAtCorners(lo: Vec3, hi: Vec3, f: Face, q: Vec3, u: Vec3, v: Vec3)
    requires f == Face(q, u, v) && AtCorner(lo, hi, q)
    requires AtCorner(lo, hi, Add(q, u)) && AtCorner(lo, hi, Add(q, v))
    requires AtCorner(lo, hi, Add(Add(q, u), v))
    ensures FaceAtCorners(lo, hi, f)
  {
  }

  lemma FaceInside(lo: Vec3, hi: Vec3, f: Face)
    requires lo.x <= hi.x && lo.y <= hi.y && lo.z <= hi.z && FaceAtCorners(lo, hi, f)
    ensures VerticesIn(FromPoints(lo, hi), f)
  {
    CornerInside(lo, hi, f.q);
    CornerInside(lo, hi, Add(f.q, f.u));
    CornerInside(lo, hi, Add(f.q, f.v));
    CornerInside(lo, hi, Add(Add(f.q, f.u), f.v));
  }

  /** The box of the two corners is the box of their minimum and maximum. */
  lemma SortedCorners(a: Vec3, b: Vec3)
    ensures FromPoints(a, b) == FromPoints(MinCorner(a, b), MaxCorner(a, b))
  {
  }

  /** box(a, b) has six sides, each spanning a face of the box with corners
      a and b: every vertex of every side lies in that box, and the edge
      lengths dx, dy, dz are not negative. */
  lemma BoxFacesOnBox(a: Vec3, b: Vec3)
    ensures |BoxFaces(a, b)| == 6
    ensures forall f :: f in BoxFaces(a, b) ==> VerticesIn(FromPoints(a, b), f)
    ensures MaxCorner(a, b).x - MinCorner(a, b).x >= 0.0
    ensures MaxCorner(a, b).y - MinCorner(a, b).y >= 0.0
    ensures MaxCorner(a, b).z - MinCorner(a, b).z >= 0.0
  {
    var lo, hi := MinCorner(a, b), MaxCorner(a, b);
    SortedCorners(a, b);
    var fs := FacesBetween(lo, hi);
    assert BoxFaces(a, b) == fs;
    FacesAtCorners(lo, hi);
    forall f | f in fs
      ensures VerticesIn(FromPoints(lo, hi), f)
    {
      assert f == fs[0] || f == fs[1] || f == fs[2] || f == fs[3] || f == fs[4] || f == fs[5];
      FaceInside(lo, hi, f);
    }
  }

  /** The quad of a side, with the box's material. */
  function SideQuad(f: Face, mat: Material, sqrt: real -> real): (quad: Quads.Quad)
    ensures quad.q == f.q && quad.u == f.u && quad.v == f.v && quad.mat == mat
  {
    Quads.MakeQuad(f.q, f.u, f.v, mat, sqrt)
  }

  /** The six quads of box(a, b, mat), in the order they are added. */
  function BoxSides(a: Vec3, b: Vec3, mat: Material, sqrt: real -> real): seq<Hittable> {
    var fs := BoxFaces(a, b);
    [QuadObject(SideQuad(fs[0], mat, sqrt)), QuadObject(SideQuad(fs[1], mat, sqrt)),
     QuadObject(SideQuad(fs[2], mat, sqrt)), QuadObject(SideQuad(fs[3], mat, sqrt)),
     QuadObject(SideQuad(fs[4], mat, sqrt)), QuadObject(SideQuad(fs[5], mat, sqrt))]
  }

  /** box(a, b, mat): a fresh list and the six sides added to it. */
  method MakeBox(a: Vec3, b: Vec3, mat: Material, sqrt: real -> real) returns (sides: HittableList)
    ensures fresh(sides) && sides.Valid()
    ensures sides.objects == BoxSides(a, b, mat, sqrt)
  {
    sides := new HittableList();
    AddSides(sides, BoxSides(a, b, mat, sqrt));
  }

  /** Appending six members one at a time appends the six of them. */
  lemma AppendSix(before: seq<Hittable>, all: seq<Hittable>)
    requires |all| == 6
    ensures before + [all[0]] + [all[1]] + [all[2]] + [all[3]] + [all[4]] + [all[5]] == before + all
  {
    assert all == [all[0], all[1], all[2], all[3], all[4], all[5]];
  }

  /** The six add calls of box, in order. */
  method AddSides(sides: HittableList, all: seq<Hittable>)
    requires |all| == 6
    modifies sides
    ensures sides.objects == old(sides.objects) + all
    ensures old(sides.Valid()) ==> sides.Valid()
  {
    AppendSix(sides.objects, all);
    sides.Add(all[0]);
    sides.Add(all[1]);
    sides.Add(all[2]);
    sides.Add(all[3]);
    sides.Add(all[4]);
    sides.Add(all[5]);
  }
}
