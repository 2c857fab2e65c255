// HitRecord: the mutable record a hit test fills in.
module Records {
  import opened Vectors
  import opened Rays
  import opened MaterialTypes

  /** For every real length L, L - 1 < 1e-3 or 1 - L < 1e-3: the
      re-normalisation guard of set_face_normal never fires. */
  lemma UnitGuardAlwaysHolds(len: real)
    ensures (len - 1.0) < 1e-3 || (1.0 - len) < 1e-3
  {
  }

  class HitRecord {
    var p: Vec3
    var normal: Vec3
    var t: real
    var isFrontFace: bool
    var u: real
    var v: real
    var mat: Material

    /** A default-constructed record (the source leaves it uninitialised). */
    constructor()
      ensures t == 0.0 && p == Zero && normal == Zero && !isFrontFace
      ensures u == 0.0 && v == 0.0 && mat == BaseMaterial
    {
      p, normal, t, isFrontFace := Zero, Zero, 0.0, false;
      u, v, mat := 0.0, 0.0, BaseMaterial;
    }

    /** set(p, normal, t) */
    method SetPointNormal(p': Vec3, normal': Vec3, t': real)
      modifies this
      ensures p == p' && normal == normal' && t == t'
      ensures isFrontFace == old(isFrontFace) && u == old(u) && v == old(v) && mat == old(mat)
    {
      p, normal, t := p', normal', t';
    }

    /** set(p, t, mat) */
    method SetPointMaterial(p': Vec3, t': real, mat': Material)
      modifies this
      ensures p == p' && t == t' && mat == mat'
      ensures normal == old(normal) && isFrontFace == old(isFrontFace) && u == old(u) && v == old(v)
    {
      p, t, mat := p', t', mat';
    }

    function FrontFace(): bool
      reads this
    {
      isFrontFace
    }

    /** set_face_normal: the front face is the side the ray comes from, and
        the stored normal always points against the ray. */
    method SetFaceNormal(r: Ray, outward: Vec3, sqrt: real -> real)
      modifies this
      ensures isFrontFace <==> Dot(r.dir, outward) < 0.0
      ensures normal == (if isFrontFace then outward else Neg(outward))
      ensures Dot(r.dir, normal) <= 0.0
      ensures p == old(p) && t == old(t) && u == old(u) && v == old(v) && mat == old(mat)
    {
      var normalLength := Dot(outward, outward);
      var outwardNormal := outward;
      UnitGuardAlwaysHolds(normalLength);
      if !((normalLength - 1.0) < 1e-3 || (1.0 - normalLength) < 1e-3) {
        outwardNormal := Normalize(outward, sqrt);
      }
      isFrontFace := Dot(r.dir, outwardNormal) < 0.0;
      normal := if isFrontFace then outwardNormal else Neg(outwardNormal);
    }

    /** rec = other */
    method CopyFrom(other: HitRecord)
      modifies this
      ensures p == other.p && normal == other.normal && t == other.t
      ensures isFrontFace == other.isFrontFace && u == other.u && v == other.v && mat == other.mat
    {
      p, normal, t, isFrontFace := other.p, other.normal, other.t, other.isFrontFace;
      u, v, mat := other.u, other.v, other.mat;
    }
  }
}
