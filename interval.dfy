// Closed/open ranges of ray parameters (class Interval). The bounds are
// extended reals so that the empty interval (+inf, -inf) and the universe
// (-inf, +inf) are ordinary values.
module Intervals {
  import opened ExtReals
  import opened Wrappers

  datatype Interval = Interval(min: Ext, max: Ext)

  /** Interval(): min = +inf, max = -inf. */
  function Default(): (r: Interval)
    ensures r.min == PosInf && r.max == NegInf
  {
    Interval(PosInf, NegInf)
  }

  /** Interval(min, max) for finite bounds. */
  function Of(lo: real, hi: real): Interval {
    Interval(Fin(lo), Fin(hi))
  }

  const Empty: Interval := Interval(PosInf, NegInf)
  const Universe: Interval := Interval(NegInf, PosInf)
  /** The interval used for scattered rays, to avoid shadow acne. */
  const Positive: Interval := Interval(Fin(0.001), PosInf)

  /** Interval(a, b): the tightest interval enclosing both inputs. */
  function Union(a: Interval, b: Interval): (r: Interval)
    ensures Le(r.min, a.min) && Le(r.min, b.min)
    ensures Le(a.max, r.max) && Le(b.max, r.max)
    ensures (r.min == a.min || r.min == b.min) && (r.max == a.max || r.max == b.max)
  {
    Interval(if Le(a.min, b.min) then a.min else b.min,
             if Le(b.max, a.max) then a.max else b.max)
  }

  /** max - min in extended arithmetic; None where IEEE gives NaN
      (inf - inf of the same sign). */
  function Size(i: Interval): (r: Option<Ext>)
    ensures r.None? <==> (i.min == i.max && !i.min.Fin?)
    ensures i.min.Fin? && i.max.Fin? ==> r == Some(Fin(i.max.v - i.min.v))
  {
    match (i.max, i.min)
    case (Fin(hi), Fin(lo)) => Some(Fin(hi - lo))
    case (PosInf, PosInf) => None
    case (NegInf, NegInf) => None
    case (PosInf, _) => Some(PosInf)
    case (NegInf, _) => Some(NegInf)
    case (Fin(_), PosInf) => Some(NegInf)
    case (Fin(_), NegInf) => Some(PosInf)
  }

  /** Closed membership: min <= x <= max. */
  predicate Contains(i: Interval, x: real) {
    Le(i.min, Fin(x)) && Le(Fin(x), i.max)
  }

  /** Open membership: min < x < max. */
  predicate Surrounds(i: Interval, x: real) {
    Lt(i.min, Fin(x)) && Lt(Fin(x), i.max)
  }

  /** (x < min) ? min : ((x > max) ? max : x) */
  function Clamp(i: Interval, x: real): (r: Ext)
    ensures r == i.min || r == i.max || r == Fin(x)
  {
    if Lt(Fin(x), i.min) then i.min else if Lt(i.max, Fin(x)) then i.max else Fin(x)
  }

  /** Widens by delta/2 at each end. */
  function Expand(i: Interval, delta: real): (r: Interval)
    ensures i.min.Fin? ==> r.min == Fin(i.min.v - delta / 2.0)
    ensures i.max.Fin? ==> r.max == Fin(i.max.v + delta / 2.0)
    ensures !i.min.Fin? ==> r.min == i.min
    ensures !i.max.Fin? ==> r.max == i.max
  {
    Interval(AddReal(i.min, -(delta / 2.0)), AddReal(i.max, delta / 2.0))
  }

  /** ival + displacement */
  function Shift(i: Interval, displacement: real): (r: Interval)
    ensures i.min.Fin? ==> r.min == Fin(i.min.v + displacement)
    ensures i.max.Fin? ==> r.max == Fin(i.max.v + displacement)
    ensures !i.min.Fin? ==> r.min == i.min
    ensures !i.max.Fin? ==> r.max == i.max
  {
    Interval(AddReal(i.min, displacement), AddReal(i.max, displacement))
  }

  /** displacement + ival, defined through the other operand order */
  function ShiftLeft(displacement: real, i: Interval): (r: Interval)
    ensures r == Shift(i, displacement)
  {
    Shift(i, displacement)
  }

  // ---------------------------------------------------------------------
  // Properties

  /** The default interval and the empty singleton coincide and contain
      no value at all. */
  lemma EmptyContainsNothing(x: real)
    ensures Default() == Empty
    ensures !Contains(Empty, x) && !Surrounds(Empty, x)
  {
  }

  /** The universe contains and surrounds every finite value. */
  lemma UniverseContainsAll(x: real)
    ensures Contains(Universe, x) && Surrounds(Universe, x)
  {
  }

  /** Positive = (0.001, +inf): it surrounds exactly the values above
      0.001, contains exactly those from 0.001 on, and so never t = 0. */
  lemma PositiveBounds(t: real)
    ensures Surrounds(Positive, t) <==> t > 0.001
    ensures Contains(Positive, t) <==> t >= 0.001
    ensures !Surrounds(Positive, 0.0) && !Contains(Positive, 0.0)
  {
  }

  /** The union contains every point of either input. */
  lemma UnionContains(a: Interval, b: Interval, x: real)
    requires Contains(a, x) || Contains(b, x)
    ensures Contains(Union(a, b), x)
  {
    var u := Union(a, b);
    if Contains(a, x) {
      LeTransitive(u.min, a.min, Fin(x));
      LeTransitive(Fin(x), a.max, u.max);
    } else {
      LeTransitive(u.min, b.min, Fin(x));
      LeTransitive(Fin(x), b.max, u.max);
    }
  }

  /** The union is the least enclosing interval: anything enclosing both
      inputs encloses the union. */
  lemma UnionLeast(a: Interval, b: Interval, c: Interval)
    requires Le(c.min, a.min) && Le(c.min, b.min)
    requires Le(a.max, c.max) && Le(b.max, c.max)
    ensures Le(c.min, Union(a, b).min) && Le(Union(a, b).max, c.max)
  {
  }

  /** The empty interval is a two-sided identity of the union. */
  lemma UnionEmptyIdentity(a: Interval)
    ensures Union(Empty, a) == a
    ensures Union(a, Empty) == a
  {
  }

  /** Surrounding implies containing; a finite non-empty interval contains
      its bounds but does not surround them. */
  lemma SurroundsImpliesContains(i: Interval, x: real)
    ensures Surrounds(i, x) ==> Contains(i, x)
    ensures i.min == Fin(x) && Le(i.min, i.max) ==> Contains(i, x) && !Surrounds(i, x)
    ensures i.max == Fin(x) && Le(i.min, i.max) ==> Contains(i, x) && !Surrounds(i, x)
  {
  }

  /** For min <= max, the clamped value lies in [min, max], and a
      contained value is returned unchanged. */
  lemma ClampInRange(i: Interval, x: real)
    requires Le(i.min, i.max)
    ensures Le(i.min, Clamp(i, x)) && Le(Clamp(i, x), i.max)
    ensures Contains(i, x) <==> Clamp(i, x) == Fin(x)
  {
    LeTotal(Fin(x), i.min);
    LeTotal(i.max, Fin(x));
    if Lt(Fin(x), i.min) {
    } else if Lt(i.max, Fin(x)) {
      LeTotal(i.min, i.max);
    }
  }

  /** Expanding a finite interval by delta grows its size by exactly delta. */
  lemma ExpandSize(i: Interval, delta: real)
    requires i.min.Fin? && i.max.Fin?
    ensures Size(Expand(i, delta)) == Some(Fin(i.max.v - i.min.v + delta))
  {
  }

  /** Shifting preserves the size, whatever the bounds, and both operand
      orders agree. */
  lemma ShiftSize(i: Interval, d: real)
    ensures Size(Shift(i, d)) == Size(i)
    ensures ShiftLeft(d, i) == Shift(i, d)
  {
  }

  /** Shifting moves membership along with it. */
  lemma ShiftContains(i: Interval, d: real, x: real)
    ensures Contains(Shift(i, d), x + d) <==> Contains(i, x)
    ensures Surrounds(Shift(i, d), x + d) <==> Surrounds(i, x)
  {
  }
}
