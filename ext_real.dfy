// Extended reals: the doubles of the renderer restricted to finite values
// and the two infinities. NaN is not a value of this type; the places where
// the source could produce one are handled where they occur.
module ExtReals {
  import opened Reals

  datatype Ext = NegInf | Fin(v: real) | PosInf

  predicate Lt(a: Ext, b: Ext) {
    match (a, b)
    case (NegInf, NegInf) => false
    case (NegInf, _) => true
    case (Fin(x), Fin(y)) => x < y
    case (Fin(_), PosInf) => true
    case (Fin(_), NegInf) => false
    case (PosInf, _) => false
  }

  predicate Le(a: Ext, b: Ext) {
    a == b || Lt(a, b)
  }

  /** x < e for a finite x */
  predicate RealLt(x: real, e: Ext) { Lt(Fin(x), e) }
  /** e < x for a finite x */
  predicate LtReal(e: Ext, x: real) { Lt(e, Fin(x)) }

  function Min(a: Ext, b: Ext): (r: Ext)
    ensures Le(r, a) && Le(r, b) && (r == a || r == b)
  {
    if Le(a, b) then a else b
  }

  function Max(a: Ext, b: Ext): (r: Ext)
    ensures Le(a, r) && Le(b, r) && (r == a || r == b)
  {
    if Le(b, a) then a else b
  }

  /** e + d for a finite d: an infinity absorbs any finite addend */
  function AddReal(e: Ext, d: real): (r: Ext)
    ensures e.Fin? <==> r.Fin?
    ensures e.Fin? ==> r.v == e.v + d
  {
    match e
    case Fin(x) => Fin(x + d)
    case _ => e
  }

  /** e * k for a finite, nonzero k: a negative factor swaps the infinities */
  function MulReal(e: Ext, k: real): (r: Ext)
    requires k != 0.0
    ensures e.Fin? <==> r.Fin?
    ensures e.Fin? ==> r.v == Product(e.v, k)
  {
    match e
    case Fin(x) => Fin(Product(x, k))
    case PosInf => if k > 0.0 then PosInf else NegInf
    case NegInf => if k > 0.0 then NegInf else PosInf
  }

  lemma LtTransitive(a: Ext, b: Ext, c: Ext)
    requires Lt(a, b) && Lt(b, c)
    ensures Lt(a, c)
  {
  }

  lemma LeTransitive(a: Ext, b: Ext, c: Ext)
    requires Le(a, b) && Le(b, c)
    ensures Le(a, c)
  {
  }

  lemma LeTotal(a: Ext, b: Ext)
    ensures Le(a, b) || Le(b, a)
    ensures Lt(a, b) <==> !Le(b, a)
  {
  }
}
