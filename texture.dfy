// Textures: a solid colour and the 3-D checker pattern that chooses one of
// two sub-textures by the parity of the scaled lattice cell.
module Textures {
  import opened Vectors

  datatype Texture =
    | SolidColor(albedo: Color)
    | Checker(invScale: real, even: Texture, odd: Texture)

  /** CheckerTexture(scale, even, odd) stores 1 / scale. */
  function MakeChecker(scale: real, even: Texture, odd: Texture): (t: Texture)
    requires scale != 0.0
    ensures t.Checker? && t.invScale * scale == 1.0 && t.even == even && t.odd == odd
  {
    Checker(1.0 / scale, even, odd)
  }

  /** C++ '%' on int: the remainder takes the sign of the dividend. */
  function CppRem(a: int, b: int): int
    requires b > 0
  {
    if a >= 0 then a % b else -((-a) % b)
  }

  /** int(floor(inv_scale * c)) */
  function Cell(invScale: real, c: real): int {
    (invScale * c).Floor
  }

  /** The parity test of get_value: (x + y + z) % 2 == 0 in C++. */
  predicate IsEvenCell(invScale: real, p: Vec3) {
    CppRem(Cell(invScale, p.x) + Cell(invScale, p.y) + Cell(invScale, p.z), 2) == 0
  }

  function GetValue(t: Texture, u: real, v: real, p: Vec3): Color {
    match t
    case SolidColor(albedo) => albedo
    case Checker(invScale, even, odd) =>
      if IsEvenCell(invScale, p) then GetValue(even, u, v, p) else GetValue(odd, u, v, p)
  }

  /** A solid colour ignores its coordinates. */
  lemma SolidColorConstant(albedo: Color, u: real, v: real, p: Vec3, u': real, v': real, p': Vec3)
    ensures GetValue(SolidColor(albedo), u, v, p) == albedo
    ensures GetValue(SolidColor(albedo), u, v, p) == GetValue(SolidColor(albedo), u', v', p')
  {
  }

  /** C++'s truncating remainder gives 0 exactly for even numbers, so the
      negative cells (remainder -1 for odd sums) are classified correctly. */
  lemma CppRemParity(a: int)
    ensures CppRem(a, 2) == 0 <==> a % 2 == 0
    ensures CppRem(a, 2) in {-1, 0, 1}
  {
    if a < 0 {
      assert (-a) % 2 == 0 <==> a % 2 == 0 by {
        assert a == -(-a);
        assert (-a) % 2 == 0 ==> a == 2 * (-((-a) / 2));
        assert a % 2 == 0 ==> -a == 2 * (-(a / 2));
      }
    }
  }

  /** The checker picks 'even' iff the sum of the three floors is even,
      and hands the same u, v, p to the chosen texture. */
  lemma CheckerChoice(invScale: real, even: Texture, odd: Texture, u: real, v: real, p: Vec3)
    ensures var s := Cell(invScale, p.x) + Cell(invScale, p.y) + Cell(invScale, p.z);
      GetValue(Checker(invScale, even, odd), u, v, p)
        == if s % 2 == 0 then GetValue(even, u, v, p) else GetValue(odd, u, v, p)
  {
    var s := Cell(invScale, p.x) + Cell(invScale, p.y) + Cell(invScale, p.z);
    CppRemParity(s);
    assert IsEvenCell(invScale, p) <==> s % 2 == 0;
  }

  /** Moving one cell along x (by scale = 1 / inv_scale) swaps the two
      sub-textures. */
  lemma CheckerAlternates(invScale: real, even: Texture, odd: Texture, u: real, v: real, p: Vec3)
    requires invScale != 0.0
    ensures var q := Vec3(p.x + 1.0 / invScale, p.y, p.z);
      IsEvenCell(invScale, q) <==> !IsEvenCell(invScale, p)
  {
    var q := Vec3(p.x + 1.0 / invScale, p.y, p.z);
    assert invScale * q.x == invScale * p.x + 1.0;
    assert Cell(invScale, q.x) == Cell(invScale, p.x) + 1;
    CppRemParity(Cell(invScale, p.x) + Cell(invScale, p.y) + Cell(invScale, p.z));
    CppRemParity(Cell(invScale, q.x) + Cell(invScale, q.y) + Cell(invScale, q.z));
  }
}
