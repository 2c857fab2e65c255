// Perlin noise tables: the random permutations (Fisher-Yates in place),
// the 8-bit lattice hashing in noise(), and the turbulence sum.
module PerlinNoise {
  import opened Vectors
  import opened Common
  import opened Reals

  const PointCount: int := 256

  predicate ValidDraws(draws: seq<int>) {
    forall k :: 0 <= k < |draws| ==> IsDraw(draws[k])
  }

  /** The sequence 0, 1, ..., n - 1. */
  function Range(n: nat): (r: seq<int>)
    ensures |r| == n && forall i :: 0 <= i < n ==> r[i] == i
  {
    seq(n, i => i)
  }

  function Swap(s: seq<int>, i: int, j: int): (r: seq<int>)
    requires 0 <= i < |s| && 0 <= j < |s|
    ensures |r| == |s|
  {
    s[i := s[j]][j := s[i]]
  }

  /** The cell swapped with cell i: random_int(0, i). */
  function Target(i: int, draw: int): (t: int)
    requires IsDraw(draw) && i >= 0
    ensures 0 <= t <= i
  {
    RandomIntInRange(0, i, draw);
    RandomInt(0, i, draw)
  }

  /** The swaps permute performs from index i down to 1, the k-th swap
      using draws[k]. */
  function Shuffle(s: seq<int>, i: int, draws: seq<int>): seq<int>
    requires i < |s| && (i <= 0 || i <= |draws|) && ValidDraws(draws)
    decreases i
  {
    if i <= 0 then s
    else Shuffle(Swap(s, i, Target(i, draws[0])), i - 1, draws[1..])
  }

  /** Every swap keeps the multiset, so the shuffle is a permutation that
      leaves the cells above i alone. */
  lemma {:induction false} ShufflePermutes(s: seq<int>, i: int, draws: seq<int>)
    requires i < |s| && (i <= 0 || i <= |draws|) && ValidDraws(draws)
    ensures |Shuffle(s, i, draws)| == |s|
    ensures multiset(Shuffle(s, i, draws)) == multiset(s)
    ensures forall k :: i < k < |s| && 0 <= k ==> Shuffle(s, i, draws)[k] == s[k]
    decreases i
  {
    if i > 0 {
      var t := Target(i, draws[0]);
      var s' := Swap(s, i, t);
      assert multiset(s') == multiset(s) by {
        assert s' == s[i := s[t]][t := s[i]];
      }
      ShufflePermutes(s', i - 1, draws[1..]);
    }
  }

  /** The shuffle from index i uses exactly the first i draws. */
  lemma {:induction false} ShuffleUsesPrefix(s: seq<int>, i: int, draws: seq<int>, more: seq<int>)
    requires 0 <= i < |s| && i <= |draws| && ValidDraws(draws) && ValidDraws(more)
    ensures ValidDraws(draws[..i] + more)
    ensures Shuffle(s, i, draws) == Shuffle(s, i, draws[..i] + more)
    decreases i
  {
    var d2 := draws[..i] + more;
    assert ValidDraws(d2) by {
      forall k | 0 <= k < |d2| ensures IsDraw(d2[k]) {
        if k < i { assert d2[k] == draws[k]; } else { assert d2[k] == more[k - i]; }
      }
    }
    if i > 0 {
      assert d2[0] == draws[0];
      var s' := Swap(s, i, Target(i, draws[0]));
      assert draws[1..][..i - 1] + more == d2[1..];
      ShuffleUsesPrefix(s', i - 1, draws[1..], more);
    }
  }

  /** One step of the shuffle: swapping cell i with its target and
      moving to the next draw leaves the remaining shuffle the same. */
  lemma ShuffleStep(s: seq<int>, i: int, draws: seq<int>, used: int, t: int)
    requires 0 <= used < |draws| && 0 < i < |s| && i <= |draws| - used && ValidDraws(draws)
    requires t == Target(i, draws[used])
    ensures ValidDraws(draws[used + 1..])
    ensures Shuffle(Swap(s, i, t), i - 1, draws[used + 1..]) == Shuffle(s, i, draws[used..])
  {
    assert draws[used..][0] == draws[used];
    assert draws[used..][1..] == draws[used + 1..];
  }

  /** The state permute reaches after the swaps at top, top - 1, ...,
      i + 1, the swap at cell c using draws[top - c]. */
  function Shuffled(s: seq<int>, top: int, i: int, draws: seq<int>): (r: seq<int>)
    requires top < |s| && top - |draws| <= i <= top && (0 <= i || i == top) && ValidDraws(draws)
    ensures |r| == |s|
    decreases top - i
  {
    if i == top then s
    else Swap(Shuffled(s, top, i + 1, draws), i + 1, Target(i + 1, draws[top - i - 1]))
  }

  /** The swaps done so far followed by the shuffle from i on with the
      remaining draws are the whole shuffle from top. */
  lemma {:induction false} ShuffledThenShuffle(s: seq<int>, top: int, i: int, draws: seq<int>)
    requires 0 <= i <= top < |s| && top <= |draws| && ValidDraws(draws)
    ensures ValidDraws(draws[top - i..])
    ensures Shuffle(Shuffled(s, top, i, draws), i, draws[top - i..]) == Shuffle(s, top, draws)
    decreases top - i
  {
    if i == top {
      assert draws[0..] == draws;
    } else {
      ShuffledThenShuffle(s, top, i + 1, draws);
      var before := Shuffled(s, top, i + 1, draws);
      var t := Target(i + 1, draws[top - i - 1]);
      assert Shuffled(s, top, i, draws) == Swap(before, i + 1, t);
      assert 0 <= top - i - 1 < |draws|;
      assert 0 < i + 1 < |before|;
      assert i + 1 <= |draws| - (top - i - 1);
      ShuffleStep(before, i + 1, draws, top - i - 1, t);
    }
  }

  /** Once every swap is done the forward state is the shuffle, a
      permutation of the start. */
  lemma ShuffledIsShuffle(s: seq<int>, top: int, draws: seq<int>, final: seq<int>)
    requires top < |s| && top <= |draws| && ValidDraws(draws)
    requires final == Shuffled(s, top, if top < 0 then top else 0, draws)
    ensures final == Shuffle(s, top, draws)
    ensures multiset(final) == multiset(s)
  {
    if top >= 0 {
      ShuffledThenShuffle(s, top, 0, draws);
    }
    ShufflePermutes(s, top, draws);
  }

  /** The exchange of p[i] and p[j] through a temporary. */
  method SwapCells(p: array<int>, i: int, j: int)
    requires 0 <= i < p.Length && 0 <= j < p.Length
    modifies p
    ensures p[..] == Swap(old(p[..]), i, j)
  {
    var tmp := p[i];
    p[i] := p[j];
    p[j] := tmp;
  }

  /** The body of permute's loop: swap p[i] with p[random_int(0, i)]. */
  method SwapWithTarget(p: array<int>, i: int, draw: int)
    requires 0 < i < p.Length && IsDraw(draw)
    modifies p
    ensures p[..] == Swap(old(p[..]), i, Target(i, draw))
  {
    var target := RandomInt(0, i, draw);
    assert target == Target(i, draw);
    SwapCells(p, i, target);
  }

  /** permute(p, n): for i = n - 1 down to 1, swap p[i] with p[random_int(0, i)]. */
  method Permute(p: array<int>, n: int, draws: seq<int>)
    requires 0 <= n <= p.Length && n - 1 <= |draws| && ValidDraws(draws)
    modifies p
    ensures p[..] == Shuffle(old(p[..]), n - 1, draws)
    ensures multiset(p[..]) == multiset(old(p[..]))
  {
    ghost var s0 := p[..];
    ghost var cur := s0;
    var i := n - 1;
    var used := 0;
    while i > 0
      invariant (if n == 0 then -1 else 0) <= i <= n - 1
      invariant used == n - 1 - i
      invariant cur == Shuffled(s0, n - 1, i, draws) && p[..] == cur
      decreases i
    {
      SwapWithTarget(p, i, draws[used]);
      cur := Swap(cur, i, Target(i, draws[used]));
      i := i - 1;
      used := used + 1;
    }
    assert i == if n - 1 < 0 then n - 1 else 0;
    ShuffledIsShuffle(s0, n - 1, draws, cur);
  }

  /** The cells hold 0, ..., |s| - 1, each once. */
  predicate IsPermutationOfRange(s: seq<int>) {
    multiset(s) == multiset(Range(|s|))
  }

  lemma PermutationBounds(s: seq<int>)
    requires IsPermutationOfRange(s)
    ensures forall k :: 0 <= k < |s| ==> 0 <= s[k] < |s|
  {
    forall k | 0 <= k < |s| ensures 0 <= s[k] < |s| {
      assert s[k] in multiset(s);
      assert s[k] in multiset(Range(|s|));
      assert s[k] in Range(|s|);
    }
  }

  /** perlin_generate_perm: p[i] = i for every cell, then permute. */
  method GeneratePerm(p: array<int>, draws: seq<int>)
    requires p.Length == PointCount && PointCount - 1 <= |draws| && ValidDraws(draws)
    modifies p
    ensures p[..] == Shuffle(Range(PointCount), PointCount - 1, draws)
    ensures IsPermutationOfRange(p[..])
    ensures forall k :: 0 <= k < PointCount ==> 0 <= p[k] < PointCount
  {
    for i := 0 to PointCount
      invariant forall k :: 0 <= k < i ==> p[k] == k
    {
      p[i] := i;
    }
    assert p[..] == Range(PointCount);
    Permute(p, PointCount, draws);
    PermutationBounds(p[..]);
  }

  /** (i + d) & 255: for a two's-complement int this is the remainder
      modulo 256 taken in [0, 255]. */
  function LatticeIndex(i: int, d: int): (r: int)
    ensures 0 <= r < PointCount
    ensures (r - (i + d)) % PointCount == 0
  {
    (i + d) % PointCount
  }

  /** perm_x[..] ^ perm_y[..] ^ perm_z[..]: the XOR of three values in
      [0, 255], computed on 8 bits. */
  function Hash(a: int, b: int, c: int): (r: int)
    requires 0 <= a < 256 && 0 <= b < 256 && 0 <= c < 256
    ensures 0 <= r < PointCount
  {
    ((a as bv8) ^ (b as bv8) ^ (c as bv8)) as int
  }

  /** XOR is its own inverse: the hash determines any one input from the
      other two, so distinct x cells give distinct corners. */
  lemma HashInjective(a: bv8, a': bv8, b: bv8, c: bv8)
    requires a ^ b ^ c == a' ^ b ^ c
    ensures a == a'
  {
    assert a ^ b ^ c ^ c ^ b == a;
  }

  /** x - floor(x): the fractional part, in [0, 1). */
  function Frac(x: real): (r: real)
    ensures 0.0 <= r < 1.0
    ensures x == x.Floor as real + r
  {
    x - x.Floor as real
  }

  function Pow(b: real, n: nat): real {
    if n == 0 then 1.0 else b * Pow(b, n - 1)
  }

  lemma HalfTimesDouble(x: real, y: real)
    ensures (0.5 * x) * (2.0 * y) == x * y
  {
  }

  /** The turbulence sum: step i adds 2^-i * noise(2^i p). */
  function TurbSum(p: Vec3, n: nat, noise: Vec3 -> real): real {
    if n == 0 then 0.0
    else TurbSum(p, n - 1, noise) + Pow(0.5, n - 1) * noise(Scale(Pow(2.0, n - 1), p))
  }

  /** The weights are exactly the inverse powers of two. */
  lemma {:induction false} WeightsInverse(n: nat)
    ensures Pow(0.5, n) * Pow(2.0, n) == 1.0
    ensures Pow(0.5, n) > 0.0
  {
    if n > 0 {
      WeightsInverse(n - 1);
      HalfTimesDouble(Pow(0.5, n - 1), Pow(2.0, n - 1));
      ProductPositive(0.5, Pow(0.5, n - 1));
    }
  }

  /** turb(p, depth): noise is a parameter (its interpolation is not part
      of this model). The loop halves the weight and doubles the point each
      step; the result is |sum|, never negative. */
  method Turb(p: Vec3, depth: int, noise: Vec3 -> real) returns (r: real)
    ensures r >= 0.0
    ensures depth <= 0 ==> r == 0.0
    ensures depth > 0 ==> r == Abs(TurbSum(p, depth, noise))
  {
    var accum := 0.0;
    var tempP := p;
    var weight := 1.0;
    var i := 0;
    while i < depth
      invariant 0 <= i && (depth > 0 ==> i <= depth) && (depth <= 0 ==> i == 0)
      invariant weight == Pow(0.5, i) && tempP == Scale(Pow(2.0, i), p)
      invariant accum == TurbSum(p, i, noise)
    {
      accum := accum + weight * noise(tempP);
      weight := weight * 0.5;
      tempP := Scale(2.0, tempP);
      i := i + 1;
    }
    r := Abs(accum);
  }

  /** The noise tables of one Perlin object. */
  class Perlin {
    const randvec: seq<Vec3>
    const permX: array<int>
    const permY: array<int>
    const permZ: array<int>

    ghost predicate Valid()
      reads permX, permY, permZ
    {
      |randvec| == PointCount &&
      permX.Length == PointCount && permY.Length == PointCount && permZ.Length == PointCount &&
      IsPermutationOfRange(permX[..]) && IsPermutationOfRange(permY[..]) &&
      IsPermutationOfRange(permZ[..])
    }

    /** Perlin(): the 256 unit vectors (sampled by the caller) and three
        independently shuffled permutations. */
    constructor(samples: seq<Vec3>, drawsX: seq<int>, drawsY: seq<int>, drawsZ: seq<int>)
      requires |samples| == PointCount
      requires PointCount - 1 <= |drawsX| && ValidDraws(drawsX)
      requires PointCount - 1 <= |drawsY| && ValidDraws(drawsY)
      requires PointCount - 1 <= |drawsZ| && ValidDraws(drawsZ)
      ensures Valid() && randvec == samples
      ensures permX[..] == Shuffle(Range(PointCount), PointCount - 1, drawsX)
      ensures permY[..] == Shuffle(Range(PointCount), PointCount - 1, drawsY)
      ensures permZ[..] == Shuffle(Range(PointCount), PointCount - 1, drawsZ)
    {
      randvec := samples;
      var px := new int[PointCount];
      GeneratePerm(px, drawsX);
      var py := new int[PointCount];
      GeneratePerm(py, drawsY);
      var pz := new int[PointCount];
      GeneratePerm(pz, drawsZ);
      permX, permY, permZ := px, py, pz;
    }

    /** The randvec index of lattice corner (di, dj, dk) of cell (i, j, k). */
    function CornerIndex(i: int, j: int, k: int, di: int, dj: int, dk: int): (r: int)
      requires Valid()
      reads permX, permY, permZ
      ensures 0 <= r < PointCount
    {
      PermutationBounds(permX[..]);
      PermutationBounds(permY[..]);
      PermutationBounds(permZ[..]);
      Hash(permX[LatticeIndex(i, di)], permY[LatticeIndex(j, dj)], permZ[LatticeIndex(k, dk)])
    }

    /** The random vector at lattice corner (di, dj, dk) of cell (i, j, k). */
    function Corner(i: int, j: int, k: int, di: int, dj: int, dk: int): Vec3
      requires Valid()
      reads permX, permY, permZ
    {
      randvec[CornerIndex(i, j, k, di, dj, dk)]
    }

    /** The corner-gathering part of noise(p): c[di][dj][dk] is the
        random vector at that corner of the lattice cell of p. */
    method NoiseCorners(p: Vec3) returns (c: array3<Vec3>)
      requires Valid()
      ensures fresh(c) && c.Length0 == 2 && c.Length1 == 2 && c.Length2 == 2
      ensures forall di, dj, dk :: 0 <= di < 2 && 0 <= dj < 2 && 0 <= dk < 2 ==>
        c[di, dj, dk] == Corner(p.x.Floor, p.y.Floor, p.z.Floor, di, dj, dk)
    {
      var i, j, k := p.x.Floor, p.y.Floor, p.z.Floor;
      c := new Vec3[2, 2, 2];
      for di := 0 to 2
        invariant forall a, b, e :: 0 <= a < di && 0 <= b < 2 && 0 <= e < 2 ==>
          c[a, b, e] == Corner(i, j, k, a, b, e)
      {
        for dj := 0 to 2
          invariant forall a, b, e :: 0 <= a < di && 0 <= b < 2 && 0 <= e < 2 ==>
            c[a, b, e] == Corner(i, j, k, a, b, e)
          invariant forall b, e :: 0 <= b < dj && 0 <= e < 2 ==>
            c[di, b, e] == Corner(i, j, k, di, b, e)
        {
          FillCorners(c, i, j, k, di, dj);
        }
      }
    }

    /** The innermost loop of noise(p): the two corners (di, dj, 0) and
        (di, dj, 1); no other cell of c changes. */
    method FillCorners(c: array3<Vec3>, i: int, j: int, k: int, di: int, dj: int)
      requires Valid() && c.Length0 == 2 && c.Length1 == 2 && c.Length2 == 2
      requires 0 <= di < 2 && 0 <= dj < 2
      modifies c
      ensures forall e :: 0 <= e < 2 ==> c[di, dj, e] == Corner(i, j, k, di, dj, e)
      ensures forall a, b, e :: 0 <= a < 2 && 0 <= b < 2 && 0 <= e < 2 && (a != di || b != dj) ==>
        c[a, b, e] == old(c[a, b, e])
    {
      for dk := 0 to 2
        invariant forall e :: 0 <= e < dk ==> c[di, dj, e] == Corner(i, j, k, di, dj, e)
        invariant forall a, b, e :: 0 <= a < 2 && 0 <= b < 2 && 0 <= e < 2 && (a != di || b != dj) ==>
          c[a, b, e] == old(c[a, b, e])
      {
        c[di, dj, dk] := randvec[CornerIndex(i, j, k, di, dj, dk)];
      }
    }
  }
}
