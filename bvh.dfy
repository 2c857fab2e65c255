// Construction of the bounding volume hierarchy (BVHNode's constructors):
// the node box is grown over a span of a shared object array, the span is
// split at its middle after a median selection on the longest axis, and
// the two halves are built recursively. The hit of a node is NodeHit in
// the Scene module.
module Bvh {
  import opened ExtReals
  import Intervals
  import opened Boxes
  import opened Scene
  import opened Lists

  /** The sort key of box_compare: the min of the object's box on the axis. */
  function Key(h: Hittable, axis: int): Ext {
    AxisInterval(GetBBox(h), axis).min
  }

  /** box_compare(a, b, axis) (and box_x/y/z_compare for axis 0, 1, 2). */
  predicate BoxCompare(a: Hittable, b: Hittable, axis: int) {
    Lt(Key(a, axis), Key(b, axis))
  }

  /** box_compare is a strict weak order: irreflexive, transitive, and
      incomparability (equal keys) is transitive too. */
  lemma BoxCompareStrictWeak(a: Hittable, b: Hittable, c: Hittable, axis: int)
    ensures !BoxCompare(a, a, axis)
    ensures BoxCompare(a, b, axis) && BoxCompare(b, c, axis) ==> BoxCompare(a, c, axis)
    ensures !BoxCompare(a, b, axis) && !BoxCompare(b, a, axis) &&
            !BoxCompare(b, c, axis) && !BoxCompare(c, b, axis) ==>
            !BoxCompare(a, c, axis) && !BoxCompare(c, a, axis)
  {
    LeTotal(Key(a, axis), Key(b, axis));
    LeTotal(Key(b, axis), Key(c, axis));
    LeTotal(Key(a, axis), Key(c, axis));
    if BoxCompare(a, b, axis) && BoxCompare(b, c, axis) {
      LtTransitive(Key(a, axis), Key(b, axis), Key(c, axis));
    }
  }

  /** Every object of lower lies at or below every object of upper on the
      axis. Stated on membership, so it survives any reordering of either
      part. */
  predicate AllBelow(lower: seq<Hittable>, upper: seq<Hittable>, axis: int) {
    forall x, y :: x in lower && y in upper ==> Le(Key(x, axis), Key(y, axis))
  }

  /** Two arrays' contents agree outside [start, end). */
  predicate SameOutside(s: seq<Hittable>, t: seq<Hittable>, start: int, end: int) {
    |s| == |t| && forall k :: 0 <= k < |s| && !(start <= k < end) ==> s[k] == t[k]
  }

  /** A sequence's multiset is the sum of the multisets of its three pieces
      around [start, end). */
  lemma Pieces(s: seq<Hittable>, start: int, end: int)
    requires 0 <= start <= end <= |s|
    ensures multiset(s) == multiset(s[..start]) + multiset(s[start..end]) + multiset(s[end..])
  {
    assert s == s[..start] + s[start..end] + s[end..];
  }

  /** Multiset sums cancel equal outer parts. */
  lemma MultisetCancel(front: multiset<Hittable>, x: multiset<Hittable>, y: multiset<Hittable>,
                       back: multiset<Hittable>)
    requires front + x + back == front + y + back
    ensures x == y
  {
    forall e
      ensures x[e] == y[e]
    {
      assert (front + x + back)[e] == (front + y + back)[e];
    }
  }

  /** A permutation that leaves everything outside [start, end) alone
      permutes the span itself. */
  lemma SpanPermutation(s: seq<Hittable>, t: seq<Hittable>, start: int, end: int)
    requires 0 <= start <= end <= |s| && SameOutside(s, t, start, end)
    requires multiset(s) == multiset(t)
    ensures multiset(s[start..end]) == multiset(t[start..end])
  {
    Pieces(s, start, end);
    Pieces(t, start, end);
    assert s[..start] == t[..start];
    assert s[end..] == t[end..];
    MultisetCancel(multiset(s[..start]), multiset(s[start..end]), multiset(t[start..end]), multiset(s[end..]));
  }

  /** Positions start..i-1 hold, in order, the smallest keys of the span:
      each is at or below everything after it in the span. */
  predicate SortedPrefix(s: seq<Hittable>, start: int, i: int, end: int, axis: int)
    requires 0 <= start && end <= |s|
  {
    forall p, q :: start <= p < i && p <= q < end ==> Le(Key(s[p], axis), Key(s[q], axis))
  }

  /** The index of a smallest key in a[i..end), the first one found. */
  method MinIndex(a: array<Hittable>, i: int, end: int, axis: int) returns (m: int)
    requires 0 <= i < end <= a.Length
    ensures i <= m < end
    ensures forall q :: i <= q < end ==> Le(Key(a[m], axis), Key(a[q], axis))
  {
    m := i;
    var j := i + 1;
    while j < end
      invariant i <= m < end && i + 1 <= j <= end
      invariant forall q :: i <= q < j ==> Le(Key(a[m], axis), Key(a[q], axis))
    {
      LeTotal(Key(a[j], axis), Key(a[m], axis));
      if BoxCompare(a[j], a[m], axis) {
        forall q | i <= q < j
          ensures Le(Key(a[j], axis), Key(a[q], axis))
        {
          LtLeTransitive(Key(a[j], axis), Key(a[m], axis), Key(a[q], axis));
        }
        m := j;
      }
      j := j + 1;
    }
  }

  /** Swapping a smallest key of the rest into position i extends the
      sorted prefix by one. */
  lemma SwapExtends(before: seq<Hittable>, after: seq<Hittable>, start: int, i: int, m: int, end: int, axis: int)
    requires 0 <= start <= i <= m < end <= |before|
    requires after == before[i := before[m]][m := before[i]]
    requires SortedPrefix(before, start, i, end, axis)
    requires forall q :: i <= q < end ==> Le(Key(before[m], axis), Key(before[q], axis))
    ensures SortedPrefix(after, start, i + 1, end, axis)
    ensures multiset(after) == multiset(before) && SameOutside(after, before, start, end)
  {
    forall p, q | start <= p < i + 1 && p <= q < end
      ensures Le(Key(after[p], axis), Key(after[q], axis))
    {
      if p < i {
        assert after[p] == before[p];
        if q == i {
          assert after[q] == before[m];
        } else if q == m {
          assert after[q] == before[i];
        } else {
          assert after[q] == before[q];
        }
      } else {
        assert after[p] == before[m];
        if q == m {
          assert after[q] == before[i];
        } else if q != i {
          assert after[q] == before[q];
        }
      }
    }
  }

  /** Writes confined to [mid, end) leave any part before mid as it was. */
  lemma SameOutsideBefore(s: seq<Hittable>, t: seq<Hittable>, start: int, mid: int, end: int)
    requires SameOutside(s, t, mid, end) && 0 <= start <= mid <= |s|
    ensures s[start..mid] == t[start..mid]
  {
  }

  lemma SameOutsideTransitive(s: seq<Hittable>, t: seq<Hittable>, u: seq<Hittable>, start: int, end: int)
    requires SameOutside(s, t, start, end) && SameOutside(t, u, start, end)
    ensures SameOutside(s, u, start, end)
  {
  }

  /** A sorted prefix through mid splits the span at mid. */
  lemma SortedSplits(s: seq<Hittable>, start: int, mid: int, end: int, axis: int)
    requires 0 <= start <= mid < end <= |s|
    requires SortedPrefix(s, start, mid + 1, end, axis)
    ensures forall k :: start <= k < mid ==> !BoxCompare(s[mid], s[k], axis)
    ensures forall k :: mid < k < end ==> !BoxCompare(s[k], s[mid], axis)
    ensures AllBelow(s[start..mid], s[mid..end], axis)
  {
    forall k | start <= k < mid
      ensures !BoxCompare(s[mid], s[k], axis)
    {
      LeTotal(Key(s[k], axis), Key(s[mid], axis));
    }
    forall k | mid < k < end
      ensures !BoxCompare(s[k], s[mid], axis)
    {
      LeTotal(Key(s[mid], axis), Key(s[k], axis));
    }
    forall x, y | x in s[start..mid] && y in s[mid..end]
      ensures Le(Key(x, axis), Key(y, axis))
    {
      var p :| start <= p < mid && s[p] == x;
      var q :| mid <= q < end && s[q] == y;
      LeTransitive(Key(s[p], axis), Key(s[mid], axis), Key(s[q], axis));
    }
  }

  /** std::nth_element(start, mid, end, comparator), realised as a partial
      selection sort: afterwards no element before mid compares greater
      than a[mid], no element after it compares less, every element of
      [start, mid) is at or below every element of [mid, end), and the
      span is only permuted. */
  method SelectNth(a: array<Hittable>, start: int, mid: int, end: int, axis: int)
    requires 0 <= start <= mid < end <= a.Length
    modifies a
    ensures multiset(a[..]) == multiset(old(a[..]))
    ensures SameOutside(a[..], old(a[..]), start, end)
    ensures forall k :: start <= k < mid ==> !BoxCompare(a[mid], a[k], axis)
    ensures forall k :: mid < k < end ==> !BoxCompare(a[k], a[mid], axis)
    ensures AllBelow(a[start..mid], a[mid..end], axis)
  {
    var i := start;
    while i <= mid
      invariant start <= i <= mid + 1
      invariant multiset(a[..]) == multiset(old(a[..]))
      invariant SameOutside(a[..], old(a[..]), start, end)
      invariant SortedPrefix(a[..], start, i, end, axis)
    {
      var m := MinIndex(a, i, end, axis);
      ghost var before := a[..];
      a[i], a[m] := a[m], a[i];
      assert a[..] == before[i := before[m]][m := before[i]];
      SwapExtends(before, a[..], start, i, m, end, axis);
      SameOutsideTransitive(a[..], before, old(a[..]), start, end);
      i := i + 1;
    }
    SortedSplits(a[..], start, mid, end, axis);
    assert a[start..mid] == a[..][start..mid] && a[mid..end] == a[..][mid..end];
  }

  /** Growing a box by b and then by c gives the box grown by c and then
      by b: fmin and fmax over a total order. */
  lemma IntervalUnionSwap(a: Intervals.Interval, b: Intervals.Interval, c: Intervals.Interval)
    ensures Intervals.Union(Intervals.Union(a, b), c) == Intervals.Union(Intervals.Union(a, c), b)
  {
    LeTotal(a.min, b.min);
    LeTotal(a.min, c.min);
    LeTotal(b.min, c.min);
    LeTotal(a.max, b.max);
    LeTotal(a.max, c.max);
    LeTotal(b.max, c.max);
  }

  lemma UnionSwap(a: AABB, b: AABB, c: AABB)
    ensures Boxes.Union(Boxes.Union(a, b), c) == Boxes.Union(Boxes.Union(a, c), b)
  {
    IntervalUnionSwap(a.x, b.x, c.x);
    IntervalUnionSwap(a.y, b.y, c.y);
    IntervalUnionSwap(a.z, b.z, c.z);
  }

  /** Growing a box over a + [x] + b is growing it over a + b and then by
      x's box. */
  lemma {:induction false} UnionFoldExtract(init: AABB, a: seq<Hittable>, x: Hittable, b: seq<Hittable>)
    ensures UnionFold(init, a + [x] + b) == Boxes.Union(UnionFold(init, a + b), GetBBox(x))
    decreases |b|
  {
    if |b| == 0 {
      assert a + [x] + b == a + [x];
      assert (a + [x])[..|a|] == a;
      assert a + b == a;
    } else {
      var front := b[..|b| - 1];
      var y := b[|b| - 1];
      assert (a + [x] + b)[..|a + [x] + b| - 1] == a + [x] + front;
      assert (a + b)[..|a + b| - 1] == a + front;
      UnionFoldExtract(init, a, x, front);
      UnionSwap(UnionFold(init, a + front), GetBBox(x), GetBBox(y));
    }
  }

  /** Taking the same object x out of two equal multisets leaves equal ones. */
  lemma RemoveOne(a: seq<Hittable>, x: Hittable, b: seq<Hittable>, rest: seq<Hittable>)
    requires multiset(a + [x] + b) == multiset(rest + [x])
    ensures multiset(a + b) == multiset(rest)
  {
    assert multiset(a + [x] + b) == multiset(a) + multiset([x]) + multiset(b);
    assert multiset(rest + [x]) == multiset(rest) + multiset([x]);
    assert multiset(a + b) == multiset(a) + multiset(b);
    forall e
      ensures multiset(a + b)[e] == multiset(rest)[e]
    {
      assert multiset(a + [x] + b)[e] == multiset(rest + [x])[e];
    }
  }

  /** The grown box depends only on which objects are grown over, not on
      their order: the node box is the same before and after the span is
      reordered. */
  lemma {:induction false} UnionFoldPermutation(init: AABB, s: seq<Hittable>, t: seq<Hittable>)
    requires multiset(s) == multiset(t)
    ensures UnionFold(init, s) == UnionFold(init, t)
    decreases |t|
  {
    if |t| == 0 {
      assert |multiset(s)| == 0;
    } else {
      var x := t[|t| - 1];
      var rest := t[..|t| - 1];
      assert t == rest + [x];
      assert x in multiset(s) by {
        assert x in multiset(t);
      }
      var i :| 0 <= i < |s| && s[i] == x;
      var a, b := s[..i], s[i + 1..];
      assert s == a + [x] + b;
      RemoveOne(a, x, b, rest);
      UnionFoldPermutation(init, a + b, rest);
      UnionFoldExtract(init, a, x, b);
    }
  }

  /** The tree BVHNode(objects, start, end) builds, stated over s, the span
      in the order the array holds once construction is over: a node whose
      box is the box grown over s; one object is both children, two
      objects are the children in order, and more are split at |s| / 2 into
      two trees built in the same way. */
  ghost predicate BuiltFrom(node: Hittable, s: seq<Hittable>)
    decreases |s|
  {
    && node.BVHNode? && |s| > 0
    && node.nodeBox == UnionFold(GetEmpty(), s)
    && (|s| == 1 ==> node.left == s[0] && node.right == s[0])
    && (|s| == 2 ==> node.left == s[0] && node.right == s[1])
    && (|s| >= 3 ==> BuiltFrom(node.left, s[..|s| / 2]) && BuiltFrom(node.right, s[|s| / 2..]))
  }

  /** At every split of a tree built over s, each object of the first half
      lies at or below each object of the second on the longest axis of
      that node's box. */
  ghost predicate SplitOrdered(node: Hittable, s: seq<Hittable>)
    decreases |s|
  {
    |s| >= 3 ==>
      && node.BVHNode?
      && AllBelow(s[..|s| / 2], s[|s| / 2..], LongestAxis(node.nodeBox))
      && SplitOrdered(node.left, s[..|s| / 2])
      && SplitOrdered(node.right, s[|s| / 2..])
  }

  /** The objects at the bottom of a tree built over n objects, from left
      to right. */
  ghost function Leaves(node: Hittable, n: nat): seq<Hittable>
    decreases n
  {
    if !node.BVHNode? || n == 0 then []
    else if n == 1 then [node.left]
    else if n == 2 then [node.left, node.right]
    else Leaves(node.left, n / 2) + Leaves(node.right, n - n / 2)
  }

  /** A span of one or two objects gives a node over them with the grown
      box. */
  lemma BuiltSmall(s: seq<Hittable>)
    requires 1 <= |s| <= 2
    ensures BuiltFrom(BVHNode(s[0], s[|s| - 1], UnionFold(GetEmpty(), s)), s)
  {
  }

  /** Two trees built over the halves of s give a node built over s. */
  lemma BuiltSplit(left: Hittable, right: Hittable, s: seq<Hittable>, lower: seq<Hittable>, upper: seq<Hittable>)
    requires |s| >= 3 && s == lower + upper && |lower| == |s| / 2
    requires BuiltFrom(left, lower) && BuiltFrom(right, upper)
    ensures BuiltFrom(BVHNode(left, right, UnionFold(GetEmpty(), s)), s)
  {
    assert lower == s[..|s| / 2] && upper == s[|s| / 2..];
  }

  /** Two ordered trees over the halves of s, the halves ordered on the
      axis of the node box, give an ordered node over s. */
  lemma OrderedSplit(left: Hittable, right: Hittable, s: seq<Hittable>, lower: seq<Hittable>, upper: seq<Hittable>)
    requires |s| >= 3 && s == lower + upper && |lower| == |s| / 2
    requires SplitOrdered(left, lower) && SplitOrdered(right, upper)
    requires AllBelow(lower, upper, LongestAxis(UnionFold(GetEmpty(), s)))
    ensures SplitOrdered(BVHNode(left, right, UnionFold(GetEmpty(), s)), s)
  {
    assert lower == s[..|s| / 2] && upper == s[|s| / 2..];
  }

  /** A tree built over s holds exactly the objects of s, in order: none is
      dropped and none repeated. */
  lemma {:induction false} BuiltHoldsSpan(node: Hittable, s: seq<Hittable>)
    requires BuiltFrom(node, s)
    ensures Leaves(node, |s|) == s
    decreases |s|
  {
    if |s| >= 3 {
      var h := |s| / 2;
      var lower, upper := s[..h], s[h..];
      assert BuiltFrom(node.left, lower) && BuiltFrom(node.right, upper);
      BuiltHoldsSpan(node.left, lower);
      BuiltHoldsSpan(node.right, upper);
      LeavesOfSplit(node, |s|);
      HalvesJoin(s, h);
    }
  }

  /** The leaves of a node over n >= 3 objects are its left child's over
      n / 2 followed by its right child's over the rest. */
  lemma LeavesOfSplit(node: Hittable, n: nat)
    requires node.BVHNode? && n >= 3
    ensures Leaves(node, n) == Leaves(node.left, n / 2) + Leaves(node.right, n - n / 2)
  {
  }

  /** Cutting s at h and joining the pieces gives s back. */
  lemma HalvesJoin(s: seq<Hittable>, h: int)
    requires 0 <= h <= |s|
    ensures s[..h] + s[h..] == s
  {
  }

  /** s[start..end] is s[start..mid] followed by s[mid..end]. */
  lemma SliceHalves(s: seq<Hittable>, start: int, mid: int, end: int)
    requires 0 <= start <= mid <= end <= |s|
    ensures s[start..end] == s[start..mid] + s[mid..end]
  {
  }

  /** With an empty span (end == start) the constructor takes neither the
      one-object nor the two-object branch, and mid = start + 0 / 2 makes
      the left child's span [start, mid) the same empty span again: the
      recursion makes no progress. */
  lemma EmptySpanRepeats(start: int, end: int)
    requires end == start
    ensures end - start != 1 && end - start != 2
    ensures var mid := start + (end - start) / 2; mid == start && mid - start == end - start
  {
  }

  /** BVHNode(objects, start, end). The node box is the union of the boxes
      of objects[start..end) from get_empty(), the split axis is that box's
      longest axis; one object becomes both children, two objects the two
      children in order, and more are split at start + span / 2 after the
      selection. Only the span is permuted, and at the end every object of
      the left half lies at or below every object of the right half on the
      split axis. The recursion is on strictly smaller, non-empty spans, so
      it terminates; an empty span would recurse on itself forever, hence
      start < end is required. */
  method Build(objects: array<Hittable>, start: int, end: int) returns (node: Hittable, ghost span: seq<Hittable>)
    requires 0 <= start < end <= objects.Length
    modifies objects
    decreases end - start, 1
    ensures node.BVHNode?
    ensures node.nodeBox == UnionFold(GetEmpty(), old(objects[start..end]))
    ensures multiset(objects[..]) == multiset(old(objects[..]))
    ensures multiset(objects[start..end]) == multiset(old(objects[start..end]))
    ensures SameOutside(objects[..], old(objects[..]), start, end)
    ensures end - start == 1 ==> node.left == node.right == old(objects[start])
    ensures end - start == 2 ==>
      node.left == old(objects[start]) && node.right == old(objects[start + 1]) && objects[..] == old(objects[..])
    ensures span == objects[start..end] && BuiltFrom(node, span) && SplitOrdered(node, span)
    ensures end - start >= 3 ==>
      AllBelow(span[..(end - start) / 2], span[(end - start) / 2..], LongestAxis(node.nodeBox))
  {
    var bbox := SpanBox(objects, start, end);
    var axis := LongestAxis(bbox);
    var count := end - start;
    if count == 1 {
      node := BVHNode(objects[start], objects[start], bbox);
      span := objects[start..end];
      BuiltSmall(span);
    } else if count == 2 {
      node := BVHNode(objects[start], objects[start + 1], bbox);
      span := objects[start..end];
      BuiltSmall(span);
    } else {
      ghost var before := objects[start..end];
      ghost var lower, upper;
      var left, right;
      left, right, lower, upper := Split(objects, start, end, axis);
      node := BVHNode(left, right, bbox);
      span := objects[start..end];
      SplitNode(left, right, before, span, lower, upper);
    }
  }

  /** The node over a span of three or more objects, once the selection has
      reordered before into span = lower + upper: its box, grown over the
      original order, is the box over the final order, and the node is
      built from span and ordered at every split. */
  lemma SplitNode(left: Hittable, right: Hittable, before: seq<Hittable>, span: seq<Hittable>,
                  lower: seq<Hittable>, upper: seq<Hittable>)
    requires |span| >= 3 && span == lower + upper && |lower| == |span| / 2
    requires multiset(span) == multiset(before)
    requires BuiltFrom(left, lower) && BuiltFrom(right, upper)
    requires SplitOrdered(left, lower) && SplitOrdered(right, upper)
    requires AllBelow(lower, upper, LongestAxis(UnionFold(GetEmpty(), before)))
    ensures var node := BVHNode(left, right, UnionFold(GetEmpty(), before));
      BuiltFrom(node, span) && SplitOrdered(node, span) &&
      AllBelow(span[..|span| / 2], span[|span| / 2..], LongestAxis(node.nodeBox))
  {
    assert span[..|span| / 2] == lower && span[|span| / 2..] == upper;
    UnionFoldPermutation(GetEmpty(), before, span);
    BuiltSplit(left, right, span, lower, upper);
    OrderedSplit(left, right, span, lower, upper);
  }

  /** The node box: get_empty() grown by the box of each object of the span,
      in order. */
  method SpanBox(objects: array<Hittable>, start: int, end: int) returns (bbox: AABB)
    requires 0 <= start <= end <= objects.Length
    ensures bbox == UnionFold(GetEmpty(), objects[start..end])
  {
    bbox := GetEmpty();
    for index := start to end
      invariant bbox == UnionFold(GetEmpty(), objects[start..index])
    {
      assert objects[start..index + 1][..index - start] == objects[start..index];
      bbox := Boxes.Union(bbox, GetBBox(objects[index]));
    }
  }

  /** The span of three or more objects: selection at mid = start + span / 2
      on the axis, then the two halves built in place. */
  method Split(objects: array<Hittable>, start: int, end: int, axis: int)
    returns (left: Hittable, right: Hittable, ghost lower: seq<Hittable>, ghost upper: seq<Hittable>)
    requires 0 <= start && start + 3 <= end <= objects.Length
    modifies objects
    decreases end - start, 0
    ensures left.BVHNode? && right.BVHNode?
    ensures multiset(objects[..]) == multiset(old(objects[..]))
    ensures multiset(objects[start..end]) == multiset(old(objects[start..end]))
    ensures SameOutside(objects[..], old(objects[..]), start, end)
    ensures lower + upper == objects[start..end] && |lower| == (end - start) / 2
    ensures AllBelow(lower, upper, axis)
    ensures BuiltFrom(left, lower) && BuiltFrom(right, upper)
    ensures SplitOrdered(left, lower) && SplitOrdered(right, upper)
  {
    var mid := start + (end - start) / 2;
    ghost var initial := objects[..];
    SelectNth(objects, start, mid, end, axis);
    ghost var selected := objects[..];
    assert AllBelow(selected[start..mid], selected[mid..end], axis) by {
      assert selected[start..mid] == objects[start..mid] && selected[mid..end] == objects[mid..end];
    }
    left, lower := Build(objects, start, mid);
    ghost var leftBuilt := objects[..];
    assert lower == leftBuilt[start..mid];
    assert multiset(leftBuilt[start..mid]) == multiset(selected[start..mid]) by {
      assert leftBuilt[start..mid] == objects[start..mid];
    }
    right, upper := Build(objects, mid, end);
    ghost var final := objects[..];
    assert upper == final[mid..end];
    SameOutsideBefore(final, leftBuilt, start, mid, end);
    assert lower == final[start..mid];
    assert multiset(final[mid..end]) == multiset(leftBuilt[mid..end]) by {
      assert final[mid..end] == objects[mid..end];
    }
    SplitBuildComposes(initial, selected, leftBuilt, final, start, mid, end, axis);
    assert final[start..mid] == objects[start..mid] && final[mid..end] == objects[mid..end];
    assert final[start..end] == objects[start..end];
    SliceHalves(final, start, mid, end);
  }

  /** The three in-place steps of a split (selection, left build, right
      build) together only permute the span, and keep the left half at or
      below the right half. */
  lemma SplitBuildComposes(s0: seq<Hittable>, s1: seq<Hittable>, s2: seq<Hittable>, s3: seq<Hittable>,
                           start: int, mid: int, end: int, axis: int)
    requires 0 <= start < mid < end <= |s0|
    requires multiset(s1) == multiset(s0) && SameOutside(s1, s0, start, end)
    requires AllBelow(s1[start..mid], s1[mid..end], axis)
    requires multiset(s2) == multiset(s1) && SameOutside(s2, s1, start, mid)
    requires multiset(s2[start..mid]) == multiset(s1[start..mid])
    requires multiset(s3) == multiset(s2) && SameOutside(s3, s2, mid, end)
    requires multiset(s3[mid..end]) == multiset(s2[mid..end])
    ensures multiset(s3) == multiset(s0) && SameOutside(s3, s0, start, end)
    ensures multiset(s3[start..end]) == multiset(s0[start..end])
    ensures AllBelow(s3[start..mid], s3[mid..end], axis)
  {
    assert s3[start..mid] == s2[start..mid];
    assert s2[mid..end] == s1[mid..end];
    KeepsBelow(s1[start..mid], s1[mid..end], s3[start..mid], s3[mid..end], axis);
    SpanPermutation(s3, s0, start, end);
  }

  /** Reordering either part keeps AllBelow. */
  lemma KeepsBelow(lower: seq<Hittable>, upper: seq<Hittable>, lower': seq<Hittable>, upper': seq<Hittable>, axis: int)
    requires AllBelow(lower, upper, axis)
    requires multiset(lower) == multiset(lower') && multiset(upper) == multiset(upper')
    ensures AllBelow(lower', upper', axis)
  {
    forall x, y | x in lower' && y in upper'
      ensures Le(Key(x, axis), Key(y, axis))
    {
      assert x in multiset(lower');
      assert y in multiset(upper');
    }
  }

  /** BVHNode(list): the list's objects copied into a fresh array, built
      over the whole of it. An empty list would recurse forever. */
  method BuildFromList(list: HittableList) returns (node: Hittable)
    requires |list.objects| > 0
    ensures node.BVHNode? && node.nodeBox == UnionFold(GetEmpty(), list.objects)
    ensures multiset(Leaves(node, |list.objects|)) == multiset(list.objects)
  {
    var objects := list.objects;
    var copy := new Hittable[|objects|](i requires 0 <= i < |objects| => objects[i]);
    assert copy[0..copy.Length] == objects;
    ghost var span;
    node, span := Build(copy, 0, copy.Length);
    BuiltHoldsSpan(node, span);
  }
}
