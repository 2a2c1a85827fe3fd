/** The broad phase (pphysx3d/src/collision/mod.rs): every ordered pair of
    distinct objects whose boxes intersect. Objects are given by their boxes
    and pairs by their indices, in the order the nested loops emit them. */
module Collision {
  import opened Vectors
  import opened BoundingVolumes
  import Spheres

  type Pair = (nat, nat)

  /** The pair names two distinct objects whose boxes intersect. */
  predicate Colliding(boxes: seq<AABB>, p: Pair)
  {
    p.0 < |boxes| && p.1 < |boxes| && p.0 != p.1 && Intersects(boxes[p.0], boxes[p.1])
  }

  /** The pairs the inner loop emits for object `i` while testing the
      objects `lo .. j - 1`. */
  function Row(boxes: seq<AABB>, i: nat, lo: nat, j: nat): seq<Pair>
    requires i < |boxes| && j <= |boxes|
    decreases j
  {
    if j <= lo then []
    else Row(boxes, i, lo, j - 1) +
         (if i != j - 1 && Intersects(boxes[i], boxes[j - 1]) then [(i, j - 1)] else [])
  }

  /** Where the inner loop starts for object `i`: at 0 as written, or just
      after `i` when each unordered pair is to be tested once. */
  function Start(i: nat, upper: bool): nat { if upper then i + 1 else 0 }

  /** The pairs emitted once the outer loop has handled objects `0 .. i - 1`. */
  function Rows(boxes: seq<AABB>, i: nat, upper: bool): seq<Pair>
    requires i <= |boxes|
  {
    if i == 0 then [] else Rows(boxes, i - 1, upper) + Row(boxes, i - 1, Start(i - 1, upper), |boxes|)
  }

  /** What `broad_phase` returns. */
  function BroadPhasePairs(boxes: seq<AABB>): seq<Pair> { Rows(boxes, |boxes|, false) }

  /** Each colliding pair once, lower index first: what the tests expect. */
  function UniquePairs(boxes: seq<AABB>): seq<Pair> { Rows(boxes, |boxes|, true) }

  /** `broad_phase`: both loops run over every index; a pair is pushed when
      its indices differ and the boxes intersect. */
  method BroadPhase(boxes: seq<AABB>) returns (pairs: seq<Pair>)
    ensures pairs == BroadPhasePairs(boxes)
    ensures forall p :: p in pairs <==> Colliding(boxes, p)
  {
    pairs := [];
    for i := 0 to |boxes|
      invariant pairs == Rows(boxes, i, false)
    {
      for j := 0 to |boxes|
        invariant pairs == Rows(boxes, i, false) + Row(boxes, i, 0, j)
      {
        if i != j && Intersects(boxes[i], boxes[j]) {
          pairs := pairs + [(i, j)];
        }
      }
    }
    forall p ensures p in pairs <==> Colliding(boxes, p) {
      RowsMembers(boxes, |boxes|, false, p);
    }
  }

  /** The broad phase with the inner loop started after the outer index, so
      that each colliding pair is reported once. */
  method BroadPhaseUnique(boxes: seq<AABB>) returns (pairs: seq<Pair>)
    ensures pairs == UniquePairs(boxes)
    ensures forall p :: p in pairs <==> Colliding(boxes, p) && p.0 < p.1
  {
    pairs := [];
    for i := 0 to |boxes|
      invariant pairs == Rows(boxes, i, true)
    {
      for j := i + 1 to |boxes|
        invariant pairs == Rows(boxes, i, true) + Row(boxes, i, i + 1, j)
      {
        if i != j && Intersects(boxes[i], boxes[j]) {
          pairs := pairs + [(i, j)];
        }
      }
    }
    forall p ensures p in pairs <==> Colliding(boxes, p) && p.0 < p.1 {
      RowsMembers(boxes, |boxes|, true, p);
    }
  }

  lemma {:induction false} RowMembers(boxes: seq<AABB>, i: nat, lo: nat, j: nat, p: Pair)
    requires i < |boxes| && j <= |boxes|
    ensures p in Row(boxes, i, lo, j) <==> p.0 == i && lo <= p.1 < j && Colliding(boxes, p)
    decreases j
  {
    if j > lo {
      RowMembers(boxes, i, lo, j - 1, p);
    }
  }

  lemma {:induction false} RowsMembers(boxes: seq<AABB>, i: nat, upper: bool, p: Pair)
    requires i <= |boxes|
    ensures p in Rows(boxes, i, upper) <==> p.0 < i && Colliding(boxes, p) && (upper ==> p.0 < p.1)
  {
    if i > 0 {
      RowsMembers(boxes, i - 1, upper, p);
      RowMembers(boxes, i - 1, Start(i - 1, upper), |boxes|, p);
    }
  }

  /** A pair is emitted exactly when it names two distinct objects whose
      boxes intersect; in particular no pair has equal indices. */
  lemma BroadPhaseMembers(boxes: seq<AABB>, p: Pair)
    ensures p in BroadPhasePairs(boxes) <==> Colliding(boxes, p)
    ensures p in BroadPhasePairs(boxes) ==> p.0 != p.1
  {
    RowsMembers(boxes, |boxes|, false, p);
  }

  /** Because `interects` is symmetric, a pair is emitted exactly when the
      swapped pair is. */
  lemma BroadPhaseSymmetric(boxes: seq<AABB>, i: nat, j: nat)
    ensures (i, j) in BroadPhasePairs(boxes) <==> (j, i) in BroadPhasePairs(boxes)
  {
    BroadPhaseMembers(boxes, (i, j));
    BroadPhaseMembers(boxes, (j, i));
    if i < |boxes| && j < |boxes| {
      IntersectsSymmetric(boxes[i], boxes[j]);
    }
  }

  /** The pairs as written are the unique pairs in both orders. */
  lemma BroadPhaseIsBothOrders(boxes: seq<AABB>, p: Pair)
    ensures p in BroadPhasePairs(boxes) <==> p in UniquePairs(boxes) || (p.1, p.0) in UniquePairs(boxes)
  {
    BroadPhaseMembers(boxes, p);
    RowsMembers(boxes, |boxes|, true, p);
    RowsMembers(boxes, |boxes|, true, (p.1, p.0));
    if p.0 < |boxes| && p.1 < |boxes| {
      IntersectsSymmetric(boxes[p.0], boxes[p.1]);
    }
  }

  /** Lexicographic order on pairs: outer index first, then inner index. */
  predicate LexLess(a: Pair, b: Pair) { a.0 < b.0 || (a.0 == b.0 && a.1 < b.1) }

  predicate StrictlySorted(s: seq<Pair>)
  {
    forall k, l :: 0 <= k < l < |s| ==> LexLess(s[k], s[l])
  }

  lemma SortedConcat(a: seq<Pair>, b: seq<Pair>)
    requires StrictlySorted(a) && StrictlySorted(b)
    requires forall x, y :: x in a && y in b ==> LexLess(x, y)
    ensures StrictlySorted(a + b)
  {
    var s := a + b;
    forall k, l | 0 <= k < l < |s| ensures LexLess(s[k], s[l]) {
      if l < |a| {
        assert s[k] == a[k] && s[l] == a[l];
      } else if k >= |a| {
        assert s[k] == b[k - |a|] && s[l] == b[l - |a|];
      } else {
        assert s[k] == a[k] && s[l] == b[l - |a|];
      }
    }
  }

  lemma {:induction false} RowSorted(boxes: seq<AABB>, i: nat, lo: nat, j: nat)
    requires i < |boxes| && j <= |boxes|
    ensures StrictlySorted(Row(boxes, i, lo, j))
    decreases j
  {
    if j > lo {
      var prefix := Row(boxes, i, lo, j - 1);
      var last := if i != j - 1 && Intersects(boxes[i], boxes[j - 1]) then [(i, j - 1)] else [];
      RowSorted(boxes, i, lo, j - 1);
      forall x | x in prefix ensures x.0 == i && x.1 < j - 1 {
        RowMembers(boxes, i, lo, j - 1, x);
      }
      SortedConcat(prefix, last);
    }
  }

  lemma {:induction false} RowsSorted(boxes: seq<AABB>, i: nat, upper: bool)
    requires i <= |boxes|
    ensures StrictlySorted(Rows(boxes, i, upper))
  {
    if i > 0 {
      var done := Rows(boxes, i - 1, upper);
      var row := Row(boxes, i - 1, Start(i - 1, upper), |boxes|);
      RowsSorted(boxes, i - 1, upper);
      RowSorted(boxes, i - 1, Start(i - 1, upper), |boxes|);
      forall x | x in done ensures x.0 < i - 1 {
        RowsMembers(boxes, i - 1, upper, x);
      }
      forall y | y in row ensures y.0 == i - 1 {
        RowMembers(boxes, i - 1, Start(i - 1, upper), |boxes|, y);
      }
      SortedConcat(done, row);
    }
  }

  /** Both outputs are in strictly increasing lexicographic order of (outer,
      inner) index, so neither holds a pair twice. */
  lemma PairsSortedWithoutDuplicates(boxes: seq<AABB>)
    ensures StrictlySorted(BroadPhasePairs(boxes)) && StrictlySorted(UniquePairs(boxes))
    ensures forall k, l :: 0 <= k < l < |BroadPhasePairs(boxes)| ==> BroadPhasePairs(boxes)[k] != BroadPhasePairs(boxes)[l]
  {
    RowsSorted(boxes, |boxes|, false);
    RowsSorted(boxes, |boxes|, true);
  }

  lemma {:induction false} RowLength(boxes: seq<AABB>, i: nat, lo: nat, j: nat)
    requires i < |boxes| && lo <= j <= |boxes|
    ensures |Row(boxes, i, lo, j)| <= j - lo - (if lo <= i < j then 1 else 0)
    decreases j
  {
    if j > lo {
      RowLength(boxes, i, lo, j - 1);
    }
  }

  lemma {:induction false} RowsLength(boxes: seq<AABB>, i: nat)
    requires i <= |boxes|
    ensures |Rows(boxes, i, false)| <= i * (|boxes| - 1)
  {
    if i > 0 {
      RowsLength(boxes, i - 1);
      RowLength(boxes, i - 1, 0, |boxes|);
      assert (i - 1) * (|boxes| - 1) + (|boxes| - 1) == i * (|boxes| - 1);
    }
  }

  /** At most n (n - 1) pairs for n objects; none for zero or one object. */
  lemma BroadPhaseLength(boxes: seq<AABB>)
    ensures |BroadPhasePairs(boxes)| <= |boxes| * (|boxes| - 1)
    ensures |boxes| <= 1 ==> BroadPhasePairs(boxes) == []
  {
    RowsLength(boxes, |boxes|);
    if |boxes| <= 1 {
      assert |boxes| * (|boxes| - 1) == 0;
    }
  }

  /** The boxes of the two unit spheres of the broad-phase tests. */
  function TestBoxes(): seq<AABB>
  {
    [Spheres.Aabb(Spheres.Sphere(1.0), Pose(Zero, Identity)),
     Spheres.Aabb(Spheres.Sphere(1.0), Pose(Vec3(1.99, 1.99, 0.0), Identity))]
  }

  /** As written the broad phase reports the two test spheres twice, as (0, 1)
      and (1, 0), where the tests expect the single pair (0, 1); the unique
      variant reports exactly that pair. */
  lemma TestSpheresReportedTwice()
    ensures BroadPhasePairs(TestBoxes()) == [(0, 1), (1, 0)]
    ensures |BroadPhasePairs(TestBoxes())| == 2
    ensures UniquePairs(TestBoxes()) == [(0, 1)]
  {
    var boxes := TestBoxes();
    Spheres.TwoUnitSpheresIntersect(Identity, Identity);
    IntersectsSymmetric(boxes[0], boxes[1]);
    assert Row(boxes, 0, 0, 2) == [(0, 1)];
    assert Row(boxes, 1, 0, 2) == [(1, 0)];
    assert Row(boxes, 0, 1, 2) == [(0, 1)];
    assert Row(boxes, 1, 2, 2) == [];
  }
}
