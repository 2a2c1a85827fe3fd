/** Axis-aligned bounding boxes and bounding spheres with their overlap and
    containment tests (pphysx3d/src/shapes/bounding_volume.rs). */
module BoundingVolumes {
  import opened Vectors

  /** A box given by two corners; `AABB::new(mins, maxs)` is this constructor.
      Nothing requires `mins <= maxs`: a rotated cube can produce a box whose
      corners are the other way round. */
  datatype AABB = AABB(mins: Vec3, maxs: Vec3)

  /** The corners are in order on every axis. */
  predicate WellFormed(box: AABB) { LessEq(box.mins, box.maxs) }

  /** The point lies in the closed box. */
  predicate PointIn(p: Vec3, box: AABB) { LessEq(box.mins, p) && LessEq(p, box.maxs) }

  function Midpoint(box: AABB): Vec3 { Scale(0.5, Add(box.mins, box.maxs)) }

  function HalfExtents(box: AABB): Vec3 { Scale(0.5, Sub(box.maxs, box.mins)) }

  /** The box `center - halfExtents .. center + halfExtents`. */
  function FromHalfExtents(center: Vec3, halfExtents: Vec3): AABB
  {
    AABB(Sub(center, halfExtents), Add(center, halfExtents))
  }

  /** The midpoint and the half extents of the box give the arguments back;
      non-negative half extents give a well-formed box around the centre. */
  lemma FromHalfExtentsRoundTrip(center: Vec3, halfExtents: Vec3)
    ensures var box := FromHalfExtents(center, halfExtents);
            Midpoint(box) == center && HalfExtents(box) == halfExtents
    ensures LessEq(Zero, halfExtents) ==>
              WellFormed(FromHalfExtents(center, halfExtents)) &&
              PointIn(center, FromHalfExtents(center, halfExtents))
  {
  }

  /** `translate` shifts both corners by the same vector (the source does this
      in place on `&mut self`). */
  function Translate(box: AABB, translation: Vec3): AABB
  {
    AABB(Add(box.mins, translation), Add(box.maxs, translation))
  }

  /** Translation keeps the extents, moves the midpoint and every point of the
      box by the translation, and keeps well-formedness. */
  lemma TranslateShifts(box: AABB, translation: Vec3)
    ensures var moved := Translate(box, translation);
            && Sub(moved.maxs, moved.mins) == Sub(box.maxs, box.mins)
            && Midpoint(moved) == Add(Midpoint(box), translation)
            && (WellFormed(moved) <==> WellFormed(box))
            && forall p :: PointIn(p, box) <==> PointIn(Add(p, translation), moved)
  {
  }

  /** `contains`: `self.mins <= other.mins` and `self.maxs >= other.maxs`. */
  predicate Contains(a: AABB, b: AABB) { LessEq(a.mins, b.mins) && LessEq(b.maxs, a.maxs) }

  /** `interects` (sic): `self.mins <= other.maxs` and `self.maxs >= other.mins`. */
  predicate Intersects(a: AABB, b: AABB) { LessEq(a.mins, b.maxs) && LessEq(b.mins, a.maxs) }

  lemma IntersectsSymmetric(a: AABB, b: AABB)
    ensures Intersects(a, b) <==> Intersects(b, a)
  {
  }

  /** For well-formed boxes the test is exact: it holds if and only if the
      closed boxes share a point, so touching faces count as intersecting. */
  lemma IntersectsIffCommonPoint(a: AABB, b: AABB)
    requires WellFormed(a) && WellFormed(b)
    ensures Intersects(a, b) <==> exists p :: PointIn(p, a) && PointIn(p, b)
  {
    if Intersects(a, b) {
      var p := Vec3(Max(a.mins.x, b.mins.x), Max(a.mins.y, b.mins.y), Max(a.mins.z, b.mins.z));
      assert PointIn(p, a) && PointIn(p, b);
    }
  }

  function Max(x: real, y: real): real { if x < y then y else x }

  /** Two unit boxes that meet only in the face x = 1 intersect. */
  lemma IntersectsWhenTouching()
    ensures Intersects(AABB(Zero, Vec3(1.0, 1.0, 1.0)), AABB(Vec3(1.0, 0.0, 0.0), Vec3(2.0, 1.0, 1.0)))
    ensures !Intersects(AABB(Zero, Vec3(1.0, 1.0, 1.0)), AABB(Vec3(1.5, 0.0, 0.0), Vec3(2.0, 1.0, 1.0)))
  {
  }

  lemma ContainsReflexive(a: AABB)
    ensures Contains(a, a)
  {
  }

  lemma ContainsTransitive(a: AABB, b: AABB, c: AABB)
    requires Contains(a, b) && Contains(b, c)
    ensures Contains(a, c)
  {
  }

  /** For a well-formed inner box, `contains` holds exactly when every point of
      the inner box lies in the outer one. */
  lemma ContainsIffAllPoints(a: AABB, b: AABB)
    requires WellFormed(b)
    ensures Contains(a, b) <==> forall p :: PointIn(p, b) ==> PointIn(p, a)
  {
    if forall p :: PointIn(p, b) ==> PointIn(p, a) {
      assert PointIn(b.mins, b) && PointIn(b.maxs, b);
    }
  }

  lemma ContainsImpliesIntersects(a: AABB, b: AABB)
    requires WellFormed(b) && Contains(a, b)
    ensures Intersects(a, b)
  {
  }

  /** Translating two boxes by the same vector keeps both relations. */
  lemma TranslatePreservesRelations(a: AABB, b: AABB, t: Vec3)
    ensures Intersects(Translate(a, t), Translate(b, t)) <==> Intersects(a, b)
    ensures Contains(Translate(a, t), Translate(b, t)) <==> Contains(a, b)
  {
  }

  /** A sphere given by its centre and radius (`BoundingSphere::new` takes
      the radius first). */
  datatype BoundingSphere = BoundingSphere(center: Vec3, radius: real)

  /** `contains`: centre distance plus the other radius is at most the radius. */
  ghost predicate SphereContains(a: BoundingSphere, b: BoundingSphere)
  {
    Norm(Sub(b.center, a.center)) + b.radius <= a.radius
  }

  /** `interects`: squared centre distance at most the squared radius sum. */
  predicate SphereIntersects(a: BoundingSphere, b: BoundingSphere)
  {
    NormSquared(Sub(b.center, a.center)) <= (a.radius + b.radius) * (a.radius + b.radius)
  }

  lemma NormSquaredSubSymmetric(p: Vec3, q: Vec3)
    ensures NormSquared(Sub(p, q)) == NormSquared(Sub(q, p))
  {
    var d, e := Sub(p, q), Sub(q, p);
    assert e == Neg(d);
    assert d.x * d.x == e.x * e.x && d.y * d.y == e.y * e.y && d.z * d.z == e.z * e.z;
  }

  lemma SphereIntersectsSymmetric(a: BoundingSphere, b: BoundingSphere)
    ensures SphereIntersects(a, b) <==> SphereIntersects(b, a)
  {
    NormSquaredSubSymmetric(b.center, a.center);
    assert (a.radius + b.radius) * (a.radius + b.radius) == (b.radius + a.radius) * (b.radius + a.radius);
  }

  /** With non-negative radii the squared test is the geometric one: the
      centres are at most the sum of the radii apart. */
  lemma SphereIntersectsIffDistance(a: BoundingSphere, b: BoundingSphere)
    requires a.radius >= 0.0 && b.radius >= 0.0
    requires exists r :: IsRoot(NormSquared(Sub(b.center, a.center)), r)
    ensures SphereIntersects(a, b) <==> Norm(Sub(b.center, a.center)) <= a.radius + b.radius
  {
    var n, s := Norm(Sub(b.center, a.center)), a.radius + b.radius;
    assert n * n == NormSquared(Sub(b.center, a.center));
    if n > s {
      SquareMonotone(s, n);
    } else if n < s {
      SquareMonotone(n, s);
    }
  }

  /** `contains` in squared form: the radius difference is non-negative and
      bounds the centre distance. */
  lemma SphereContainsSquared(a: BoundingSphere, b: BoundingSphere)
    requires exists r :: IsRoot(NormSquared(Sub(b.center, a.center)), r)
    ensures SphereContains(a, b) <==>
              b.radius <= a.radius &&
              NormSquared(Sub(b.center, a.center)) <= (a.radius - b.radius) * (a.radius - b.radius)
  {
    var n, s := Norm(Sub(b.center, a.center)), a.radius - b.radius;
    assert n * n == NormSquared(Sub(b.center, a.center));
    if s >= 0.0 {
      if n > s {
        SquareMonotone(s, n);
      } else if n < s {
        SquareMonotone(n, s);
      }
    }
  }

  /** Concentric spheres: `contains` holds exactly when the other radius is at
      most this one. */
  lemma ConcentricContains(a: BoundingSphere, b: BoundingSphere)
    requires a.center == b.center
    ensures SphereContains(a, b) <==> b.radius <= a.radius
  {
    var d := Sub(b.center, a.center);
    assert d == Zero;
    assert IsRoot(NormSquared(d), 0.0);
    NormOfRoot(d, 0.0);
    assert SphereContains(a, b) == (0.0 + b.radius <= a.radius);
  }
}
