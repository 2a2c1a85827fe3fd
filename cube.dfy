/** The cube (box) shape and its bounding volumes (pphysx3d/src/shapes/cube.rs,
    with the change of basis of pphysx3d/src/shapes/utils.rs). */
module Cubes {
  import opened Vectors
  import opened BoundingVolumes
  import Spheres

  /** Half extents along the local x, y and z axes. */
  datatype Cube = Cube(halfExtents: Vec3)

  /** `global_vector` (utils.rs): the rotation matrix of the pose applied to a
      local vector. */
  function GlobalVector(pose: Pose, v: Vec3): Vec3 { MulVec(pose.rotation, v) }

  /** `aabb`: the box around the translation whose half extents are the
      rotated half extents, taken as they are (without absolute values). */
  function Aabb(c: Cube, pose: Pose): AABB
  {
    FromHalfExtents(pose.translation, GlobalVector(pose, c.halfExtents))
  }

  /** For every rotation matrix the corners are symmetric about the translation. */
  lemma AabbSymmetric(c: Cube, pose: Pose)
    ensures var box := Aabb(c, pose);
            Sub(box.maxs, pose.translation) == Sub(pose.translation, box.mins) &&
            Midpoint(box) == pose.translation
  {
  }

  /** Without rotation the box is the translation plus and minus the half extents. */
  lemma AabbUnrotated(c: Cube, t: Vec3)
    ensures Aabb(c, Pose(t, Identity)) == AABB(Sub(t, c.halfExtents), Add(t, c.halfExtents))
  {
    assert MulVec(Identity, c.halfExtents) == c.halfExtents;
  }

  /** A quarter turn about z. */
  const QuarterTurnZ: Mat3 := Mat3(Vec3(0.0, -1.0, 0.0), Vec3(1.0, 0.0, 0.0), Vec3(0.0, 0.0, 1.0))

  /** As written, the box of a unit cube turned a quarter turn about z has its
      x corners swapped: it is not well formed, it does not hold the cube's own
      centre, and it misses the box of a small sphere inside the cube. */
  lemma AabbMissesOwnCentre()
    ensures var box := Aabb(Cube(Repeat(1.0)), Pose(Zero, QuarterTurnZ));
            && !WellFormed(box)
            && !PointIn(Zero, box)
            && !Intersects(box, Spheres.Aabb(Spheres.Sphere(0.5), Pose(Zero, Identity)))
  {
    QuarterTurnSwapsX();
    AabbAtOrigin(Cube(Repeat(1.0)), QuarterTurnZ, Vec3(-1.0, 1.0, 1.0));
    SmallSphereBox();
    SwappedBox();
  }

  /** The quarter turn sends the corner (1, 1, 1) to (-1, 1, 1). */
  lemma QuarterTurnSwapsX()
    ensures MulVec(QuarterTurnZ, Repeat(1.0)) == Vec3(-1.0, 1.0, 1.0)
  {
  }

  /** At the origin the box as written runs from minus the rotated half
      extents to the rotated half extents. */
  lemma AabbAtOrigin(c: Cube, r: Mat3, h: Vec3)
    requires MulVec(r, c.halfExtents) == h
    ensures Aabb(c, Pose(Zero, r)) == AABB(Neg(h), h)
  {
  }

  lemma SmallSphereBox()
    ensures Spheres.Aabb(Spheres.Sphere(0.5), Pose(Zero, Identity)) == AABB(Repeat(-0.5), Repeat(0.5))
  {
  }

  /** The box with its x corners swapped, on literals. */
  lemma SwappedBox()
    ensures var box := AABB(Neg(Vec3(-1.0, 1.0, 1.0)), Vec3(-1.0, 1.0, 1.0));
            && !WellFormed(box)
            && !PointIn(Zero, box)
            && !Intersects(box, AABB(Repeat(-0.5), Repeat(0.5)))
  {
  }

  /** The box the change of basis is meant to give: the half extent on each
      world axis is the sum of the absolute rotated contributions. */
  function CoveringAabb(c: Cube, pose: Pose): AABB
  {
    FromHalfExtents(pose.translation, MulVec(AbsMat(pose.rotation), c.halfExtents))
  }

  /** The covering box is centred on the translation and, unlike the box as
      written, well formed for every rotation. */
  lemma CoveringAabbWellFormed(c: Cube, pose: Pose)
    requires LessEq(Zero, c.halfExtents)
    ensures WellFormed(CoveringAabb(c, pose)) && Midpoint(CoveringAabb(c, pose)) == pose.translation
  {
    DotAbsNonNegative(pose.rotation.row0, c.halfExtents);
    DotAbsNonNegative(pose.rotation.row1, c.halfExtents);
    DotAbsNonNegative(pose.rotation.row2, c.halfExtents);
  }

  lemma DotAbsNonNegative(r: Vec3, h: Vec3)
    requires LessEq(Zero, h)
    ensures Dot(AbsVec(r), h) >= 0.0
  {
    assert Abs(r.x) * h.x >= 0.0 && Abs(r.y) * h.y >= 0.0 && Abs(r.z) * h.z >= 0.0;
  }

  /** One term of a rotated coordinate is bounded by the absolute entry times
      the half extent. */
  lemma TermBound(a: real, b: real, h: real)
    requires -h <= b <= h
    ensures -(Abs(a) * h) <= a * b <= Abs(a) * h
  {
    if a >= 0.0 {
      assert a * b <= a * h;
      assert -(a * h) <= a * b;
    } else {
      assert a * b <= -a * h;
      assert a * h <= a * b;
    }
  }

  lemma DotBoundExpanded(r: Vec3, p: Vec3, h: Vec3)
    requires -h.x <= p.x <= h.x && -h.y <= p.y <= h.y && -h.z <= p.z <= h.z
    ensures -(Abs(r.x) * h.x + Abs(r.y) * h.y + Abs(r.z) * h.z) <= r.x * p.x + r.y * p.y + r.z * p.z
    ensures r.x * p.x + r.y * p.y + r.z * p.z <= Abs(r.x) * h.x + Abs(r.y) * h.y + Abs(r.z) * h.z
  {
    TermBound(r.x, p.x, h.x);
    TermBound(r.y, p.y, h.y);
    TermBound(r.z, p.z, h.z);
    SumBound(r.x * p.x, r.y * p.y, r.z * p.z, Abs(r.x) * h.x, Abs(r.y) * h.y, Abs(r.z) * h.z);
  }

  lemma SumBound(t1: real, t2: real, t3: real, b1: real, b2: real, b3: real)
    requires -b1 <= t1 <= b1 && -b2 <= t2 <= b2 && -b3 <= t3 <= b3
    ensures -(b1 + b2 + b3) <= t1 + t2 + t3 <= b1 + b2 + b3
  {
  }

  /** A point of the local box `-h .. h`. */
  predicate InLocalBox(p: Vec3, h: Vec3) { LessEq(Neg(h), p) && LessEq(p, h) }

  /** A rotated coordinate is bounded by the absolute row times the half extents. */
  lemma DotBound(r: Vec3, p: Vec3, h: Vec3)
    requires InLocalBox(p, h)
    ensures -Dot(AbsVec(r), h) <= Dot(r, p)
    ensures Dot(r, p) <= Dot(AbsVec(r), h)
  {
    DotBoundExpanded(r, p, h);
  }

  /** Every point of the posed cube, the translation plus the rotated local
      point, lies in the covering box. */
  lemma CoveringAabbContainsCube(c: Cube, pose: Pose, p: Vec3)
    requires InLocalBox(p, c.halfExtents)
    ensures PointIn(Add(pose.translation, GlobalVector(pose, p)), CoveringAabb(c, pose))
  {
    DotBound(pose.rotation.row0, p, c.halfExtents);
    DotBound(pose.rotation.row1, p, c.halfExtents);
    DotBound(pose.rotation.row2, p, c.halfExtents);
  }

  /** On the quarter-turn cube the covering box is the unit box around the
      centre, so it holds the centre and meets the small sphere's box. */
  lemma CoveringAabbQuarterTurn()
    ensures CoveringAabb(Cube(Repeat(1.0)), Pose(Zero, QuarterTurnZ)) == AABB(Repeat(-1.0), Repeat(1.0))
    ensures var box := CoveringAabb(Cube(Repeat(1.0)), Pose(Zero, QuarterTurnZ));
            PointIn(Zero, box) && Intersects(box, Spheres.Aabb(Spheres.Sphere(0.5), Pose(Zero, Identity)))
  {
    assert AbsMat(QuarterTurnZ) == Mat3(Vec3(0.0, 1.0, 0.0), Vec3(1.0, 0.0, 0.0), Vec3(0.0, 0.0, 1.0));
  }

  /** Without rotation the covering box is the box as written. */
  lemma CoveringAabbUnrotated(c: Cube, t: Vec3)
    ensures CoveringAabb(c, Pose(t, Identity)) == Aabb(c, Pose(t, Identity))
  {
    assert MulVec(AbsMat(Identity), c.halfExtents) == c.halfExtents;
  }

  /** `bounding_sphere`: the length of the half-extent vector around the
      translation. */
  ghost function BoundingSphereOf(c: Cube, pose: Pose): BoundingSphere
  {
    BoundingSphere(pose.translation, Norm(c.halfExtents))
  }

  /** The radius does not depend on the pose and the centre is the translation. */
  lemma BoundingSphereRadiusPoseFree(c: Cube, p: Pose, q: Pose)
    ensures BoundingSphereOf(c, p).radius == BoundingSphereOf(c, q).radius
    ensures BoundingSphereOf(c, p).center == p.translation
  {
  }

  /** The bounding sphere of the cube with half extents (1, 2, 2) has radius 3. */
  lemma BoundingSphereExample(pose: Pose)
    ensures BoundingSphereOf(Cube(Vec3(1.0, 2.0, 2.0)), pose) == BoundingSphere(pose.translation, 3.0)
  {
    NormOfRoot(Vec3(1.0, 2.0, 2.0), 3.0);
  }

  lemma SquareBound(a: real, h: real)
    requires -h <= a <= h
    ensures a * a <= h * h
  {
    var m := Abs(a);
    assert a * a == m * m;
    if m < h {
      SquareMonotone(m, h);
    }
  }

  /** The radius reaches the farthest local point of the cube: every local
      point within the half extents is at most the radius from the centre. */
  lemma BoundingSphereCoversCube(c: Cube, pose: Pose, p: Vec3)
    requires InLocalBox(p, c.halfExtents)
    requires exists r :: IsRoot(NormSquared(c.halfExtents), r)
    ensures var radius := BoundingSphereOf(c, pose).radius;
            NormSquared(p) <= radius * radius
  {
    SquareBound(p.x, c.halfExtents.x);
    SquareBound(p.y, c.halfExtents.y);
    SquareBound(p.z, c.halfExtents.z);
  }
}
