/** The plane shape and its bounding volumes (pphysx3d/src/shapes/plane.rs). */
module Planes {
  import opened Vectors
  import opened BoundingVolumes

  /** A plane through the origin of its pose, given by its unit normal; the
      normal is stored as it is passed in (unit length is not checked). */
  datatype Plane = Plane(normal: Vec3)

  /** `f32::MAX / 2`, the half size of the box standing in for the unbounded
      plane: (2 - 2^-23) * 2^127 / 2. */
  const HalfMax: real := 170141173319264429905852091742258462720.0

  /** `Plane::new` keeps the normal it is given. */
  function New(normal: Vec3): Plane { Plane(normal) }

  /** `normal` returns the stored normal. */
  function Normal(p: Plane): Vec3 { p.normal }

  /** The normal asked of a new plane is the normal it was built with. */
  lemma NormalOfNew(normal: Vec3)
    ensures Normal(New(normal)) == normal
    ensures New(Normal(Plane(normal))) == Plane(normal)
  {
  }

  /** A vector scaled by the reciprocal of its length has unit length, as
      `UnitVector3::new_normalize` promises for a non-zero vector. */
  lemma NormalisedIsUnit(v: Vec3, length: real)
    requires length > 0.0 && IsRoot(NormSquared(v), length)
    ensures NormSquared(Scale(1.0 / length, v)) == 1.0
  {
    var k := 1.0 / length;
    var w := Scale(k, v);
    assert NormSquared(w) == k * k * NormSquared(v) by {
      assert w.x * w.x == k * k * (v.x * v.x);
      assert w.y * w.y == k * k * (v.y * v.y);
      assert w.z * w.z == k * k * (v.z * v.z);
    }
    assert k * length == 1.0;
    assert k * k * (length * length) == (k * length) * (k * length);
  }

  /** `compute_aabb`: the box from `-HalfMax` to `HalfMax` on every axis,
      whatever the pose. */
  function Aabb(p: Plane, pose: Pose): AABB
  {
    AABB(Neg(Repeat(HalfMax)), Repeat(HalfMax))
  }

  /** `compute_bounding_sphere`: radius `HalfMax` around the world origin,
      whatever the pose. */
  function BoundingSphereOf(p: Plane, pose: Pose): BoundingSphere
  {
    BoundingSphere(Zero, HalfMax)
  }

  /** Both volumes are the same for every plane and every pose; the box is
      well formed, centred on the origin, with corners `mins == -maxs`. */
  lemma BoundsIgnorePose(p: Plane, q: Plane, a: Pose, b: Pose)
    ensures Aabb(p, a) == Aabb(q, b) && BoundingSphereOf(p, a) == BoundingSphereOf(q, b)
    ensures Aabb(p, a).mins == Neg(Aabb(p, a).maxs) && Aabb(p, a).maxs == Repeat(HalfMax)
    ensures WellFormed(Aabb(p, a)) && Midpoint(Aabb(p, a)) == Zero
    ensures BoundingSphereOf(p, a).center == Zero && BoundingSphereOf(p, a).radius == HalfMax
  {
  }

  /** The plane box meets a box exactly when that box starts at most
      `HalfMax` and ends at least `-HalfMax` on every axis. */
  lemma AabbIntersectsIff(p: Plane, pose: Pose, box: AABB)
    ensures Intersects(Aabb(p, pose), box) <==>
              LessEq(box.mins, Repeat(HalfMax)) && LessEq(Neg(Repeat(HalfMax)), box.maxs)
  {
  }
}
