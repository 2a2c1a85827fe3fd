/** The sphere shape and its bounding volumes (pphysx3d/src/shapes/sphere.rs). */
module Spheres {
  import opened Vectors
  import opened BoundingVolumes

  datatype Sphere = Sphere(radius: real)

  /** `aabb`: the translation plus and minus the radius on every axis. */
  function Aabb(s: Sphere, pose: Pose): AABB
  {
    AABB(Add(pose.translation, Repeat(-s.radius)), Add(pose.translation, Repeat(s.radius)))
  }

  /** The box is centred on the translation with the radius as half extent on
      every axis, and is well formed for a non-negative radius. */
  lemma AabbCentred(s: Sphere, pose: Pose)
    ensures Midpoint(Aabb(s, pose)) == pose.translation
    ensures HalfExtents(Aabb(s, pose)) == Repeat(s.radius)
    ensures s.radius >= 0.0 ==> WellFormed(Aabb(s, pose)) && PointIn(pose.translation, Aabb(s, pose))
  {
  }

  /** `bounding_sphere`: the shape's own radius around the translation. */
  function BoundingSphereOf(s: Sphere, pose: Pose): BoundingSphere
  {
    BoundingSphere(pose.translation, s.radius)
  }

  /** Both volumes depend on the translation only, never on the rotation, and
      the box is the one built from the translation and the radius. */
  lemma BoundsIgnoreRotation(s: Sphere, p: Pose, q: Pose)
    requires p.translation == q.translation
    ensures Aabb(s, p) == Aabb(s, q) && BoundingSphereOf(s, p) == BoundingSphereOf(s, q)
    ensures Aabb(s, p) == FromHalfExtents(p.translation, Repeat(s.radius))
    ensures BoundingSphereOf(s, p) == BoundingSphere(p.translation, s.radius)
  {
  }

  /** At the same pose, the box of radius r1 contains the box of radius r2
      exactly when r2 <= r1. */
  lemma AabbContainsIff(r1: real, r2: real, pose: Pose)
    ensures Contains(Aabb(Sphere(r1), pose), Aabb(Sphere(r2), pose)) <==> r2 <= r1
  {
  }

  /** Two sphere boxes intersect exactly when on every axis the centres are at
      most the sum of the radii apart. */
  lemma AabbIntersectsIff(s1: Sphere, p1: Pose, s2: Sphere, p2: Pose)
    ensures Intersects(Aabb(s1, p1), Aabb(s2, p2)) <==>
              var d := Sub(p1.translation, p2.translation);
              Abs(d.x) <= s1.radius + s2.radius &&
              Abs(d.y) <= s1.radius + s2.radius &&
              Abs(d.z) <= s1.radius + s2.radius
  {
  }

  /** The cases of tests.rs: at one pose, radius 1 contains radius 0.5 and not
      radius 2, for the boxes and for the bounding spheres. */
  lemma RadiusContainmentExamples(pose: Pose)
    ensures Contains(Aabb(Sphere(1.0), pose), Aabb(Sphere(0.5), pose))
    ensures !Contains(Aabb(Sphere(1.0), pose), Aabb(Sphere(2.0), pose))
    ensures SphereContains(BoundingSphereOf(Sphere(1.0), pose), BoundingSphereOf(Sphere(0.5), pose))
    ensures !SphereContains(BoundingSphereOf(Sphere(1.0), pose), BoundingSphereOf(Sphere(2.0), pose))
  {
    AabbContainsIff(1.0, 0.5, pose);
    AabbContainsIff(1.0, 2.0, pose);
    ConcentricContains(BoundingSphereOf(Sphere(1.0), pose), BoundingSphereOf(Sphere(0.5), pose));
    ConcentricContains(BoundingSphereOf(Sphere(1.0), pose), BoundingSphereOf(Sphere(2.0), pose));
  }

  /** Unit spheres at the origin and at (1.99, 1.99, 0) have intersecting boxes. */
  lemma TwoUnitSpheresIntersect(rotation1: Mat3, rotation2: Mat3)
    ensures Intersects(Aabb(Sphere(1.0), Pose(Zero, rotation1)),
                       Aabb(Sphere(1.0), Pose(Vec3(1.99, 1.99, 0.0), rotation2)))
  {
  }
}
