/** The `Shape` interface (pphysx3d/src/shapes/shape.rs) as a datatype over
    the three shapes, with the bounding-volume dispatch and the capability
    queries that each shape implements. */
module Shapes {
  import opened Vectors
  import opened BoundingVolumes
  import Spheres
  import Cubes
  import Planes

  datatype Shape =
    | SphereShape(sphere: Spheres.Sphere)
    | CubeShape(cube: Cubes.Cube)
    | PlaneShape(plane: Planes.Plane)

  /** Rust's `Result<&T, ()>`. */
  datatype Result<T> = Ok(value: T) | Err

  /** `compute_aabb`, dispatched to the shape's own box; for a cube that is
      `Cube::aabb`, the box as written (see Cubes.AabbMissesOwnCentre). */
  function ComputeAabb(shape: Shape, pose: Pose): AABB
  {
    match shape
    case SphereShape(s) => Spheres.Aabb(s, pose)
    case CubeShape(c) => Cubes.Aabb(c, pose)
    case PlaneShape(p) => Planes.Aabb(p, pose)
  }

  /** The cube's `compute_aabb` is its `aabb`. */
  lemma CubeComputeAabbIsAabb(c: Cubes.Cube, pose: Pose)
    ensures ComputeAabb(CubeShape(c), pose) == Cubes.Aabb(c, pose)
    ensures pose.rotation == Identity ==>
              ComputeAabb(CubeShape(c), pose) == FromHalfExtents(pose.translation, c.halfExtents)
  {
    if pose.rotation == Identity {
      Cubes.AabbUnrotated(c, pose.translation);
    }
  }

  /** The dispatch with the cube's box corrected to the covering box; it
      differs from `ComputeAabb` only on cubes. */
  function CoveringComputeAabb(shape: Shape, pose: Pose): AABB
  {
    if shape.CubeShape? then Cubes.CoveringAabb(shape.cube, pose) else ComputeAabb(shape, pose)
  }

  /** The corrected dispatch agrees with `compute_aabb` on spheres, planes and
      unrotated cubes. */
  lemma CoveringComputeAabbAgrees(shape: Shape, pose: Pose)
    requires shape.CubeShape? ==> pose.rotation == Identity
    ensures CoveringComputeAabb(shape, pose) == ComputeAabb(shape, pose)
  {
    if shape.CubeShape? {
      Cubes.CoveringAabbUnrotated(shape.cube, pose.translation);
    }
  }

  /** With a non-negative radius or half extents the corrected box of every
      shape is well formed, and that of a sphere or a cube holds the translation. */
  lemma CoveringComputeAabbWellFormed(shape: Shape, pose: Pose)
    requires shape.SphereShape? ==> shape.sphere.radius >= 0.0
    requires shape.CubeShape? ==> LessEq(Zero, shape.cube.halfExtents)
    ensures WellFormed(CoveringComputeAabb(shape, pose))
    ensures !shape.PlaneShape? ==> PointIn(pose.translation, CoveringComputeAabb(shape, pose))
  {
    match shape
    case SphereShape(s) => Spheres.AabbCentred(s, pose);
    case CubeShape(c) =>
      Cubes.CoveringAabbWellFormed(c, pose);
      FromHalfExtentsRoundTrip(pose.translation, MulVec(AbsMat(pose.rotation), c.halfExtents));
    case PlaneShape(p) => Planes.BoundsIgnorePose(p, p, pose, pose);
  }

  /** `compute_bounding_sphere`, dispatched to the shape's own sphere. */
  ghost function ComputeBoundingSphere(shape: Shape, pose: Pose): BoundingSphere
  {
    match shape
    case SphereShape(s) => Spheres.BoundingSphereOf(s, pose)
    case CubeShape(c) => Cubes.BoundingSphereOf(c, pose)
    case PlaneShape(p) => Planes.BoundingSphereOf(p, pose)
  }

  /** The box of a sphere or a cube is centred on the translation of its pose;
      the plane's box is centred on the origin whatever the pose. */
  lemma ComputeAabbCentre(shape: Shape, pose: Pose)
    ensures Midpoint(ComputeAabb(shape, pose)) ==
              if shape.PlaneShape? then Zero else pose.translation
  {
    match shape
    case SphereShape(s) => Spheres.AabbCentred(s, pose);
    case CubeShape(c) => FromHalfExtentsRoundTrip(pose.translation, Cubes.GlobalVector(pose, c.halfExtents));
    case PlaneShape(p) => Planes.BoundsIgnorePose(p, p, pose, pose);
  }

  /** The box of a sphere with non-negative radius and the plane's box are
      well formed; a cube's box is well formed exactly when its rotated half
      extents are non-negative, as they are without rotation. A well-formed
      box of a sphere or a cube holds the translation. */
  lemma ComputeAabbWellFormed(shape: Shape, pose: Pose)
    requires shape.SphereShape? ==> shape.sphere.radius >= 0.0
    ensures !shape.CubeShape? ==> WellFormed(ComputeAabb(shape, pose))
    ensures shape.CubeShape? ==>
              (WellFormed(ComputeAabb(shape, pose)) <==> LessEq(Zero, Cubes.GlobalVector(pose, shape.cube.halfExtents)))
    ensures shape.CubeShape? && pose.rotation == Identity && LessEq(Zero, shape.cube.halfExtents) ==>
              WellFormed(ComputeAabb(shape, pose))
    ensures !shape.PlaneShape? && WellFormed(ComputeAabb(shape, pose)) ==>
              PointIn(pose.translation, ComputeAabb(shape, pose))
  {
    match shape
    case SphereShape(s) => SphereAabbWellFormed(s, pose);
    case CubeShape(c) => CubeAabbWellFormed(c, pose);
    case PlaneShape(p) => PlaneAabbWellFormed(p, pose);
  }

  /** The sphere case: with a non-negative radius the box is well formed and
      holds the translation. */
  lemma SphereAabbWellFormed(s: Spheres.Sphere, pose: Pose)
    requires s.radius >= 0.0
    ensures WellFormed(ComputeAabb(SphereShape(s), pose))
    ensures PointIn(pose.translation, ComputeAabb(SphereShape(s), pose))
  {
    Spheres.AabbCentred(s, pose);
  }

  /** The cube case: well formed exactly when the rotated half extents are
      non-negative, and then the box holds the translation. */
  lemma CubeAabbWellFormed(c: Cubes.Cube, pose: Pose)
    ensures WellFormed(ComputeAabb(CubeShape(c), pose)) <==> LessEq(Zero, Cubes.GlobalVector(pose, c.halfExtents))
    ensures pose.rotation == Identity && LessEq(Zero, c.halfExtents) ==> WellFormed(ComputeAabb(CubeShape(c), pose))
    ensures WellFormed(ComputeAabb(CubeShape(c), pose)) ==> PointIn(pose.translation, ComputeAabb(CubeShape(c), pose))
  {
    FromHalfExtentsRoundTrip(pose.translation, Cubes.GlobalVector(pose, c.halfExtents));
    if pose.rotation == Identity {
      Cubes.AabbUnrotated(c, pose.translation);
    }
  }

  /** The plane case: the constant box is well formed. */
  lemma PlaneAabbWellFormed(p: Planes.Plane, pose: Pose)
    ensures WellFormed(ComputeAabb(PlaneShape(p), pose))
  {
    Planes.BoundsIgnorePose(p, p, pose, pose);
  }

  /** The bounding sphere is centred where the box is. */
  lemma ComputeBoundingSphereCentre(shape: Shape, pose: Pose)
    ensures ComputeBoundingSphere(shape, pose).center == Midpoint(ComputeAabb(shape, pose))
  {
    ComputeAabbCentre(shape, pose);
  }

  /** `as_sphere`: the sphere itself for a sphere, an error for the others.
      Sphere/cube/plane queries the source leaves unimplemented on a shape
      are errors here as well. */
  function AsSphere(shape: Shape): (r: Result<Spheres.Sphere>)
    ensures r.Ok? <==> shape.SphereShape?
    ensures r.Ok? ==> SphereShape(r.value) == shape
  {
    if shape.SphereShape? then Ok(shape.sphere) else Err
  }

  /** `as_cube`: the cube itself for a cube, an error for the others. */
  function AsCube(shape: Shape): (r: Result<Cubes.Cube>)
    ensures r.Ok? <==> shape.CubeShape?
    ensures r.Ok? ==> CubeShape(r.value) == shape
  {
    if shape.CubeShape? then Ok(shape.cube) else Err
  }

  /** `as_plane`: the plane itself for a plane, an error for the others. */
  function AsPlane(shape: Shape): (r: Result<Planes.Plane>)
    ensures r.Ok? <==> shape.PlaneShape?
    ensures r.Ok? ==> PlaneShape(r.value) == shape
  {
    if shape.PlaneShape? then Ok(shape.plane) else Err
  }

  /** Exactly one query succeeds on every shape, and the value it gives
      rebuilds the shape. */
  lemma ExactlyOneCapability(shape: Shape)
    ensures AsSphere(shape).Ok? || AsCube(shape).Ok? || AsPlane(shape).Ok?
    ensures !(AsSphere(shape).Ok? && AsCube(shape).Ok?)
    ensures !(AsSphere(shape).Ok? && AsPlane(shape).Ok?)
    ensures !(AsCube(shape).Ok? && AsPlane(shape).Ok?)
  {
  }

  /** The two shapes of the scene test (radius 1 at the origin and at
      (1.99, 1.99, 0)) have intersecting boxes. */
  lemma SceneTestShapesIntersect()
    ensures Intersects(ComputeAabb(SphereShape(Spheres.Sphere(1.0)), Pose(Zero, Identity)),
                       ComputeAabb(SphereShape(Spheres.Sphere(1.0)), Pose(Vec3(1.99, 1.99, 0.0), Identity)))
  {
    Spheres.TwoUnitSpheresIntersect(Identity, Identity);
  }
}
