# pphysx3d core, modelled in Dafny

pphysx3d is a small rigid-body physics engine written in Rust. This project models the bookkeeping at its centre:

- the bounding volumes (axis-aligned boxes and bounding spheres) and their `contains` and `interects` tests;
- the sphere, cube and plane shapes, and the boxes and spheres they compute for a pose;
- the brute-force broad phase, which pairs up objects whose boxes intersect;
- the physics scene, which holds the objects and moves them by their velocities;
- both versions of `GameObject`:
  - the older one in `shapes/mod.rs`, which the scene holds (no damping);
  - the newer one in `scene/game_object.rs` (mass mapping, force and torque accumulators, inverse inertia tensor, a damped explicit-Euler step).

How the source is represented:

- An `f32` is a `real`. A value that can be `+inf` (a mass, an inverse mass) is `Ext = Finite(v) | PosInf`.
- A vector is `Vec3`. A pose (nalgebra's `Isometry3`) is a translation plus a rotation matrix.
- Boxes, spheres and shapes are datatypes. The `Shape` trait is a datatype with one variant per shape.
- Both game objects and the scene are classes whose methods update fields in place. The scene holds a `seq` of objects.
- The broad-phase loops are methods with loop invariants. Each is proved equal to a function that lists the pairs row by row.
- A vector length (`norm()`) is a ghost function that returns a non-negative square root whenever one exists.

Modules follow the source files. Two modules gather what several files share, and one holds test cases:

- `Vectors`: the nalgebra vector and matrix arithmetic the files use;
- `BoundingVolumes`: `bounding_volume.rs`;
- `Spheres`, `Cubes`, `Planes`: the three shapes;
- `CubeExamples`: the cube cases of `shapes/tests.rs`;
- `Shapes`: the trait and its dispatch;
- `Collision`: `collision/mod.rs`;
- `Motion`: the Euler step that `shapes/mod.rs` and `scene/game_object.rs` share, as functions on state;
- `LegacyObjects`: `shapes/mod.rs`;
- `GameObjects`: `scene/game_object.rs`;
- `Scene`: `scene/mod.rs`.

## Model

| member | source | states |
|---|---|---|
| Vectors.Reciprocal | pphysx3d/src/shapes/mod.rs:39-41 | `1 / x` with `+inf`: 0 maps to `+inf` and `+inf` maps to 0 (both directions); otherwise the product with the input is 1 |
| Vectors.ReciprocalInvolution | pphysx3d/src/shapes/mod.rs:39-48 | taking the reciprocal twice gives the value back, 0 and `+inf` included |
| Vectors.Norm | pphysx3d/src/shapes/cube.rs:32 | the length is non-negative, and its square is the squared length whenever a root exists |
| Vectors.NormOfRoot | pphysx3d/src/shapes/bounding_volume.rs:56 | any non-negative root of the squared length is the length |
| BoundingVolumes.FromHalfExtents | pphysx3d/src/shapes/bounding_volume.rs:20-24 | the box from `center - half_extents` to `center + half_extents`; `FromHalfExtentsRoundTrip` gives centre and half extents back |
| BoundingVolumes.Translate | pphysx3d/src/shapes/bounding_volume.rs:26-29 | both corners moved by the vector, as a new box; `TranslateShifts` states its effect |
| BoundingVolumes.Contains | pphysx3d/src/shapes/bounding_volume.rs:33-35 | `mins <= other.mins` and `maxs >= other.maxs` on every axis; `ContainsIffAllPoints` gives its meaning |
| BoundingVolumes.Intersects | pphysx3d/src/shapes/bounding_volume.rs:36-38 | `mins <= other.maxs` and `maxs >= other.mins` on every axis; `IntersectsIffCommonPoint` gives its meaning |
| BoundingVolumes.SphereContains | pphysx3d/src/shapes/bounding_volume.rs:53-57 | the centre distance plus the inner radius is at most the outer radius; `SphereContainsSquared` restates it without the root |
| BoundingVolumes.SphereIntersects | pphysx3d/src/shapes/bounding_volume.rs:58-64 | the squared centre distance is at most the squared radius sum; `SphereIntersectsIffDistance` gives its meaning |
| BoundingVolumes.FromHalfExtentsRoundTrip | pphysx3d/src/shapes/bounding_volume.rs:20-24 | the box built from a centre and half extents gives both back; with non-negative half extents it is well formed and holds the centre |
| BoundingVolumes.TranslateShifts | pphysx3d/src/shapes/bounding_volume.rs:26-29 | translating keeps the extents, moves the midpoint and every point by the translation, and keeps well-formedness both ways |
| BoundingVolumes.IntersectsSymmetric | pphysx3d/src/shapes/bounding_volume.rs:36-38 | `interects` does not depend on the order of the boxes |
| BoundingVolumes.IntersectsIffCommonPoint | pphysx3d/src/shapes/bounding_volume.rs:36-38 | for well-formed boxes, `interects` holds exactly when the closed boxes share a point |
| BoundingVolumes.IntersectsWhenTouching | pphysx3d/src/shapes/bounding_volume.rs:36-38 | boxes meeting only in a face intersect; boxes with a gap between them do not |
| BoundingVolumes.ContainsReflexive | pphysx3d/src/shapes/bounding_volume.rs:33-35 | every box contains itself |
| BoundingVolumes.ContainsTransitive | pphysx3d/src/shapes/bounding_volume.rs:33-35 | containment chains |
| BoundingVolumes.ContainsIffAllPoints | pphysx3d/src/shapes/bounding_volume.rs:33-35 | for a well-formed inner box, `contains` holds exactly when every point of the inner box lies in the outer one |
| BoundingVolumes.ContainsImpliesIntersects | pphysx3d/src/shapes/bounding_volume.rs:33-38 | a well-formed box that is contained also intersects |
| BoundingVolumes.TranslatePreservesRelations | pphysx3d/src/shapes/bounding_volume.rs:26-38 | translating two boxes by the same vector keeps `interects` and `contains`, both ways |
| BoundingVolumes.SphereIntersectsSymmetric | pphysx3d/src/shapes/bounding_volume.rs:58-64 | the sphere test does not depend on the order of the spheres |
| BoundingVolumes.SphereIntersectsIffDistance | pphysx3d/src/shapes/bounding_volume.rs:58-64 | for non-negative radii, the squared comparison means that the centre distance is at most the sum of the radii |
| BoundingVolumes.SphereContainsSquared | pphysx3d/src/shapes/bounding_volume.rs:53-57 | `contains` is the same as: the radius difference is non-negative and the squared centre distance is at most its square |
| BoundingVolumes.ConcentricContains | pphysx3d/src/shapes/bounding_volume.rs:53-57 | two spheres with the same centre: one contains the other exactly when the other's radius is at most its own |
| Spheres.Aabb | pphysx3d/src/shapes/sphere.rs:17-23 | the translation plus and minus the radius on every axis; `AabbCentred` states its centre and extents |
| Spheres.BoundingSphereOf | pphysx3d/src/shapes/sphere.rs:24-27 | the sphere's radius around the translation; `BoundsIgnoreRotation` states it |
| Spheres.AabbCentred | pphysx3d/src/shapes/sphere.rs:17-23 | the box is centred on the translation, with the radius as half extent on every axis; for a non-negative radius it is well formed and holds the centre |
| Spheres.BoundsIgnoreRotation | pphysx3d/src/shapes/sphere.rs:17-27 | the box and the sphere depend on the translation only; the sphere is the radius around the translation |
| Spheres.AabbContainsIff | pphysx3d/src/shapes/sphere.rs:17-23 | at one pose, the box of radius r1 contains the box of radius r2 exactly when r2 <= r1 |
| Spheres.AabbIntersectsIff | pphysx3d/src/shapes/sphere.rs:17-23 | two sphere boxes intersect exactly when, on every axis, the centres are at most r1 + r2 apart |
| Spheres.RadiusContainmentExamples | pphysx3d/src/shapes/tests.rs:13-60 | at one pose, radius 1 contains radius 0.5 and not radius 2, for both the boxes and the spheres |
| Spheres.TwoUnitSpheresIntersect | pphysx3d/src/collision/tests.rs:6-15 | the boxes of the unit spheres at the origin and at (1.99, 1.99, 0) intersect, whatever the rotations |
| Cubes.GlobalVector | pphysx3d/src/shapes/utils.rs:9-11 | the rotation matrix of the pose applied to the vector; `AabbUnrotated` shows it is the vector itself without rotation |
| Cubes.Aabb | pphysx3d/src/shapes/cube.rs:23-28 | `from_half_extents` of the translation and the rotated half extents, with no absolute values; `AabbSymmetric` and `AabbMissesOwnCentre` state what it gives |
| Cubes.CoveringAabb | pphysx3d/src/shapes/cube.rs:23-28 | the corrected box, with half extents `abs(R) h`; `CoveringAabbContainsCube` and `CoveringAabbWellFormed` state what it gives |
| Cubes.BoundingSphereOf | pphysx3d/src/shapes/cube.rs:31-35 | the length of the half extents around the translation; `BoundingSphereCoversCube` states that it covers the cube |
| Cubes.AabbSymmetric | pphysx3d/src/shapes/cube.rs:23-28 | for every rotation matrix, the corners given by the box as written are symmetric about the translation |
| Cubes.AabbUnrotated | pphysx3d/src/shapes/utils.rs:9-11 | without rotation, the box is the translation plus and minus the half extents |
| CubeExamples.UnrotatedExamples | pphysx3d/src/shapes/tests.rs:64-92 | a cube of half extent 1 at the origin misses one of half extent 0.5 at (10, 0, 0) and meets it at (-1, 0, 0) |
| CubeExamples.RotatedExample | pphysx3d/src/shapes/tests.rs:96-117 | the unit cube turned 45 degrees about x meets the unit cube at (-1.75, 0, 1.75) and misses it 0.3 further along -x |
| Cubes.AabbMissesOwnCentre | pphysx3d/src/shapes/cube.rs:23-28 | as written, a quarter turn about z gives a box that is not well formed, does not hold the cube's centre, and misses a sphere inside the cube |
| Cubes.CoveringAabbWellFormed | pphysx3d/src/shapes/cube.rs:22-28 | with the absolute rotation matrix, the box is well formed for every rotation and centred on the translation |
| Cubes.CoveringAabbContainsCube | pphysx3d/src/shapes/cube.rs:22-28 | every point of the rotated cube lies in the covering box |
| Cubes.CoveringAabbQuarterTurn | pphysx3d/src/shapes/cube.rs:22-28 | on the quarter-turn cube, the covering box is the unit box; it holds the centre and meets the sphere |
| Cubes.CoveringAabbUnrotated | pphysx3d/src/shapes/cube.rs:23-28 | without rotation, the covering box equals the box as written |
| Cubes.BoundingSphereRadiusPoseFree | pphysx3d/src/shapes/cube.rs:31-35 | the radius does not depend on the pose; the centre is the translation |
| Cubes.BoundingSphereExample | pphysx3d/src/shapes/cube.rs:31-35 | half extents (1, 2, 2) give radius 3 |
| Cubes.BoundingSphereCoversCube | pphysx3d/src/shapes/cube.rs:31-35 | every local point of the cube is within the radius of the centre |
| Planes.New | pphysx3d/src/shapes/plane.rs:16-18 | the plane with the given normal; `NormalOfNew` reads it back |
| Planes.Normal | pphysx3d/src/shapes/plane.rs:28-30 | the stored normal; `NormalOfNew` relates it to `New` both ways |
| Planes.Aabb | pphysx3d/src/shapes/plane.rs:34-39 | the box from `-HalfMax` to `HalfMax` whatever the pose; `BoundsIgnorePose` and `AabbIntersectsIff` state it |
| Planes.BoundingSphereOf | pphysx3d/src/shapes/plane.rs:40-44 | radius `HalfMax` around the origin whatever the pose; `BoundsIgnorePose` states it |
| Planes.NormalOfNew | pphysx3d/src/shapes/plane.rs:16-31 | `normal()` gives back exactly the normal passed to `new` |
| Planes.NormalisedIsUnit | pphysx3d/src/shapes/plane.rs:21-25 | a vector divided by its (positive) length has length 1 |
| Planes.BoundsIgnorePose | pphysx3d/src/shapes/plane.rs:34-44 | the box and the sphere are the same for every plane and pose; the box has `mins == -maxs`, with `maxs = f32::MAX / 2` on every axis; the sphere is centred on the origin with that radius |
| Planes.AabbIntersectsIff | pphysx3d/src/shapes/plane.rs:36-38 | the plane box meets a box exactly when that box starts at most `HalfMax` and ends at least `-HalfMax` on every axis |
| Shapes.ComputeAabb | pphysx3d/src/shapes/shape.rs:10 | each shape's own `compute_aabb`: `Sphere::aabb`, `Cube::aabb` as written, the plane's constant box; `CubeComputeAabbIsAabb` states the cube case |
| Shapes.CubeComputeAabbIsAabb | pphysx3d/src/shapes/cube.rs:40-42 | a cube's `compute_aabb` is its `aabb`, and without rotation it is the translation plus and minus the half extents |
| Shapes.CoveringComputeAabb | pphysx3d/src/shapes/cube.rs:23-28 | the dispatch with the corrected cube box `Cubes.CoveringAabb`; the rest of the model uses `ComputeAabb` |
| Shapes.CoveringComputeAabbAgrees | pphysx3d/src/shapes/cube.rs:23-28 | the corrected dispatch equals `compute_aabb` on spheres, planes and unrotated cubes |
| Shapes.CoveringComputeAabbWellFormed | pphysx3d/src/shapes/cube.rs:23-28 | with a non-negative radius or half extents, the corrected box of every shape is well formed, and that of a sphere or a cube holds the translation |
| Shapes.ComputeBoundingSphere | pphysx3d/src/shapes/shape.rs:11 | each shape's own `compute_bounding_sphere`; `ComputeBoundingSphereCentre` relates it to the box |
| Shapes.ComputeAabbCentre | pphysx3d/src/shapes/shape.rs:10 | the dispatched box is centred on the translation for a sphere or a cube (the cube's box as written, for every rotation), and on the origin for a plane |
| Shapes.ComputeAabbWellFormed | pphysx3d/src/shapes/shape.rs:10 | a sphere's box (radius >= 0) and the plane's box are well formed; a cube's box is well formed exactly when its rotated half extents are non-negative, so always without rotation when the half extents are non-negative; a well-formed sphere or cube box holds the translation |
| Shapes.SphereAabbWellFormed | pphysx3d/src/shapes/sphere.rs:31-33 | the sphere's `compute_aabb` with a non-negative radius is well formed and holds the translation |
| Shapes.CubeAabbWellFormed | pphysx3d/src/shapes/cube.rs:40-42 | the cube's `compute_aabb` is well formed exactly when the rotated half extents are non-negative (always without rotation and with non-negative half extents), and then holds the translation |
| Shapes.PlaneAabbWellFormed | pphysx3d/src/shapes/plane.rs:34-39 | the plane's `compute_aabb` is well formed |
| Shapes.ComputeBoundingSphereCentre | pphysx3d/src/shapes/shape.rs:11 | the bounding sphere is centred where the box is |
| Shapes.AsSphere | pphysx3d/src/shapes/sphere.rs:38-40 | `Ok` exactly for a sphere, and then it is the sphere itself |
| Shapes.AsCube | pphysx3d/src/shapes/cube.rs:51-53 | `Ok` exactly for a cube, and then it is the cube itself |
| Shapes.AsPlane | pphysx3d/src/shapes/plane.rs:49-51 | `Ok` exactly for a plane, and then it is the plane itself |
| Shapes.ExactlyOneCapability | pphysx3d/src/shapes/cube.rs:47-57 | exactly one of the three queries succeeds on every shape |
| Shapes.SceneTestShapesIntersect | pphysx3d/src/scene/tests.rs:35-44 | the two unit spheres of the scene test have intersecting boxes |
| Collision.BroadPhasePairs | pphysx3d/src/collision/mod.rs:10-17 | the pairs in the order the two loops over every index emit them; `BroadPhaseMembers` says which pairs they are |
| Collision.UniquePairs | pphysx3d/src/collision/mod.rs:10-17 | the same rows with the inner loop starting after the outer index; `BroadPhaseIsBothOrders` relates it to the pairs as written |
| Collision.BroadPhase | pphysx3d/src/collision/mod.rs:7-21 | the loops emit exactly the row-by-row pair list, and a pair is emitted exactly when it names two distinct objects whose boxes intersect |
| Collision.BroadPhaseUnique | pphysx3d/src/collision/mod.rs:7-21 | with the inner loop started after the outer index, each colliding pair is emitted once, lower index first, and no other pair is emitted |
| Collision.BroadPhaseMembers | pphysx3d/src/collision/mod.rs:10-17 | `(i, j)` is emitted exactly when `i != j` and the boxes intersect; no pair has equal indices |
| Collision.BroadPhaseSymmetric | pphysx3d/src/collision/mod.rs:14 | `(i, j)` is emitted exactly when `(j, i)` is |
| Collision.BroadPhaseIsBothOrders | pphysx3d/src/collision/mod.rs:10-17 | the pairs as written are the unique pairs in both orders |
| Collision.PairsSortedWithoutDuplicates | pphysx3d/src/collision/mod.rs:10-16 | both outputs are in strictly increasing (outer, inner) order, so neither repeats a pair |
| Collision.BroadPhaseLength | pphysx3d/src/collision/mod.rs:9-17 | at most n (n - 1) pairs; none for zero or one object |
| Collision.TestSpheresReportedTwice | pphysx3d/src/collision/tests.rs:6-15 | as written, the two test spheres give `[(0, 1), (1, 0)]`, two pairs where the test expects one; the unique variant gives `[(0, 1)]` |
| Motion.MassOf | pphysx3d/src/shapes/mod.rs:43-48 | the mass is `+inf` exactly when the inverse mass is 0, and 0 exactly when it is `+inf`; otherwise their product is 1 |
| Motion.SetMassRoundTrip | pphysx3d/src/shapes/mod.rs:39-48 | after `set_mass(m)`, `mass()` returns `m`, for every `m` including 0 and `+inf` |
| Motion.EulerStep | pphysx3d/src/scene/game_object.rs:132-152 | the linear part of one step, in the statement order of `integrate`; `UndampedStep`, `CoastingSteps`, `AccelerationGrows` and `DampingDecay` state its effect |
| Motion.AngularStep | pphysx3d/src/scene/game_object.rs:143-151 | the angular part: the acceleration gains the tensor times the torque, the velocity follows it damped, the torque is cleared; `InvTensorScales` and `ImpulseWithoutEffect` give the tensor |
| Motion.UndampedStep | pphysx3d/src/shapes/mod.rs:60-73 | with damping 0, the step is `x += dt v`, then `a += inv f`, then `v += dt a`, then `f = 0` |
| Motion.CoastingStep | pphysx3d/src/shapes/mod.rs:60-73 | with no force and no acceleration, the translation moves by `dt v` and the velocity is kept |
| Motion.ImmovableKeepsAcceleration | pphysx3d/src/shapes/mod.rs:66 | with inverse mass 0, the acceleration never changes whatever force was gathered, and the accumulator is cleared |
| Motion.CoastingSteps | pphysx3d/src/shapes/mod.rs:60-73 | n coasting steps move the translation by `n dt v` |
| Motion.AccelerationGrows | pphysx3d/src/scene/game_object.rs:142 | the acceleration is never reset, so a constant force adds `inv f` to it on every step |
| Motion.DampingDecay | pphysx3d/src/scene/game_object.rs:146 | without force or acceleration, n damped steps scale the velocity by `(1 - DAMPING)^n` |
| Motion.AccumulateIsSum | pphysx3d/src/scene/game_object.rs:110-112 | n calls of `add_force` leave the accumulator plus the sum of the forces |
| LegacyObjects.GameObject.constructor | pphysx3d/src/shapes/mod.rs:26-36 | the struct literal sets every field as given |
| LegacyObjects.GameObject.Mass | pphysx3d/src/shapes/mod.rs:43-48 | `MassOf` of the inverse mass; `SetMass` and `Motion.SetMassRoundTrip` state the round trip |
| LegacyObjects.GameObject.SetMass | pphysx3d/src/shapes/mod.rs:39-41 | the inverse mass becomes `1 / m`, and `mass()` then gives `m` |
| LegacyObjects.GameObject.AddForce | pphysx3d/src/shapes/mod.rs:50-52 | the force is added to the accumulator, and no other field can change |
| LegacyObjects.GameObject.ClearAccum | pphysx3d/src/shapes/mod.rs:54-57 | the accumulator becomes zero |
| LegacyObjects.GameObject.Integrate | pphysx3d/src/shapes/mod.rs:60-73 | the new linear state is the undamped Euler step of the old one, and the rotation is kept |
| GameObjects.InverseMassFor | pphysx3d/src/scene/game_object.rs:41-49 | mass `+inf` (and only it) gives 0; a mass at most `f32::EPSILON` (and only it) gives `+inf`; otherwise the inverse is positive and times the mass gives 1 |
| GameObjects.InverseMassRoundTrip | pphysx3d/src/scene/game_object.rs:41-49 | the inverse mass `new` stores for every mass above `f32::EPSILON`, and for `+inf`, reads back through `mass()` as that mass; a smaller mass reads back as 0 |
| GameObjects.GameObject.Mass | pphysx3d/src/scene/game_object.rs:160-165 | `MassOf` of the inverse mass: `1 / inverse_mass`, or `+inf` for 0 |
| GameObjects.InvMassAsWritten | pphysx3d/src/scene/game_object.rs:168-173 | `1 / inverse_mass`, or 0 for 0, as written; `InvMassReturnsMass` shows it is the mass |
| GameObjects.GameObject.InvMass | pphysx3d/src/scene/game_object.rs:168-173 | `inv_mass()` as written, that is `InvMassAsWritten` of the inverse mass (0.5 gives 2) |
| GameObjects.InvMassReturnsMass | pphysx3d/src/scene/game_object.rs:168-173 | as written, `inv_mass()` equals `mass()` whenever the inverse mass is not 0 (inverse mass 0.5 reports 2) |
| GameObjects.InvMassIntended | pphysx3d/src/scene/game_object.rs:167-173 | the documented inverse mass: the reciprocal of `mass()` for every inverse mass |
| GameObjects.InvTensor | pphysx3d/src/scene/game_object.rs:80-97 | `2.5 inv / r^2` on the diagonal for a sphere, and the zero matrix for every other shape whatever the inverse mass; `InvTensorScales` and `InvTensorInvertsInertia` state it |
| GameObjects.InvTensorScales | pphysx3d/src/scene/game_object.rs:80-97 | for a sphere of radius r != 0 and finite inverse mass the tensor scales every vector by `2.5 inv / r^2`; for every other shape, with any inverse mass, it sends every vector to zero |
| GameObjects.InvTensorInvertsInertia | pphysx3d/src/scene/game_object.rs:80-97 | for a sphere, the tensor times the solid-sphere inertia `2/5 m r^2` is the identity |
| GameObjects.ImpulseWithoutEffect | pphysx3d/src/scene/game_object.rs:71-97 | a rotational impulse on a shape other than a sphere, or at the centre of mass, changes nothing |
| GameObjects.GameObject.constructor | pphysx3d/src/scene/game_object.rs:31-65 | the mass becomes the inverse mass of `InverseMassFor`; the accelerations and accumulators start at zero; the other fields are as given |
| GameObjects.GameObject.AddLinearImpulse | pphysx3d/src/scene/game_object.rs:67-69 | the impulse is added to the velocity, and nothing else can change |
| GameObjects.GameObject.AddRotationalImpulse | pphysx3d/src/scene/game_object.rs:71-76 | the angular velocity gains the tensor applied to `(contact - centre) x impulse`, and is unchanged for non-spheres, whatever their inverse mass (`+inf` included), or for a contact at the centre |
| GameObjects.GameObject.AddForce | pphysx3d/src/scene/game_object.rs:110-112 | only the force accumulator changes, by the force |
| GameObjects.GameObject.AddAngularForce | pphysx3d/src/scene/game_object.rs:120-122 | only the torque accumulator changes, by the torque |
| GameObjects.GameObject.ClearAccum | pphysx3d/src/scene/game_object.rs:125-129 | both accumulators become zero |
| GameObjects.GameObject.Integrate | pphysx3d/src/scene/game_object.rs:132-152 | the linear state is the damped Euler step of the old one; the angular state is the damped step through the inverse tensor; the rotation is multiplied by `spin`; both accumulators end at zero |
| GameObjects.GameObject.AddVelocity | pphysx3d/src/scene/game_object.rs:186-188 | only the velocity changes, by the argument |
| GameObjects.GameObject.AddAcceleration | pphysx3d/src/scene/game_object.rs:191-193 | only the acceleration changes, by the argument |
| GameObjects.GameObject.AddAngularVelocity | pphysx3d/src/scene/game_object.rs:196-198 | only the angular velocity changes, by the argument |
| GameObjects.GameObject.AddAngularAcceleration | pphysx3d/src/scene/game_object.rs:201-203 | only the angular acceleration changes, by the argument |
| GameObjects.GameObject.SetTranslation | pphysx3d/src/scene/game_object.rs:206-208 | the translation is replaced and the rotation is kept |
| GameObjects.GameObject.Sphere | pphysx3d/src/scene/game_object.rs:217-241 | a fresh sphere object at the given pose, with the given motion and the mapped mass |
| GameObjects.GameObject.SphereDefault | pphysx3d/src/scene/game_object.rs:244-265 | as `Sphere`, with no rotation and zero velocities |
| GameObjects.GameObject.Plane | pphysx3d/src/scene/game_object.rs:268-294 | a fresh plane object whose normal is the given one scaled to unit length |
| GameObjects.GameObject.PlaneDefault | pphysx3d/src/scene/game_object.rs:297-320 | as `Plane`, with no rotation and zero velocities |
| Scene.Stepped | pphysx3d/src/scene/mod.rs:40-45 | one moved translation per object |
| Scene.SteppedZero | pphysx3d/src/scene/mod.rs:40-45 | a step of length 0 moves nothing |
| Scene.SteppedCompose | pphysx3d/src/scene/mod.rs:40-45 | a step of `a` followed by a step of `b` is a step of `a + b` |
| Scene.SteppedUpdatePositionTest | pphysx3d/src/scene/tests.rs:10-32 | from the origin, velocities (1, 0, 0) and (0, 0, 1) and a step of 1 give (1, 0, 0) and (0, 0, 1) |
| Scene.PhysicsScene.constructor | pphysx3d/src/scene/mod.rs:9-13 | the scene starts empty |
| Scene.PhysicsScene.Add | pphysx3d/src/scene/mod.rs:16-18 | the object is appended, last, with the earlier ones unchanged |
| Scene.PhysicsScene.Remove | pphysx3d/src/scene/mod.rs:21-23 | the length drops by 1, objects before the index are kept, and later ones move down one place |
| Scene.PhysicsScene.UpdatePositions | pphysx3d/src/scene/mod.rs:40-45 | every translation moves by `dt` times its velocity; velocities, rotations and all other fields are unchanged |
| Scene.PhysicsScene.Update | pphysx3d/src/scene/mod.rs:26-37 | the broad phase as written runs and its result is dropped, so the effect is exactly that of `update_positions`: translations stepped, velocities, rotations and every other field unchanged |
| Scene.UpdatePositionScenario | pphysx3d/src/scene/tests.rs:10-32 | the test run through the scene's own methods ends with translations (1, 0, 0) and (0, 0, 1) |

## Left out

- Floating point. `f32` is modelled by reals. The model has no rounding, no NaN and no overflow. `f32::MAX / 2` is the exact real `HalfMax`.
- The `mass >= INFINITY - f32::EPSILON` test in `new` is read as `mass == +inf`, which is its value in `f32`.
- Orientation. nalgebra's unit quaternions and their rotation matrices are not modelled:
  - a pose carries a rotation matrix;
  - in `integrate`, the rotation matrix of `UnitQuaternion::new(0.5 * dt * angular_velocity)` is the parameter `spin`;
  - `Sphere` and `Plane` take the rotation matrix of their axis-angle argument;
  - `set_rotation` is not modelled.
- Normalisation. `UnitVector3::new_normalize` is not modelled as a square root:
  - `GameObjects.GameObject.Plane` and `PlaneDefault` take the normal's length as a parameter, and require that it is positive and a square root of the squared length;
  - `Plane::from_vector3` is covered by `Planes.NormalisedIsUnit` only.
- Ray casting (`ray_cast` in `cube.rs` and `plane.rs`, `ray.rs`, `raycast.rs`, the `Ray` struct of `shapes/mod.rs`). It is not part of the step.
- The renderer, windowing and the example programs. They are I/O and render loops.
- `src/shape/mod.rs`. It holds only `todo!()` stubs.
- The narrow phase. It has an empty body, and its result is unused by `update`.
- The object colour and the plain getters (`shape`, `force_accum`, `torque_accum`, `color`, `bounciness`, `friction`). They are fields read as they are.
- `translate` changes a box in place. Here `BoundingVolumes.Translate` returns the moved box instead.
- Each `Shape` call takes a pose:
  - `broad_phase` calls `compute_aabb()` with no argument in `collision/mod.rs:14`;
  - `broad_phase` returns pairs of references; the model returns pairs of indices;
  - the scene gives each object's `position` as the pose.
- The shape-specific capability queries that the source leaves out (`as_cube` on a sphere or a plane, `as_plane` on a sphere) are `Err` here, like the other negative answers.
- The scene's tests build objects of the newer `GameObject`, but the scene holds the older one. The scenario uses the older one and sets the velocity field directly.
- `PhysicsScene.Add` requires that the object is not already in the scene. In Rust the scene takes ownership of it, so it cannot already be there.
- `PhysicsScene.Remove` requires an index within bounds. Rust panics on any other index.
- Requirements where `f32` would give `inf` or NaN, which the real-number model cannot represent:
  - `GameObjects.InvTensor` requires, for a sphere only, a finite inverse mass and a non-zero radius (`2.5 * inf / r^2` or a division by 0). For other shapes it is the zero matrix with any inverse mass.
  - `GameObjects.GameObject.AddRotationalImpulse` carries the same requirement, for spheres only. A cube or a plane with inverse mass `+inf` is covered, and its angular velocity is unchanged.
  - `GameObjects.GameObject.Integrate` requires a finite inverse mass for every shape. The linear step multiplies the force accumulator by it, and `inf * 0` is NaN. It also requires a non-zero radius for a sphere.
  - `LegacyObjects.GameObject.Integrate` requires a finite inverse mass, for the same reason.
- `Vectors.Norm` is defined only where a square root exists. Where none is known, the cube's bounding sphere and `BoundingSphere::contains` are stated through squared lengths.

## Findings

| source | as written | input that shows it | evidently intended | confidence | as-written member | corrected member |
|---|---|---|---|---|---|---|
| pphysx3d/src/collision/mod.rs:10-17 | the inner loop runs over every index, so each colliding pair is pushed twice, as (i, j) and as (j, i) | unit spheres at (0, 0, 0) and (1.99, 1.99, 0): two pairs, while collision/tests.rs:13 expects one and scene/tests.rs:41-43 expects (0, 1) | each unordered pair once, lower index first | not executed | Collision.TestSpheresReportedTwice | Collision.BroadPhaseUnique |
| pphysx3d/src/shapes/cube.rs:23-28 | the half extents are rotated without taking absolute values | a unit cube turned a quarter turn about z: the x corners swap, and the box misses the cube's own centre | half extents `abs(R) h`, a box that holds the rotated cube | not executed | Cubes.AabbMissesOwnCentre | Cubes.CoveringAabbContainsCube |
| pphysx3d/src/scene/game_object.rs:167-173 | `inv_mass` returns `1 / inverse_mass`, which is the mass | inverse mass 0.5: `inv_mass()` returns 2 | the inverse mass itself | not executed | GameObjects.InvMassReturnsMass | GameObjects.InvMassIntended |

The rest of the model follows the code as written:

- `Shapes.ComputeAabb` gives a cube the box `Cubes.Aabb`;
- `Scene.PhysicsScene.Update` calls `Collision.BroadPhase`;
- `GameObjects.GameObject.InvMass` is `InvMassAsWritten`.

The corrected versions stand beside them, with their properties proved: `Cubes.CoveringAabb` and the dispatch `Shapes.CoveringComputeAabb`, `Collision.BroadPhaseUnique`, and `GameObjects.InvMassIntended`.
