/** The physics `GameObject` of pphysx3d/src/scene/game_object.rs: a collider
    with mass, linear and angular motion, force and torque accumulators, and a
    damped explicit-Euler step. */
module GameObjects {
  import opened Vectors
  import opened Motion
  import Spheres
  import Planes
  import opened Shapes

  /** `DAMPING`: the share of velocity lost on every step. */
  const Damping: real := 0.001

  /** The inverse mass `new` stores for a mass: 0 for a mass of +inf, +inf for
      a mass at most `f32::EPSILON` (zero and negative masses included), and
      `1 / mass` otherwise. */
  function InverseMassFor(mass: Ext): (inv: Ext)
    ensures inv == Finite(0.0) <==> mass == PosInf
    ensures inv == PosInf <==> mass.Finite? && mass.v <= Epsilon
    ensures inv.Finite? && mass.Finite? ==> inv.v > 0.0 && inv.v * mass.v == 1.0
  {
    match mass
    case PosInf => Finite(0.0)
    case Finite(m) => if m <= Epsilon then PosInf else Finite(1.0 / m)
  }

  /** A mass above `f32::EPSILON`, or +inf, is given back by `mass()`; a
      smaller one reads back as 0. */
  lemma InverseMassRoundTrip(mass: Ext)
    ensures mass == PosInf || mass.v > Epsilon ==> MassOf(InverseMassFor(mass)) == mass
    ensures mass.Finite? && mass.v <= Epsilon ==> MassOf(InverseMassFor(mass)) == Finite(0.0)
  {
    if mass.Finite? && mass.v > Epsilon {
      ReciprocalInvolution(mass);
    }
  }

  /** `inv_mass` as written: `1 / inverse_mass` when the inverse mass is not
      0, and 0 when it is. */
  function InvMassAsWritten(inverseMass: Ext): Ext
  {
    if inverseMass != Finite(0.0) then Reciprocal(inverseMass) else Finite(0.0)
  }

  /** As written, `inv_mass` returns the mass whenever the inverse mass is not
      0: an object of inverse mass 0.5 reports 2. */
  lemma InvMassReturnsMass(inverseMass: Ext)
    ensures inverseMass != Finite(0.0) ==> InvMassAsWritten(inverseMass) == MassOf(inverseMass)
    ensures InvMassAsWritten(Finite(0.5)) == Finite(2.0) != Finite(0.5)
  {
  }

  /** What `inv_mass` is documented to return: the inverse mass itself, the
      reciprocal of `mass()` for every inverse mass. */
  function InvMassIntended(inverseMass: Ext): (inv: Ext)
    ensures Reciprocal(MassOf(inv)) == inverseMass
  {
    ReciprocalInvolution(inverseMass);
    inverseMass
  }

  /** `inv_tensor`: for a sphere, the diagonal matrix with
      `2.5 * inverse_mass / radius^2` on every axis; for every other shape, the
      zero matrix, whatever the inverse mass (`+inf` included). */
  function InvTensor(shape: Shape, inverseMass: Ext): Mat3
    requires shape.SphereShape? ==> inverseMass.Finite? && shape.sphere.radius != 0.0
  {
    match AsSphere(shape)
    case Ok(s) => Diagonal(Repeat(SphereFactor(inverseMass.v, s.radius)))
    case Err => ZeroMatrix
  }

  /** The diagonal entry of a sphere's inverse inertia tensor. */
  function SphereFactor(inverseMass: real, radius: real): real
    requires radius != 0.0
  {
    2.5 * inverseMass / (radius * radius)
  }

  /** The tensor scales every vector by the same factor for a sphere and sends
      every vector to zero otherwise. */
  lemma InvTensorScales(shape: Shape, inverseMass: Ext, v: Vec3)
    requires shape.SphereShape? ==> inverseMass.Finite? && shape.sphere.radius != 0.0
    ensures shape.SphereShape? ==>
              MulVec(InvTensor(shape, inverseMass), v) == Scale(SphereFactor(inverseMass.v, shape.sphere.radius), v)
    ensures !shape.SphereShape? ==> MulVec(InvTensor(shape, inverseMass), v) == Zero
  {
    if shape.SphereShape? {
      DiagonalScales(SphereFactor(inverseMass.v, shape.sphere.radius), v);
    } else {
      assert InvTensor(shape, inverseMass) == ZeroMatrix;
      assert Dot(Zero, v) == 0.0;
    }
  }

  /** For a sphere of positive inverse mass the tensor is the inverse of the
      solid sphere's inertia tensor, `2/5 m r^2` on every axis. */
  lemma InvTensorInvertsInertia(radius: real, inverseMass: real)
    requires radius != 0.0 && inverseMass > 0.0
    ensures var i := 0.4 * (1.0 / inverseMass) * (radius * radius);
            MulMat(InvTensor(SphereShape(Spheres.Sphere(radius)), Finite(inverseMass)), Diagonal(Repeat(i))) == Identity
  {
    var k := SphereFactor(inverseMass, radius);
    var i := 0.4 * (1.0 / inverseMass) * (radius * radius);
    assert k * i == 1.0 by {
      assert k * i == (2.5 * 0.4) * (inverseMass * (1.0 / inverseMass)) * ((radius * radius) / (radius * radius));
    }
  }

  /** A rotational impulse changes nothing for a shape other than a sphere or
      when it is applied at the centre of mass. */
  lemma ImpulseWithoutEffect(shape: Shape, inverseMass: Ext, contact: Vec3, center: Vec3, impulse: Vec3)
    requires shape.SphereShape? ==> inverseMass.Finite? && shape.sphere.radius != 0.0
    requires !shape.SphereShape? || contact == center
    ensures MulVec(InvTensor(shape, inverseMass), Cross(Sub(contact, center), impulse)) == Zero
  {
    InvTensorScales(shape, inverseMass, Cross(Sub(contact, center), impulse));
    if shape.SphereShape? {
      assert Cross(Sub(contact, center), impulse) == Zero;
      assert Scale(SphereFactor(inverseMass.v, shape.sphere.radius), Zero) == Zero;
    }
  }

  class GameObject {
    const shape: Shape
    const inverseMass: Ext
    const bounciness: real
    const friction: real
    var position: Pose
    var velocity: Vec3
    var acceleration: Vec3
    var forceAccum: Vec3
    var angularVelocity: Vec3
    var angularAcceleration: Vec3
    var torqueAccum: Vec3

    /** `new`: the mass is turned into an inverse mass; the accelerations and
      accumulators start at zero. */
    constructor (shape: Shape, position: Pose, velocity: Vec3, angularVelocity: Vec3,
                 mass: Ext, bounciness: real, friction: real)
      ensures this.shape == shape && this.position == position
      ensures this.velocity == velocity && this.angularVelocity == angularVelocity
      ensures this.inverseMass == InverseMassFor(mass)
      ensures this.bounciness == bounciness && this.friction == friction
      ensures acceleration == Zero && forceAccum == Zero
      ensures angularAcceleration == Zero && torqueAccum == Zero
    {
      this.shape := shape;
      this.inverseMass := InverseMassFor(mass);
      this.bounciness := bounciness;
      this.friction := friction;
      this.position := position;
      this.velocity := velocity;
      this.acceleration := Zero;
      this.forceAccum := Zero;
      this.angularVelocity := angularVelocity;
      this.angularAcceleration := Zero;
      this.torqueAccum := Zero;
    }

    function Linear(): LinearState
      reads this
    {
      LinearState(position.translation, velocity, acceleration, forceAccum)
    }

    function Angular(): AngularState
      reads this
    {
      AngularState(angularVelocity, angularAcceleration, torqueAccum)
    }

    /** `mass()`. */
    function Mass(): Ext
      reads this
    {
      MassOf(inverseMass)
    }

    /** `inv_mass()` as written: it returns the mass (see InvMassReturnsMass;
      InvMassIntended is the documented value). */
    function InvMass(): Ext
      reads this
    {
      InvMassAsWritten(inverseMass)
    }

    /** `add_linear_impulse`: the impulse is added to the velocity. */
    method AddLinearImpulse(impulse: Vec3)
      modifies this`velocity
      ensures velocity == Add(old(velocity), impulse)
    {
      velocity := Add(velocity, impulse);
    }

    /** `add_rotational_impulse`: the torque about the centre of mass is applied
      through the inverse inertia tensor to the angular velocity. */
    method AddRotationalImpulse(contact: Vec3, impulse: Vec3)
      requires shape.SphereShape? ==> inverseMass.Finite? && shape.sphere.radius != 0.0
      modifies this`angularVelocity
      ensures angularVelocity == Add(old(angularVelocity),
                MulVec(InvTensor(shape, inverseMass), Cross(Sub(contact, position.translation), impulse)))
      ensures !shape.SphereShape? || contact == position.translation ==> angularVelocity == old(angularVelocity)
    {
      var torque := Cross(Sub(contact, position.translation), impulse);
      angularVelocity := Add(angularVelocity, MulVec(InvTensor(shape, inverseMass), torque));
      if !shape.SphereShape? || contact == position.translation {
        ImpulseWithoutEffect(shape, inverseMass, contact, position.translation, impulse);
      }
    }

    /** `add_force`: only the force accumulator changes. */
    method AddForce(force: Vec3)
      modifies this`forceAccum
      ensures forceAccum == Add(old(forceAccum), force)
    {
      forceAccum := Add(forceAccum, force);
    }

    /** `add_angular_force`: only the torque accumulator changes. */
    method AddAngularForce(torque: Vec3)
      modifies this`torqueAccum
      ensures torqueAccum == Add(old(torqueAccum), torque)
    {
      torqueAccum := Add(torqueAccum, torque);
    }

    /** `clear_accum`: both accumulators are zeroed. */
    method ClearAccum()
      modifies this`forceAccum, this`torqueAccum
      ensures forceAccum == Zero && torqueAccum == Zero
    {
      forceAccum := Zero;
      torqueAccum := Zero;
    }

    /** `integrate`: the damped Euler step for the linear and the angular
      state. The orientation is multiplied by `spin`, the rotation matrix of
      the quaternion for the scaled axis `0.5 * dt * angular_velocity`. */
    method Integrate(dt: real, spin: Mat3)
      requires inverseMass.Finite?
      requires shape.SphereShape? ==> shape.sphere.radius != 0.0
      modifies this`position, this`velocity, this`acceleration, this`forceAccum
      modifies this`angularVelocity, this`angularAcceleration, this`torqueAccum
      ensures Linear() == EulerStep(old(Linear()), inverseMass.v, dt, Damping)
      ensures Angular() == AngularStep(old(Angular()), InvTensor(shape, inverseMass), dt, Damping)
      ensures position.rotation == MulMat(old(position.rotation), spin)
    {
      IntegrateLinear(dt, spin);
      IntegrateAngular(dt);
    }

    /** The statements of `integrate` on the pose and the linear fields; the
      angular ones read and write none of these, so the order is kept. */
    method IntegrateLinear(dt: real, spin: Mat3)
      requires inverseMass.Finite?
      modifies this`position, this`velocity, this`acceleration, this`forceAccum
      ensures Linear() == EulerStep(old(Linear()), inverseMass.v, dt, Damping)
      ensures position.rotation == MulMat(old(position.rotation), spin)
    {
      position := Pose(Add(position.translation, Scale(dt, velocity)), MulMat(position.rotation, spin));
      acceleration := Add(acceleration, Scale(inverseMass.v, forceAccum));
      velocity := DampedVelocity(velocity, acceleration, dt, Damping);
      forceAccum := Zero;
    }

    /** The statements of `integrate` on the angular fields. */
    method IntegrateAngular(dt: real)
      requires shape.SphereShape? ==> inverseMass.Finite? && shape.sphere.radius != 0.0
      modifies this`angularVelocity, this`angularAcceleration, this`torqueAccum
      ensures Angular() == AngularStep(old(Angular()), InvTensor(shape, inverseMass), dt, Damping)
    {
      var tensor := InvTensor(shape, inverseMass);
      angularAcceleration := Add(angularAcceleration, MulVec(tensor, torqueAccum));
      angularVelocity := DampedVelocity(angularVelocity, angularAcceleration, dt, Damping);
      torqueAccum := Zero;
    }

    /** `add_velocity`. */
    method AddVelocity(v: Vec3)
      modifies this`velocity
      ensures velocity == Add(old(velocity), v)
    {
      velocity := Add(velocity, v);
    }

    /** `add_acceleration`. */
    method AddAcceleration(a: Vec3)
      modifies this`acceleration
      ensures acceleration == Add(old(acceleration), a)
    {
      acceleration := Add(acceleration, a);
    }

    /** `add_angularvelocity`. */
    method AddAngularVelocity(w: Vec3)
      modifies this`angularVelocity
      ensures angularVelocity == Add(old(angularVelocity), w)
    {
      angularVelocity := Add(angularVelocity, w);
    }

    /** `add_angularacceleration`. */
    method AddAngularAcceleration(alpha: Vec3)
      modifies this`angularAcceleration
      ensures angularAcceleration == Add(old(angularAcceleration), alpha)
    {
      angularAcceleration := Add(angularAcceleration, alpha);
    }

    /** `set_translation`: the translation is replaced, the rotation kept. */
    method SetTranslation(t: Vec3)
      modifies this`position
      ensures position == Pose(t, old(position.rotation))
    {
      position := position.(translation := t);
    }

    /** `Sphere`: a sphere of the given radius at the given pose; the
      rotation is the matrix of the axis-angle vector the source passes. */
    static method Sphere(radius: real, translation: Vec3, rotation: Mat3, velocity: Vec3,
                         angularVelocity: Vec3, mass: Ext, bounciness: real, friction: real)
      returns (o: GameObject)
      ensures fresh(o) && o.shape == SphereShape(Spheres.Sphere(radius))
      ensures o.position == Pose(translation, rotation)
      ensures o.velocity == velocity && o.angularVelocity == angularVelocity
      ensures o.inverseMass == InverseMassFor(mass) && o.bounciness == bounciness && o.friction == friction
      ensures o.acceleration == Zero && o.forceAccum == Zero
      ensures o.angularAcceleration == Zero && o.torqueAccum == Zero
    {
      o := new GameObject(SphereShape(Spheres.Sphere(radius)), Pose(translation, rotation),
                          velocity, angularVelocity, mass, bounciness, friction);
    }

    /** `Sphere_default`: no rotation and no motion. */
    static method SphereDefault(radius: real, translation: Vec3, mass: Ext, bounciness: real, friction: real)
      returns (o: GameObject)
      ensures fresh(o) && o.shape == SphereShape(Spheres.Sphere(radius))
      ensures o.position == Pose(translation, Identity)
      ensures o.velocity == Zero && o.angularVelocity == Zero
      ensures o.inverseMass == InverseMassFor(mass) && o.bounciness == bounciness && o.friction == friction
      ensures o.acceleration == Zero && o.forceAccum == Zero
      ensures o.angularAcceleration == Zero && o.torqueAccum == Zero
    {
      o := new GameObject(SphereShape(Spheres.Sphere(radius)), Pose(translation, Identity),
                          Zero, Zero, mass, bounciness, friction);
    }

    /** `Plane`: a plane whose normal is `normal` scaled to unit length;
      `length` is the length of `normal`. */
    static method Plane(normal: Vec3, length: real, translation: Vec3, rotation: Mat3, velocity: Vec3,
                        angularVelocity: Vec3, mass: Ext, bounciness: real, friction: real)
      returns (o: GameObject)
      requires length > 0.0 && IsRoot(NormSquared(normal), length)
      ensures fresh(o) && o.shape == PlaneShape(Planes.New(Scale(1.0 / length, normal)))
      ensures NormSquared(Planes.Normal(o.shape.plane)) == 1.0
      ensures o.position == Pose(translation, rotation)
      ensures o.velocity == velocity && o.angularVelocity == angularVelocity
      ensures o.inverseMass == InverseMassFor(mass) && o.bounciness == bounciness && o.friction == friction
      ensures o.acceleration == Zero && o.forceAccum == Zero
      ensures o.angularAcceleration == Zero && o.torqueAccum == Zero
    {
      Planes.NormalisedIsUnit(normal, length);
      o := new GameObject(PlaneShape(Planes.New(Scale(1.0 / length, normal))), Pose(translation, rotation),
                          velocity, angularVelocity, mass, bounciness, friction);
    }

    /** `Plane_default`: no rotation and no motion. */
    static method PlaneDefault(normal: Vec3, length: real, translation: Vec3, mass: Ext,
                               bounciness: real, friction: real)
      returns (o: GameObject)
      requires length > 0.0 && IsRoot(NormSquared(normal), length)
      ensures fresh(o) && o.shape == PlaneShape(Planes.New(Scale(1.0 / length, normal)))
      ensures NormSquared(Planes.Normal(o.shape.plane)) == 1.0
      ensures o.position == Pose(translation, Identity)
      ensures o.velocity == Zero && o.angularVelocity == Zero
      ensures o.inverseMass == InverseMassFor(mass) && o.bounciness == bounciness && o.friction == friction
      ensures o.acceleration == Zero && o.forceAccum == Zero
      ensures o.angularAcceleration == Zero && o.torqueAccum == Zero
    {
      Planes.NormalisedIsUnit(normal, length);
      o := new GameObject(PlaneShape(Planes.New(Scale(1.0 / length, normal))), Pose(translation, Identity),
                          Zero, Zero, mass, bounciness, friction);
    }
  }
}
