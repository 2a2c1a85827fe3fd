/** The older `GameObject` of pphysx3d/src/shapes/mod.rs, the one the physics
    scene holds: public fields, a mass setter and an undamped explicit-Euler
    step. */
module LegacyObjects {
  import opened Vectors
  import opened Motion
  import Shapes

  class GameObject {
    var shape: Shapes.Shape
    var position: Pose
    var velocity: Vec3
    var acceleration: Vec3
    var forceAccum: Vec3
    var inverseMass: Ext
    var bounciness: real
    var friction: real

    /** The struct literal: every field is given. */
    constructor (shape: Shapes.Shape, position: Pose, velocity: Vec3, acceleration: Vec3,
                 forceAccum: Vec3, inverseMass: Ext, bounciness: real, friction: real)
      ensures this.shape == shape && this.position == position && this.velocity == velocity
      ensures this.acceleration == acceleration && this.forceAccum == forceAccum
      ensures this.inverseMass == inverseMass && this.bounciness == bounciness && this.friction == friction
    {
      this.shape := shape;
      this.position := position;
      this.velocity := velocity;
      this.acceleration := acceleration;
      this.forceAccum := forceAccum;
      this.inverseMass := inverseMass;
      this.bounciness := bounciness;
      this.friction := friction;
    }

    /** The part of the state the Euler step reads and writes. */
    function Linear(): LinearState
      reads this
    {
      LinearState(position.translation, velocity, acceleration, forceAccum)
    }

    /** `mass()`. */
    function Mass(): Ext
      reads this
    {
      MassOf(inverseMass)
    }

    /** `set_mass`: the inverse mass becomes `1 / mass` (so +inf for mass 0),
      and `mass()` then returns `mass`. */
    method SetMass(mass: Ext)
      modifies this`inverseMass
      ensures inverseMass == Reciprocal(mass)
      ensures Mass() == mass
    {
      inverseMass := Reciprocal(mass);
      SetMassRoundTrip(mass);
    }

    /** `add_force`: the force is added to the accumulator and nothing else
      changes. */
    method AddForce(force: Vec3)
      modifies this`forceAccum
      ensures forceAccum == Add(old(forceAccum), force)
    {
      forceAccum := Add(forceAccum, force);
    }

    /** `clear_accum`. */
    method ClearAccum()
      modifies this`forceAccum
      ensures forceAccum == Zero
    {
      forceAccum := Zero;
    }

    /** `integrate`: the translation moves by `dt` times the old velocity, the
      acceleration gains `inverse_mass` times the gathered force, the velocity
      gains `dt` times the new acceleration (no damping), and the accumulator
      is cleared. The rotation, shape and coefficients are untouched. */
    method Integrate(dt: real)
      requires inverseMass.Finite?
      modifies this`position, this`velocity, this`acceleration, this`forceAccum
      ensures Linear() == EulerStep(old(Linear()), inverseMass.v, dt, 0.0)
      ensures position.rotation == old(position.rotation)
    {
      ghost var before := Linear();
      position := position.(translation := Add(position.translation, Scale(dt, velocity)));
      acceleration := Add(acceleration, Scale(inverseMass.v, forceAccum));
      velocity := Add(velocity, Scale(dt, acceleration));
      ClearAccum();
      UndampedStep(before, inverseMass.v, dt);
    }
  }
}
