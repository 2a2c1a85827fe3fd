/** The explicit-Euler step shared by both versions of `GameObject::integrate`
    (pphysx3d/src/shapes/mod.rs and pphysx3d/src/scene/game_object.rs), as
    functions on the state the step reads and writes. */
module Motion {
  import opened Vectors

  /** The linear part of a body: where it is, how it moves, and the forces
      gathered since the last step. */
  datatype LinearState = LinearState(translation: Vec3, velocity: Vec3, acceleration: Vec3, forceAccum: Vec3)

  /** The angular part: the orientation itself is kept apart. */
  datatype AngularState = AngularState(angularVelocity: Vec3, angularAcceleration: Vec3, torqueAccum: Vec3)

  /** `mass()` in both versions: `1 / inverse_mass` when the inverse mass is
      not 0, and +inf when it is (an inverse mass of +inf gives mass 0). */
  function MassOf(inverseMass: Ext): (m: Ext)
    ensures m == PosInf <==> inverseMass == Finite(0.0)
    ensures m == Finite(0.0) <==> inverseMass == PosInf
    ensures m.Finite? && inverseMass.Finite? && inverseMass.v != 0.0 ==> m.v * inverseMass.v == 1.0
  {
    if inverseMass != Finite(0.0) then Reciprocal(inverseMass) else PosInf
  }

  /** Setting the inverse mass to `1 / m` makes `mass()` give `m` back, for
      every mass including 0 and +inf. */
  lemma SetMassRoundTrip(m: Ext)
    ensures MassOf(Reciprocal(m)) == m
  {
    ReciprocalInvolution(m);
  }

  /** The new velocity: the old one plus `dt` times the new acceleration,
      scaled by `1 - damping`. */
  function DampedVelocity(velocity: Vec3, acceleration: Vec3, dt: real, damping: real): Vec3
  {
    Scale(1.0 - damping, Add(velocity, Scale(dt, acceleration)))
  }

  /** One step: the translation moves by `dt` times the velocity from before
      the step; the acceleration gains `inverseMass` times the gathered force
      and is never reset; the velocity follows the new acceleration; the
      force accumulator is cleared. */
  function EulerStep(s: LinearState, inverseMass: real, dt: real, damping: real): LinearState
  {
    var a := Add(s.acceleration, Scale(inverseMass, s.forceAccum));
    LinearState(Add(s.translation, Scale(dt, s.velocity)), DampedVelocity(s.velocity, a, dt, damping), a, Zero)
  }

  /** The angular step: the angular acceleration gains the inverse inertia
      tensor applied to the gathered torque, the angular velocity follows it,
      and the torque accumulator is cleared. */
  function AngularStep(s: AngularState, invTensor: Mat3, dt: real, damping: real): AngularState
  {
    var alpha := Add(s.angularAcceleration, MulVec(invTensor, s.torqueAccum));
    AngularState(DampedVelocity(s.angularVelocity, alpha, dt, damping), alpha, Zero)
  }

  /** Without damping the step is the undamped explicit-Euler update. */
  lemma UndampedStep(s: LinearState, inverseMass: real, dt: real)
    ensures var a := Add(s.acceleration, Scale(inverseMass, s.forceAccum));
            EulerStep(s, inverseMass, dt, 0.0) ==
              LinearState(Add(s.translation, Scale(dt, s.velocity)), Add(s.velocity, Scale(dt, a)), a, Zero)
  {
    var a := Add(s.acceleration, Scale(inverseMass, s.forceAccum));
    assert Scale(1.0, Add(s.velocity, Scale(dt, a))) == Add(s.velocity, Scale(dt, a));
  }

  /** With no gathered force and no acceleration, an undamped step moves the
      translation by `dt` times the velocity and keeps the velocity. */
  lemma CoastingStep(s: LinearState, inverseMass: real, dt: real)
    requires s.forceAccum == Zero && s.acceleration == Zero
    ensures EulerStep(s, inverseMass, dt, 0.0) ==
              LinearState(Add(s.translation, Scale(dt, s.velocity)), s.velocity, Zero, Zero)
  {
    UndampedStep(s, inverseMass, dt);
  }

  /** An immovable body (inverse mass 0) keeps its acceleration whatever force
      was gathered. */
  lemma ImmovableKeepsAcceleration(s: LinearState, dt: real, damping: real)
    ensures EulerStep(s, 0.0, dt, damping).acceleration == s.acceleration
    ensures EulerStep(s, 0.0, dt, damping).forceAccum == Zero
  {
    assert Scale(0.0, s.forceAccum) == Zero;
  }

  /** `n` steps of the same size, each preceded by gathering `force`. */
  function Steps(s: LinearState, inverseMass: real, dt: real, damping: real, force: Vec3, n: nat): LinearState
    decreases n
  {
    if n == 0 then s
    else Steps(EulerStep(s.(forceAccum := Add(s.forceAccum, force)), inverseMass, dt, damping),
               inverseMass, dt, damping, force, n - 1)
  }

  /** Coasting without damping for `n` steps moves the translation by
      `n dt` times the velocity and leaves the velocity as it was. */
  lemma {:induction false} CoastingSteps(s: LinearState, inverseMass: real, dt: real, n: nat)
    requires s.forceAccum == Zero && s.acceleration == Zero
    ensures Steps(s, inverseMass, dt, 0.0, Zero, n) ==
              s.(translation := Add(s.translation, Scale(n as real * dt, s.velocity)))
    decreases n
  {
    if n > 0 {
      assert s.(forceAccum := Add(s.forceAccum, Zero)) == s;
      CoastingStep(s, inverseMass, dt);
      var next := EulerStep(s, inverseMass, dt, 0.0);
      CoastingSteps(next, inverseMass, dt, n - 1);
      var c := (n - 1) as real;
      assert Add(next.translation, Scale(c * dt, s.velocity)) ==
             Add(s.translation, Add(Scale(dt, s.velocity), Scale(c * dt, s.velocity)));
      ScaleAdd(dt, c * dt, s.velocity);
      assert dt + c * dt == n as real * dt;
    }
  }

  /** Because the acceleration is never reset, a constant force adds
      `inverseMass` times the force to it on every step. */
  lemma {:induction false} AccelerationGrows(s: LinearState, inverseMass: real, dt: real, damping: real, force: Vec3, n: nat)
    requires s.forceAccum == Zero
    ensures Steps(s, inverseMass, dt, damping, force, n).acceleration ==
              Add(s.acceleration, Scale(n as real, Scale(inverseMass, force)))
    ensures n > 0 ==> Steps(s, inverseMass, dt, damping, force, n).forceAccum == Zero
    decreases n
  {
    var d := Scale(inverseMass, force);
    if n == 0 {
      assert Scale(0.0, d) == Zero;
    } else {
      var next := EulerStep(s.(forceAccum := Add(s.forceAccum, force)), inverseMass, dt, damping);
      assert next.acceleration == Add(s.acceleration, d);
      AccelerationGrows(next, inverseMass, dt, damping, force, n - 1);
      AddScaled(s.acceleration, d, (n - 1) as real);
    }
  }

  lemma AddScaled(a: Vec3, d: Vec3, c: real)
    ensures Add(Add(a, d), Scale(c, d)) == Add(a, Scale(c + 1.0, d))
  {
    ScaleAdd(1.0, c, d);
    assert Scale(1.0, d) == d;
  }

  function Power(x: real, n: nat): real { if n == 0 then 1.0 else x * Power(x, n - 1) }

  /** Without force or acceleration, every damped step scales the velocity by
      `1 - damping`. */
  lemma {:induction false} DampingDecay(s: LinearState, inverseMass: real, dt: real, damping: real, n: nat)
    requires s.forceAccum == Zero && s.acceleration == Zero
    ensures Steps(s, inverseMass, dt, damping, Zero, n).velocity == Scale(Power(1.0 - damping, n), s.velocity)
    decreases n
  {
    if n == 0 {
      assert Scale(1.0, s.velocity) == s.velocity;
    } else {
      assert s.(forceAccum := Add(s.forceAccum, Zero)) == s;
      var next := EulerStep(s, inverseMass, dt, damping);
      assert Scale(inverseMass, Zero) == Zero;
      assert next.velocity == Scale(1.0 - damping, s.velocity);
      DampingDecay(next, inverseMass, dt, damping, n - 1);
      var k, q := 1.0 - damping, Power(1.0 - damping, n - 1);
      ScaleScale(q, k, s.velocity);
      assert q * k == Power(1.0 - damping, n);
    }
  }

  /** The accumulator after `add_force` with each of `forces` in turn. */
  function Accumulate(acc: Vec3, forces: seq<Vec3>): Vec3
    decreases |forces|
  {
    if forces == [] then acc else Accumulate(Add(acc, forces[0]), forces[1..])
  }

  function Sum(forces: seq<Vec3>): Vec3
  {
    if forces == [] then Zero else Add(forces[0], Sum(forces[1..]))
  }

  /** Adding forces one by one leaves the accumulator plus their sum. */
  lemma {:induction false} AccumulateIsSum(acc: Vec3, forces: seq<Vec3>)
    ensures Accumulate(acc, forces) == Add(acc, Sum(forces))
    decreases |forces|
  {
    if forces != [] {
      AccumulateIsSum(Add(acc, forces[0]), forces[1..]);
    }
  }
}
