/** The physics scene of pphysx3d/src/scene/mod.rs: an owned list of the
    older game objects, with append, removal by index, a broad-phase pass and
    the position update. */
module Scene {
  import Vectors
  import Shapes
  import Collision
  import LegacyObjects
  import Spheres

  /** Every translation moved by `dt` times the velocity at the same index. */
  function Stepped(ts: seq<Vectors.Vec3>, vs: seq<Vectors.Vec3>, dt: real): (r: seq<Vectors.Vec3>)
    requires |ts| == |vs|
    ensures |r| == |ts|
  {
    seq(|ts|, i requires 0 <= i < |ts| => Vectors.Add(ts[i], Vectors.Scale(dt, vs[i])))
  }

  /** A step of length 0 moves nothing. */
  lemma SteppedZero(ts: seq<Vectors.Vec3>, vs: seq<Vectors.Vec3>)
    requires |ts| == |vs|
    ensures Stepped(ts, vs, 0.0) == ts
  {
    forall i | 0 <= i < |ts| ensures Stepped(ts, vs, 0.0)[i] == ts[i] {
      assert Vectors.Scale(0.0, vs[i]) == Vectors.Zero;
    }
  }

  /** Two steps with the same velocities are one step of the summed
      length. */
  lemma SteppedCompose(ts: seq<Vectors.Vec3>, vs: seq<Vectors.Vec3>, a: real, b: real)
    requires |ts| == |vs|
    ensures Stepped(Stepped(ts, vs, a), vs, b) == Stepped(ts, vs, a + b)
  {
    forall i | 0 <= i < |ts| ensures Stepped(Stepped(ts, vs, a), vs, b)[i] == Stepped(ts, vs, a + b)[i] {
      Vectors.ScaleAdd(a, b, vs[i]);
    }
  }

  /** The position-update test: from the origin, velocities (1, 0, 0) and
      (0, 0, 1) and a step of 1 give translations (1, 0, 0) and (0, 0, 1). */
  lemma SteppedUpdatePositionTest()
    ensures var o := Vectors.Zero;
            var x, z := Vectors.Vec3(1.0, 0.0, 0.0), Vectors.Vec3(0.0, 0.0, 1.0);
            Stepped([o, o], [x, z], 1.0) == [x, z]
  {
  }

  class PhysicsScene {
    var objects: seq<LegacyObjects.GameObject>

    /** The scene owns its objects: no object is held twice. */
    ghost predicate Valid()
      reads this
    {
      forall i, j :: 0 <= i < j < |objects| ==> objects[i] != objects[j]
    }

    ghost function Translations(): (ts: seq<Vectors.Vec3>)
      reads this, objects
      ensures |ts| == |objects|
    {
      seq(|objects|, i reads this, objects requires 0 <= i < |objects| => objects[i].position.translation)
    }

    ghost function Velocities(): (vs: seq<Vectors.Vec3>)
      reads this, objects
      ensures |vs| == |objects|
    {
      seq(|objects|, i reads this, objects requires 0 <= i < |objects| => objects[i].velocity)
    }

    /** `new`: no objects. */
    constructor ()
      ensures objects == [] && Valid()
    {
      objects := [];
    }

    /** `add`: the body is appended; it is moved into the scene,
      so it is not held already. */
    method Add(body: LegacyObjects.GameObject)
      requires Valid() && body !in objects
      modifies this
      ensures objects == old(objects) + [body]
      ensures Valid()
    {
      objects := objects + [body];
    }

    /** `remove`: the object at `index` is taken out and the later ones move
      down one place; an index past the end panics, so it is excluded. */
    method Remove(index: nat)
      requires Valid() && index < |objects|
      modifies this
      ensures objects == old(objects[..index]) + old(objects[index + 1..])
      ensures |objects| == |old(objects)| - 1
      ensures forall i :: 0 <= i < index ==> objects[i] == old(objects[i])
      ensures forall i :: index <= i < |objects| ==> objects[i] == old(objects[i + 1])
      ensures Valid()
    {
      objects := objects[..index] + objects[index + 1..];
    }

    /** `update_positions`: every translation moves by `dt` times its
      velocity; the rotation and every other field stay as they were. */
    method UpdatePositions(dt: real)
      requires Valid()
      modifies objects
      ensures Translations() == Stepped(old(Translations()), old(Velocities()), dt)
      ensures Velocities() == old(Velocities())
      ensures forall i :: 0 <= i < |objects| ==>
                objects[i].position.rotation == old(objects[i].position.rotation) &&
                objects[i].shape == old(objects[i].shape) &&
                objects[i].acceleration == old(objects[i].acceleration) &&
                objects[i].forceAccum == old(objects[i].forceAccum) &&
                objects[i].inverseMass == old(objects[i].inverseMass) &&
                objects[i].bounciness == old(objects[i].bounciness) &&
                objects[i].friction == old(objects[i].friction)
    {
      for k := 0 to |objects|
        invariant forall i :: 0 <= i < k ==>
                    objects[i].position == Vectors.Pose(Vectors.Add(old(objects[i].position.translation),
                                                                    Vectors.Scale(dt, old(objects[i].velocity))),
                                                        old(objects[i].position.rotation))
        invariant forall i :: k <= i < |objects| ==> objects[i].position == old(objects[i].position)
        invariant forall i :: 0 <= i < |objects| ==>
                    objects[i].velocity == old(objects[i].velocity) &&
                    objects[i].shape == old(objects[i].shape) &&
                    objects[i].acceleration == old(objects[i].acceleration) &&
                    objects[i].forceAccum == old(objects[i].forceAccum) &&
                    objects[i].inverseMass == old(objects[i].inverseMass) &&
                    objects[i].bounciness == old(objects[i].bounciness) &&
                    objects[i].friction == old(objects[i].friction)
      {
        var o := objects[k];
        o.position := o.position.(translation := Vectors.Add(o.position.translation, Vectors.Scale(dt, o.velocity)));
      }
    }

    /** `update`: the colliding pairs are found and then dropped (the narrow
      phase is empty), so what remains is the position update. */
    method Update(dt: real)
      requires Valid()
      modifies objects
      ensures Translations() == Stepped(old(Translations()), old(Velocities()), dt)
      ensures Velocities() == old(Velocities())
      ensures forall i :: 0 <= i < |objects| ==>
                objects[i].position.rotation == old(objects[i].position.rotation) &&
                objects[i].shape == old(objects[i].shape) &&
                objects[i].acceleration == old(objects[i].acceleration) &&
                objects[i].forceAccum == old(objects[i].forceAccum) &&
                objects[i].inverseMass == old(objects[i].inverseMass) &&
                objects[i].bounciness == old(objects[i].bounciness) &&
                objects[i].friction == old(objects[i].friction)
    {
      var boxes := [];
      for k := 0 to |objects|
        invariant |boxes| == k
        invariant forall i :: 0 <= i < k ==> boxes[i] == Shapes.ComputeAabb(objects[i].shape, objects[i].position)
      {
        boxes := boxes + [Shapes.ComputeAabb(objects[k].shape, objects[k].position)];
      }
      var pairs := Collision.BroadPhase(boxes);
      UpdatePositions(dt);
    }
  }

  /** `update_position_test`: two spheres at the origin, one moving along x
      and one along z, are moved by a step of 1 to (1, 0, 0) and (0, 0, 1). */
  method UpdatePositionScenario() returns (first: Vectors.Vec3, second: Vectors.Vec3)
    ensures first == Vectors.Vec3(1.0, 0.0, 0.0) && second == Vectors.Vec3(0.0, 0.0, 1.0)
  {
    var start := Vectors.Pose(Vectors.Zero, Vectors.Identity);
    var ball := Shapes.SphereShape(Spheres.Sphere(2.0));
    var a := new LegacyObjects.GameObject(ball, start, Vectors.Zero, Vectors.Zero, Vectors.Zero,
                                          Vectors.Finite(0.1), 0.1, 0.2);
    var b := new LegacyObjects.GameObject(ball, start, Vectors.Zero, Vectors.Zero, Vectors.Zero,
                                          Vectors.Finite(0.1), 0.1, 0.2);
    a.velocity := Vectors.Add(a.velocity, Vectors.Vec3(1.0, 0.0, 0.0));
    b.velocity := Vectors.Add(b.velocity, Vectors.Vec3(0.0, 0.0, 1.0));
    var scene := new PhysicsScene();
    scene.Add(a);
    scene.Add(b);
    scene.UpdatePositions(1.0);
    assert scene.Translations()[0] == scene.objects[0].position.translation;
    assert scene.Translations()[1] == scene.objects[1].position.translation;
    first, second := scene.objects[0].position.translation, scene.objects[1].position.translation;
  }
}
