/** The cube test cases of pphysx3d/src/shapes/tests.rs, on the boxes as
    `Cube::compute_aabb` writes them. Each box is first given as a literal,
    one lemma per box, and the tests then compare the literals. */
module CubeExamples {
  import opened Vectors
  import opened BoundingVolumes
  import opened Cubes

  /** The unrotated cases of tests.rs: a cube of half extent 1 at the origin
      misses one of half extent 0.5 at (10, 0, 0) and meets it at (-1, 0, 0). */
  lemma UnrotatedExamples()
    ensures !Intersects(Aabb(Cube(Repeat(1.0)), Pose(Zero, Identity)),
                        Aabb(Cube(Repeat(0.5)), Pose(Vec3(10.0, 0.0, 0.0), Identity)))
    ensures Intersects(Aabb(Cube(Repeat(1.0)), Pose(Zero, Identity)),
                       Aabb(Cube(Repeat(0.5)), Pose(Vec3(-1.0, 0.0, 0.0), Identity)))
  {
    UnitBoxAtOrigin();
    SmallBoxes();
    UnrotatedLiterals();
  }

  /** The comparisons of those tests on the literal boxes. */
  lemma UnrotatedLiterals()
    ensures !Intersects(AABB(Repeat(-1.0), Repeat(1.0)), AABB(Vec3(9.5, -0.5, -0.5), Vec3(10.5, 0.5, 0.5)))
    ensures Intersects(AABB(Repeat(-1.0), Repeat(1.0)), AABB(Vec3(-1.5, -0.5, -0.5), Vec3(-0.5, 0.5, 0.5)))
  {
  }

  /** The boxes of the cubes in those tests, one lemma per box. */
  lemma UnitBoxAtOrigin()
    ensures Aabb(Cube(Repeat(1.0)), Pose(Zero, Identity)) == AABB(Repeat(-1.0), Repeat(1.0))
  {
    AabbUnrotated(Cube(Repeat(1.0)), Zero);
  }

  lemma SmallBoxes()
    ensures Aabb(Cube(Repeat(0.5)), Pose(Vec3(10.0, 0.0, 0.0), Identity)) ==
              AABB(Vec3(9.5, -0.5, -0.5), Vec3(10.5, 0.5, 0.5))
    ensures Aabb(Cube(Repeat(0.5)), Pose(Vec3(-1.0, 0.0, 0.0), Identity)) ==
              AABB(Vec3(-1.5, -0.5, -0.5), Vec3(-0.5, 0.5, 0.5))
  {
    AabbUnrotated(Cube(Repeat(0.5)), Vec3(10.0, 0.0, 0.0));
    AabbUnrotated(Cube(Repeat(0.5)), Vec3(-1.0, 0.0, 0.0));
  }

  /** The rotation by 45 degrees about x, given its cosine `k` (equal to its sine). */
  function RotationX45(k: real): Mat3
  {
    Mat3(Vec3(1.0, 0.0, 0.0), Vec3(0.0, k, -k), Vec3(0.0, k, k))
  }

  /** The rotated case of tests.rs: the unit cube turned 45 degrees about x at
      the origin meets an unrotated unit cube at (-1.75, 0, 1.75), and misses
      it once that one moves 0.3 further along -x. */
  lemma RotatedExample(k: real)
    requires k > 0.0 && k * k == 0.5
    ensures Intersects(Aabb(Cube(Repeat(1.0)), Pose(Zero, RotationX45(k))),
                       Aabb(Cube(Repeat(1.0)), Pose(Vec3(-1.75, 0.0, 1.75), Identity)))
    ensures !Intersects(Aabb(Cube(Repeat(1.0)), Pose(Zero, RotationX45(k))),
                        Aabb(Cube(Repeat(1.0)), Pose(Vec3(-2.05, 0.0, 1.75), Identity)))
  {
    RootAbove(k);
    RotatedMeets(k);
    RotatedMisses(k);
  }

  /** The first test holds for every cosine above 3/8. */
  lemma RotatedMeets(k: real)
    requires k > 0.375
    ensures Intersects(Aabb(Cube(Repeat(1.0)), Pose(Zero, RotationX45(k))),
                       Aabb(Cube(Repeat(1.0)), Pose(Vec3(-1.75, 0.0, 1.75), Identity)))
  {
    TurnedCorner(k);
    AabbAtOrigin(Cube(Repeat(1.0)), RotationX45(k), Vec3(1.0, 0.0, k + k));
    NearBox();
    RotatedLiterals(k);
  }

  /** So does the second. */
  lemma RotatedMisses(k: real)
    ensures !Intersects(Aabb(Cube(Repeat(1.0)), Pose(Zero, RotationX45(k))),
                        Aabb(Cube(Repeat(1.0)), Pose(Vec3(-2.05, 0.0, 1.75), Identity)))
  {
    TurnedCorner(k);
    AabbAtOrigin(Cube(Repeat(1.0)), RotationX45(k), Vec3(1.0, 0.0, k + k));
    FarBox();
    RotatedLiterals(k);
  }

  /** The comparisons of that test on the literal boxes: the turned box
      reaches `2k` along z, so it meets the near box once `2k >= 0.75`; it
      ends at x = -1, past the far box's x = -1.05. */
  lemma RotatedLiterals(k: real)
    ensures k > 0.375 ==> Intersects(AABB(Neg(Vec3(1.0, 0.0, k + k)), Vec3(1.0, 0.0, k + k)),
                                     AABB(Vec3(-2.75, -1.0, 0.75), Vec3(-0.75, 1.0, 2.75)))
    ensures !Intersects(AABB(Neg(Vec3(1.0, 0.0, k + k)), Vec3(1.0, 0.0, k + k)),
                        AABB(Vec3(-3.05, -1.0, 0.75), Vec3(-1.05, 1.0, 2.75)))
  {
  }

  /** The boxes of the unrotated unit cubes of that test. */
  lemma NearBox()
    ensures Aabb(Cube(Repeat(1.0)), Pose(Vec3(-1.75, 0.0, 1.75), Identity)) ==
              AABB(Vec3(-2.75, -1.0, 0.75), Vec3(-0.75, 1.0, 2.75))
  {
    AabbUnrotated(Cube(Repeat(1.0)), Vec3(-1.75, 0.0, 1.75));
  }

  lemma FarBox()
    ensures Aabb(Cube(Repeat(1.0)), Pose(Vec3(-2.05, 0.0, 1.75), Identity)) ==
              AABB(Vec3(-3.05, -1.0, 0.75), Vec3(-1.05, 1.0, 2.75))
  {
    AabbUnrotated(Cube(Repeat(1.0)), Vec3(-2.05, 0.0, 1.75));
  }

  /** The turned cube sends its corner (1, 1, 1) to (1, 0, 2k). */
  lemma TurnedCorner(k: real)
    ensures MulVec(RotationX45(k), Repeat(1.0)) == Vec3(1.0, 0.0, k + k)
  {
  }

  /** The positive root of 1/2 exceeds 3/8. */
  lemma RootAbove(k: real)
    requires k > 0.0 && k * k == 0.5
    ensures k > 0.375
  {
    var below, above := k - 0.375, k + 0.375;
    assert below * above == 0.359375;
  }
}
