/** Three-dimensional vectors, 3x3 matrices and poses over the reals. They stand
    in for the f32 points, vectors, rotation matrices and isometries of the
    nalgebra library; `Ext` adds the one f32 infinity the engine relies on. */
module Vectors {

  datatype Vec3 = Vec3(x: real, y: real, z: real)

  const Zero: Vec3 := Vec3(0.0, 0.0, 0.0)

  function Add(a: Vec3, b: Vec3): Vec3 { Vec3(a.x + b.x, a.y + b.y, a.z + b.z) }

  function Sub(a: Vec3, b: Vec3): Vec3 { Vec3(a.x - b.x, a.y - b.y, a.z - b.z) }

  function Neg(a: Vec3): Vec3 { Vec3(-a.x, -a.y, -a.z) }

  function Scale(k: real, a: Vec3): Vec3 { Vec3(k * a.x, k * a.y, k * a.z) }

  /** nalgebra's `Vector3::repeat`. */
  function Repeat(k: real): Vec3 { Vec3(k, k, k) }

  lemma ScaleAdd(p: real, q: real, v: Vec3)
    ensures Add(Scale(p, v), Scale(q, v)) == Scale(p + q, v)
  {
    assert p * v.x + q * v.x == (p + q) * v.x;
    assert p * v.y + q * v.y == (p + q) * v.y;
    assert p * v.z + q * v.z == (p + q) * v.z;
  }

  lemma ScaleScale(p: real, q: real, v: Vec3)
    ensures Scale(p, Scale(q, v)) == Scale(p * q, v)
  {
    assert p * (q * v.x) == (p * q) * v.x;
    assert p * (q * v.y) == (p * q) * v.y;
    assert p * (q * v.z) == (p * q) * v.z;
  }

  function Dot(a: Vec3, b: Vec3): real { a.x * b.x + a.y * b.y + a.z * b.z }

  function NormSquared(a: Vec3): real { Dot(a, a) }

  function Cross(a: Vec3, b: Vec3): Vec3
  {
    Vec3(a.y * b.z - a.z * b.y, a.z * b.x - a.x * b.z, a.x * b.y - a.y * b.x)
  }

  /** Component-wise order on points (nalgebra's `partial_le`, without NaN). */
  predicate LessEq(a: Vec3, b: Vec3) { a.x <= b.x && a.y <= b.y && a.z <= b.z }

  function Abs(x: real): real { if x < 0.0 then -x else x }

  /** `r` is the non-negative square root of `x`. */
  predicate IsRoot(x: real, r: real) { r >= 0.0 && r * r == x }

  /** The Euclidean length. Dafny's real arithmetic cannot construct square
      roots, so the length is the root of the squared length whenever one
      exists (over the reals it always does); see NormOfRoot. */
  ghost function Norm(a: Vec3): (n: real)
    ensures n >= 0.0
    ensures (exists r :: IsRoot(NormSquared(a), r)) ==> IsRoot(NormSquared(a), n)
  {
    if exists r :: IsRoot(NormSquared(a), r) then
      var r :| IsRoot(NormSquared(a), r); r
    else
      0.0
  }

  lemma RootUnique(x: real, r: real, s: real)
    requires IsRoot(x, r) && IsRoot(x, s)
    ensures r == s
  {
    if r < s {
      SquareMonotone(r, s);
    } else if s < r {
      SquareMonotone(s, r);
    }
  }

  lemma SquareMonotone(lo: real, hi: real)
    requires 0.0 <= lo < hi
    ensures lo * lo < hi * hi
  {
    var low, mixed, high := lo * lo, lo * hi, hi * hi;
    assert low <= mixed;
    assert mixed < high;
  }

  /** Any non-negative root of the squared length is the length. */
  lemma NormOfRoot(a: Vec3, n: real)
    requires IsRoot(NormSquared(a), n)
    ensures Norm(a) == n
  {
    RootUnique(NormSquared(a), Norm(a), n);
  }

  /** A 3x3 matrix given by its rows. */
  datatype Mat3 = Mat3(row0: Vec3, row1: Vec3, row2: Vec3)

  const Identity: Mat3 := Mat3(Vec3(1.0, 0.0, 0.0), Vec3(0.0, 1.0, 0.0), Vec3(0.0, 0.0, 1.0))

  const ZeroMatrix: Mat3 := Mat3(Zero, Zero, Zero)

  /** nalgebra's `set_diagonal` applied to a zero matrix. */
  function Diagonal(d: Vec3): Mat3
  {
    Mat3(Vec3(d.x, 0.0, 0.0), Vec3(0.0, d.y, 0.0), Vec3(0.0, 0.0, d.z))
  }

  function MulVec(m: Mat3, v: Vec3): Vec3 { Vec3(Dot(m.row0, v), Dot(m.row1, v), Dot(m.row2, v)) }

  /** A diagonal matrix with equal entries acts as scaling. */
  lemma DiagonalScales(k: real, v: Vec3)
    ensures MulVec(Diagonal(Repeat(k)), v) == Scale(k, v)
  {
    assert Dot(Vec3(k, 0.0, 0.0), v) == k * v.x;
    assert Dot(Vec3(0.0, k, 0.0), v) == k * v.y;
    assert Dot(Vec3(0.0, 0.0, k), v) == k * v.z;
  }

  function Column(m: Mat3, k: nat): Vec3
    requires k < 3
  {
    if k == 0 then Vec3(m.row0.x, m.row1.x, m.row2.x)
    else if k == 1 then Vec3(m.row0.y, m.row1.y, m.row2.y)
    else Vec3(m.row0.z, m.row1.z, m.row2.z)
  }

  function MulMat(a: Mat3, b: Mat3): Mat3
  {
    Mat3(Vec3(Dot(a.row0, Column(b, 0)), Dot(a.row0, Column(b, 1)), Dot(a.row0, Column(b, 2))),
         Vec3(Dot(a.row1, Column(b, 0)), Dot(a.row1, Column(b, 1)), Dot(a.row1, Column(b, 2))),
         Vec3(Dot(a.row2, Column(b, 0)), Dot(a.row2, Column(b, 1)), Dot(a.row2, Column(b, 2))))
  }

  function AbsVec(v: Vec3): Vec3 { Vec3(Abs(v.x), Abs(v.y), Abs(v.z)) }

  /** The matrix of the absolute values of the entries. */
  function AbsMat(m: Mat3): Mat3 { Mat3(AbsVec(m.row0), AbsVec(m.row1), AbsVec(m.row2)) }

  /** nalgebra's `Isometry3`: a translation and a rotation, the rotation given
      by its matrix (the quaternion itself is not modelled). */
  datatype Pose = Pose(translation: Vec3, rotation: Mat3)

  /** An f32 value that may be positive infinity. */
  datatype Ext = Finite(v: real) | PosInf

  /** `f32::EPSILON`, 2 to the power -23. */
  const Epsilon: real := 0.00000011920928955078125

  /** f32 division `1. / x`: the reciprocal of +inf is 0 and that of 0 is +inf. */
  function Reciprocal(x: Ext): (r: Ext)
    ensures r == PosInf <==> x == Finite(0.0)
    ensures r == Finite(0.0) <==> x == PosInf
    ensures r.Finite? && x.Finite? && x.v != 0.0 ==> r.v * x.v == 1.0
  {
    match x
    case PosInf => Finite(0.0)
    case Finite(v) => if v == 0.0 then PosInf else Finite(1.0 / v)
  }

  /** Taking the reciprocal twice gives the value back, infinity included. */
  lemma ReciprocalInvolution(x: Ext)
    ensures Reciprocal(Reciprocal(x)) == x
  {
    if x.Finite? && x.v != 0.0 {
      var r := Reciprocal(x);
      assert r.v * x.v == 1.0;
      assert Reciprocal(r) == Finite(1.0 / r.v);
    }
  }
}
