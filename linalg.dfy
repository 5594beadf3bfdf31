/** Dense real vectors and matrices standing in for the Eigen types of the solver
    (Vec3, Mat3, Mat9x12, Mat12, VectorXd). Reals replace doubles and floats:
    rounding is not modelled. */
module LinAlg {

  /** A point or direction in space (Eigen's Vec3 / Vec3d, simd_float3). */
  datatype Vec3 = Vec3(x: real, y: real, z: real) {
    /** Coordinate 0, 1 or 2. */
    function Coord(c: nat): real
      requires c < 3
    {
      if c == 0 then x else if c == 1 then y else z
    }
  }

  function Sub(a: Vec3, b: Vec3): Vec3
  {
    Vec3(a.x - b.x, a.y - b.y, a.z - b.z)
  }

  function Add(a: Vec3, b: Vec3): Vec3
  {
    Vec3(a.x + b.x, a.y + b.y, a.z + b.z)
  }

  const Origin: Vec3 := Vec3(0.0, 0.0, 0.0)

  /** Row-major dense matrix. */
  type Matrix = seq<seq<real>>

  predicate IsMatrix(m: Matrix, rows: nat, cols: nat)
  {
    |m| == rows && forall i :: 0 <= i < rows ==> |m[i]| == cols
  }

  /** The zero vector of length n (Eigen's setZero(n)). */
  function Zeros(n: nat): (v: seq<real>)
    ensures |v| == n
    ensures forall i :: 0 <= i < n ==> v[i] == 0.0
  {
    seq(n, i => 0.0)
  }

  /** n copies of v (std::vector(n, v)). */
  function Fill<T>(n: nat, v: T): (s: seq<T>)
    ensures |s| == n
    ensures forall i :: 0 <= i < n ==> s[i] == v
  {
    seq(n, i => v)
  }

  /** The n-by-m zero matrix (Mat12::Zero()). */
  function ZeroMatrix(n: nat, m: nat): (z: Matrix)
    ensures IsMatrix(z, n, m)
    ensures forall i, j :: 0 <= i < n && 0 <= j < m ==> z[i][j] == 0.0
  {
    seq(n, i => Zeros(m))
  }

  /** Sum of the entries of a vector, accumulated from the front. */
  function Sum(v: seq<real>): real
  {
    if |v| == 0 then 0.0 else Sum(v[..|v| - 1]) + v[|v| - 1]
  }

  /** Adding a to one entry adds a to the sum. */
  lemma {:induction false} SumUpdate(v: seq<real>, k: nat, a: real)
    requires k < |v|
    ensures Sum(v[k := v[k] + a]) == Sum(v) + a
  {
    var w := v[k := v[k] + a];
    var n := |v| - 1;
    if k == n {
      assert w[..n] == v[..n];
    } else {
      assert w[..n] == v[..n][k := v[..n][k] + a];
      SumUpdate(v[..n], k, a);
    }
  }

  /** The sum of the zero vector is zero. */
  lemma {:induction false} SumZeros(n: nat)
    ensures Sum(Zeros(n)) == 0.0
  {
    if n > 0 {
      assert Zeros(n)[..n - 1] == Zeros(n - 1);
      SumZeros(n - 1);
    }
  }

  function Dot(a: seq<real>, b: seq<real>): real
    requires |a| == |b|
  {
    if |a| == 0 then 0.0 else Dot(a[..|a| - 1], b[..|b| - 1]) + a[|a| - 1] * b[|b| - 1]
  }

  function MatVec(m: Matrix, v: seq<real>): (r: seq<real>)
    requires forall i :: 0 <= i < |m| ==> |m[i]| == |v|
    ensures |r| == |m|
  {
    seq(|m|, i requires 0 <= i < |m| => Dot(m[i], v))
  }

  /** Entry (i, j) of the product of two 3x3 matrices. */
  function MatMulEntry(a: Matrix, b: Matrix, i: nat, j: nat): real
    requires IsMatrix(a, 3, 3) && IsMatrix(b, 3, 3) && i < 3 && j < 3
  {
    a[i][0] * b[0][j] + a[i][1] * b[1][j] + a[i][2] * b[2][j]
  }

  /** Product of two 3x3 matrices (Eigen's Mat3 operator*). */
  function MatMul3(a: Matrix, b: Matrix): (c: Matrix)
    requires IsMatrix(a, 3, 3) && IsMatrix(b, 3, 3)
    ensures IsMatrix(c, 3, 3)
    ensures forall i, j :: 0 <= i < 3 && 0 <= j < 3 ==> c[i][j] == MatMulEntry(a, b, i, j)
  {
    seq(3, i requires 0 <= i < 3 => seq(3, j requires 0 <= j < 3 => MatMulEntry(a, b, i, j)))
  }

  const Identity3: Matrix := [[1.0, 0.0, 0.0], [0.0, 1.0, 0.0], [0.0, 0.0, 1.0]]

  /** Determinant of a 3x3 matrix, by cofactor expansion along the first row. */
  function Det3(m: Matrix): real
    requires IsMatrix(m, 3, 3)
  {
    m[0][0] * (m[1][1] * m[2][2] - m[1][2] * m[2][1])
    - m[0][1] * (m[1][0] * m[2][2] - m[1][2] * m[2][0])
    + m[0][2] * (m[1][0] * m[2][1] - m[1][1] * m[2][0])
  }

  function Abs(r: real): real
  {
    if r < 0.0 then -r else r
  }

  /** A 3x3 matrix flattened column by column (Eigen's default storage order). */
  function ColumnMajor(m: Matrix): (v: seq<real>)
    requires IsMatrix(m, 3, 3)
    ensures |v| == 9
  {
    [m[0][0], m[1][0], m[2][0], m[0][1], m[1][1], m[2][1], m[0][2], m[1][2], m[2][2]]
  }
}
