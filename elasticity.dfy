/** The pure per-element pieces of the quasi-static ARAP solver (Simulator/Solver.cpp):
    edge matrices, the displacement-to-deformation-gradient operator, rest volume,
    the clamped Hessian eigenvalue and the twist generators. */
module Elasticity {
  import opened LinAlg

  /** The edge matrix of a tetrahedron with corners v0..v3: column c is corner c+1
      minus corner 0. ComputeDm builds it from rest positions, the element step
      builds Ds from current positions in the same way. */
  function EdgeMatrix(v0: Vec3, v1: Vec3, v2: Vec3, v3: Vec3): (m: Matrix)
    ensures IsMatrix(m, 3, 3)
  {
    var d1, d2, d3 := Sub(v1, v0), Sub(v2, v0), Sub(v3, v0);
    [[d1.x, d2.x, d3.x],
     [d1.y, d2.y, d3.y],
     [d1.z, d2.z, d3.z]]
  }

  /** Column c of a 3x3 matrix, as a vector. */
  function Column(m: Matrix, c: nat): Vec3
    requires IsMatrix(m, 3, 3) && c < 3
  {
    Vec3(m[0][c], m[1][c], m[2][c])
  }

  /** The columns of the edge matrix are the three edges leaving corner 0. */
  lemma EdgeMatrixColumns(v0: Vec3, v1: Vec3, v2: Vec3, v3: Vec3)
    ensures Column(EdgeMatrix(v0, v1, v2, v3), 0) == Sub(v1, v0)
    ensures Column(EdgeMatrix(v0, v1, v2, v3), 1) == Sub(v2, v0)
    ensures Column(EdgeMatrix(v0, v1, v2, v3), 2) == Sub(v3, v0)
  {
  }

  /** Moving all four corners by the same offset leaves the edge matrix unchanged. */
  lemma EdgeMatrixTranslation(v0: Vec3, v1: Vec3, v2: Vec3, v3: Vec3, t: Vec3)
    ensures EdgeMatrix(Add(v0, t), Add(v1, t), Add(v2, t), Add(v3, t)) == EdgeMatrix(v0, v1, v2, v3)
  {
  }

  /** The position of DOF block `dof` (= 3 * vertex index) in a flat coordinate vector. */
  function Vec3At(x: seq<real>, dof: int): Vec3
    requires 0 <= dof && dof + 2 < |x|
  {
    Vec3(x[dof], x[dof + 1], x[dof + 2])
  }

  /** The current position of vertex v in the flat vector x. */
  function VertexPosition(x: seq<real>, v: nat): Vec3
    requires 3 * v + 2 < |x|
  {
    Vec3At(x, 3 * v)
  }

  /** The corners of an element, read from x through its four DOF bases
      (the indices slice of the index table). */
  function Corners(x: seq<real>, bases: seq<int>): (c: seq<Vec3>)
    requires |bases| == 4 && forall k :: 0 <= k < 4 ==> 0 <= bases[k] && bases[k] + 2 < |x|
    ensures |c| == 4
  {
    [Vec3At(x, bases[0]), Vec3At(x, bases[1]), Vec3At(x, bases[2]), Vec3At(x, bases[3])]
  }

  /** The current edge matrix Ds of an element, built from x exactly like Dm. */
  function CurrentEdgeMatrix(x: seq<real>, bases: seq<int>): (ds: Matrix)
    requires |bases| == 4 && forall k :: 0 <= k < 4 ==> 0 <= bases[k] && bases[k] + 2 < |x|
    ensures IsMatrix(ds, 3, 3)
  {
    var c := Corners(x, bases);
    EdgeMatrix(c[0], c[1], c[2], c[3])
  }

  /** The deformation gradient F = Ds * DmInv of an element. */
  function DeformationGradient(x: seq<real>, bases: seq<int>, dmInv: Matrix): (f: Matrix)
    requires |bases| == 4 && forall k :: 0 <= k < 4 ==> 0 <= bases[k] && bases[k] + 2 < |x|
    requires IsMatrix(dmInv, 3, 3)
    ensures IsMatrix(f, 3, 3)
  {
    MatMul3(CurrentEdgeMatrix(x, bases), dmInv)
  }

  /** The twelve local coordinates of four corners, vertex by vertex
      (the local DOF order of the 12-vectors and 12x12 blocks). */
  function LocalPositions(v0: Vec3, v1: Vec3, v2: Vec3, v3: Vec3): (p: seq<real>)
    ensures |p| == 12
  {
    [v0.x, v0.y, v0.z, v1.x, v1.y, v1.z, v2.x, v2.y, v2.z, v3.x, v3.y, v3.z]
  }

  /** The closed-form 9x12 operator dF/dx built from the entries of DmInv (ComputedFdx).
      Row 3a+b holds the derivative of F(b, a), the column-major entry 3a+b of F. */
  function ComputedFdx(dmInv: Matrix): (d: Matrix)
    requires IsMatrix(dmInv, 3, 3)
    ensures IsMatrix(d, 9, 12)
  {
    seq(9, row requires 0 <= row < 9 => DFdxRowAt(dmInv, row))
  }

  /** Row 3a+b of dF/dx: column a of DmInv, preceded by t_a (minus its sum), spread over
      the columns of coordinate b. With m..u the entries of DmInv row by row, the rows
      for a = 0 carry t1 = -m-p-s, m, p, s, those for a = 1 carry t2 = -n-q-t, n, q, t
      and those for a = 2 carry t3 = -o-r-u, o, r, u. */
  function DFdxRowAt(dmInv: Matrix, row: nat): (r: seq<real>)
    requires IsMatrix(dmInv, 3, 3) && row < 9
    ensures |r| == 12
  {
    var a := if row < 3 then 0 else if row < 6 then 1 else 2;
    Spread(-dmInv[0][a] - dmInv[1][a] - dmInv[2][a], dmInv[0][a], dmInv[1][a], dmInv[2][a], row - 3 * a)
  }

  /** Row 3a+b of dF/dx is non-zero only in the columns of coordinate b
      (b, 3+b, 6+b, 9+b), and every row sums to zero, because t1 = -m-p-s and
      likewise t2 and t3. */
  lemma DFdxStructure(dmInv: Matrix)
    requires IsMatrix(dmInv, 3, 3)
    ensures forall row, col :: 0 <= row < 9 && 0 <= col < 12 && ComputedFdx(dmInv)[row][col] != 0.0 ==>
              col % 3 == row % 3
    ensures forall row :: 0 <= row < 9 ==> Sum(ComputedFdx(dmInv)[row]) == 0.0
  {
    var d := ComputedFdx(dmInv);
    forall row | 0 <= row < 9
      ensures Sum(d[row]) == 0.0
    {
      SumUnfold12(d[row]);
    }
  }

  /** A 12-vector whose only non-zero entries are w0..w3 at the columns of coordinate b. */
  function Spread(w0: real, w1: real, w2: real, w3: real, b: nat): (row: seq<real>)
    requires b < 3
    ensures |row| == 12
  {
    if b == 0 then [w0, 0.0, 0.0, w1, 0.0, 0.0, w2, 0.0, 0.0, w3, 0.0, 0.0]
    else if b == 1 then [0.0, w0, 0.0, 0.0, w1, 0.0, 0.0, w2, 0.0, 0.0, w3, 0.0]
    else [0.0, 0.0, w0, 0.0, 0.0, w1, 0.0, 0.0, w2, 0.0, 0.0, w3]
  }

  /** Row 3a+b of dF/dx spreads column a of DmInv, with t_a = minus its sum, over coordinate b. */
  lemma DFdxRow(dmInv: Matrix, a: nat, b: nat)
    requires IsMatrix(dmInv, 3, 3) && a < 3 && b < 3
    ensures ComputedFdx(dmInv)[3 * a + b]
            == Spread(-dmInv[0][a] - dmInv[1][a] - dmInv[2][a], dmInv[0][a], dmInv[1][a], dmInv[2][a], b)
  {
  }

  lemma DotSpread(w0: real, w1: real, w2: real, w3: real, b: nat, v0: Vec3, v1: Vec3, v2: Vec3, v3: Vec3)
    requires b < 3
    ensures Dot(Spread(w0, w1, w2, w3, b), LocalPositions(v0, v1, v2, v3))
            == w0 * v0.Coord(b) + w1 * v1.Coord(b) + w2 * v2.Coord(b) + w3 * v3.Coord(b)
  {
    var s, x := Spread(w0, w1, w2, w3, b), LocalPositions(v0, v1, v2, v3);
    assert s[..12] == s && x[..12] == x;
    assert s[..0] == [] && x[..0] == [];
    DotStep4(s, x, 0);
    DotStep4(s, x, 4);
    DotStep4(s, x, 8);
  }

  /** dF/dx is the derivative of F = Ds * DmInv: applied to the local positions of the
      four corners it yields F itself, flattened column by column. */
  lemma DFdxGivesDeformationGradient(dmInv: Matrix, v0: Vec3, v1: Vec3, v2: Vec3, v3: Vec3)
    requires IsMatrix(dmInv, 3, 3)
    ensures MatVec(ComputedFdx(dmInv), LocalPositions(v0, v1, v2, v3))
            == ColumnMajor(MatMul3(EdgeMatrix(v0, v1, v2, v3), dmInv))
  {
    var d := ComputedFdx(dmInv);
    var x := LocalPositions(v0, v1, v2, v3);
    var f := MatMul3(EdgeMatrix(v0, v1, v2, v3), dmInv);
    var lhs := MatVec(d, x);
    var rhs := ColumnMajor(f);
    forall row | 0 <= row < 9
      ensures lhs[row] == rhs[row]
    {
      var a, b := row / 3, row % 3;
      assert row == 3 * a + b;
      DeformationEntry(dmInv, v0, v1, v2, v3, a, b);
      assert rhs[row] == f[b][a];
    }
  }

  /** One entry of the identity above: row 3a+b of dF/dx against the corners is F(b, a). */
  lemma DeformationEntry(dmInv: Matrix, v0: Vec3, v1: Vec3, v2: Vec3, v3: Vec3, a: nat, b: nat)
    requires IsMatrix(dmInv, 3, 3) && a < 3 && b < 3
    ensures Dot(ComputedFdx(dmInv)[3 * a + b], LocalPositions(v0, v1, v2, v3))
            == MatMul3(EdgeMatrix(v0, v1, v2, v3), dmInv)[b][a]
  {
    var m0, m1, m2 := dmInv[0][a], dmInv[1][a], dmInv[2][a];
    DFdxRow(dmInv, a, b);
    DotSpread(-m0 - m1 - m2, m0, m1, m2, b, v0, v1, v2, v3);
    var e := EdgeMatrix(v0, v1, v2, v3);
    var c0, c1, c2, c3 := v0.Coord(b), v1.Coord(b), v2.Coord(b), v3.Coord(b);
    assert e[b][0] == c1 - c0 && e[b][1] == c2 - c0 && e[b][2] == c3 - c0;
    assert MatMul3(e, dmInv)[b][a] == MatMulEntry(e, dmInv, b, a);
    EdgeSumIdentity(m0, m1, m2, c0, c1, c2, c3);
  }

  lemma EdgeSumIdentity(m0: real, m1: real, m2: real, c0: real, c1: real, c2: real, c3: real)
    ensures (-m0 - m1 - m2) * c0 + m0 * c1 + m1 * c2 + m2 * c3
            == (c1 - c0) * m0 + (c2 - c0) * m1 + (c3 - c0) * m2
  {
  }

  /** The sum of a 12-vector written out. */
  lemma SumUnfold12(a: seq<real>)
    requires |a| == 12
    ensures Sum(a) == a[0] + a[1] + a[2] + a[3] + a[4] + a[5] + a[6] + a[7]
                      + a[8] + a[9] + a[10] + a[11]
  {
    assert a[..12] == a;
    SumSnoc(a, 0); SumSnoc(a, 1); SumSnoc(a, 2); SumSnoc(a, 3);
    SumSnoc(a, 4); SumSnoc(a, 5); SumSnoc(a, 6); SumSnoc(a, 7);
    SumSnoc(a, 8); SumSnoc(a, 9); SumSnoc(a, 10); SumSnoc(a, 11);
  }

  lemma SumSnoc(a: seq<real>, k: nat)
    requires k < |a|
    ensures Sum(a[..k + 1]) == Sum(a[..k]) + a[k]
  {
    assert a[..k + 1][..k] == a[..k];
  }

  /** Four more terms of a dot product taken over a prefix. */
  lemma DotStep4(a: seq<real>, b: seq<real>, k: nat)
    requires |a| == |b| && k + 4 <= |a|
    ensures Dot(a[..k + 4], b[..k + 4])
            == Dot(a[..k], b[..k]) + a[k] * b[k] + a[k + 1] * b[k + 1] + a[k + 2] * b[k + 2] + a[k + 3] * b[k + 3]
  {
    DotSnoc(a, b, k); DotSnoc(a, b, k + 1); DotSnoc(a, b, k + 2); DotSnoc(a, b, k + 3);
  }

  lemma DotSnoc(a: seq<real>, b: seq<real>, k: nat)
    requires |a| == |b| && k < |a|
    ensures Dot(a[..k + 1], b[..k + 1]) == Dot(a[..k], b[..k]) + a[k] * b[k]
  {
    assert a[..k + 1][..k] == a[..k];
    assert b[..k + 1][..k] == b[..k];
  }

  /** A uniform translation of all four corners is mapped to a zero gradient change. */
  lemma DFdxRigidTranslation(dmInv: Matrix, t: Vec3)
    requires IsMatrix(dmInv, 3, 3)
    ensures MatVec(ComputedFdx(dmInv), LocalPositions(t, t, t, t)) == Zeros(9)
  {
    DFdxGivesDeformationGradient(dmInv, t, t, t, t);
    var e := EdgeMatrix(t, t, t, t);
    assert e == [[0.0, 0.0, 0.0], [0.0, 0.0, 0.0], [0.0, 0.0, 0.0]];
    var f := MatMul3(e, dmInv);
    forall i, j | 0 <= i < 3 && 0 <= j < 3
      ensures f[i][j] == 0.0
    {
      assert f[i][j] == MatMulEntry(e, dmInv, i, j);
    }
    assert ColumnMajor(f) == Zeros(9);
  }

  /** Rest volume of a tetrahedron: one sixth of the absolute determinant of its edge matrix. */
  function TetVolume(dm: Matrix): (vol: real)
    requires IsMatrix(dm, 3, 3)
    ensures vol >= 0.0
    ensures vol == 0.0 <==> Det3(dm) == 0.0
  {
    Abs((1.0 / 6.0) * Det3(dm))
  }

  /** The volume only depends on the edges, so translating the element leaves it unchanged. */
  lemma TetVolumeTranslation(v0: Vec3, v1: Vec3, v2: Vec3, v3: Vec3, t: Vec3)
    ensures TetVolume(EdgeMatrix(Add(v0, t), Add(v1, t), Add(v2, t), Add(v3, t)))
            == TetVolume(EdgeMatrix(v0, v1, v2, v3))
  {
    EdgeMatrixTranslation(v0, v1, v2, v3, t);
  }

  /** The projected Hessian eigenvalue for the twist mode with invariant I:
      2/I when I >= 2, otherwise 1. */
  function ClampedLambda(i: real): (lambda: real)
    ensures 0.0 < lambda <= 1.0
    ensures i >= 2.0 ==> lambda * i == 2.0
    ensures i < 2.0 ==> lambda == 1.0
  {
    if i >= 2.0 then 2.0 / i else 1.0
  }

  /** For a positive invariant the clamp is min(1, 2/I); at I = 2 both branches give 1. */
  lemma ClampedLambdaIsMin(i: real)
    requires i > 0.0
    ensures ClampedLambda(i) == if 2.0 / i < 1.0 then 2.0 / i else 1.0
    ensures ClampedLambda(2.0) == 1.0
  {
    if i >= 2.0 {
      assert ClampedLambda(i) * i == 2.0;
    } else {
      assert 2.0 / i * i == 2.0;
    }
  }

  /** The coordinate axis that Twist[k] rotates about: z, x and y. */
  function TwistAxis(k: nat): nat
  {
    if k == 0 then 2 else if k == 1 then 0 else 1
  }

  /** The three infinitesimal rotation generators Twist[0..2]. */
  function Twist(k: nat): (w: Matrix)
    requires k < 3
    ensures IsMatrix(w, 3, 3)
    ensures forall i, j :: 0 <= i < 3 && 0 <= j < 3 ==> w[i][j] == -w[j][i]
    ensures forall i, j :: 0 <= i < 3 && 0 <= j < 3 ==> w[i][j] in {-1.0, 0.0, 1.0}
    // the generator rotates about axis TwistAxis(k): that row and column are zero,
    // and the other two coordinates are coupled by -1 for Twist[0] and Twist[2] and
    // by +1 for Twist[1]
    ensures forall j :: 0 <= j < 3 ==> w[TwistAxis(k)][j] == 0.0 && w[j][TwistAxis(k)] == 0.0
    ensures w[(TwistAxis(k) + 1) % 3][(TwistAxis(k) + 2) % 3] == if k == 1 then 1.0 else -1.0
  {
    if k == 0 then [[0.0, -1.0, 0.0], [1.0, 0.0, 0.0], [0.0, 0.0, 0.0]]
    else if k == 1 then [[0.0, 0.0, 0.0], [0.0, 0.0, 1.0], [0.0, -1.0, 0.0]]
    else [[0.0, 0.0, 1.0], [0.0, 0.0, 0.0], [-1.0, 0.0, 0.0]]
  }

  /** The cross product a x v of two 3-vectors. */
  function Cross(a: seq<real>, v: seq<real>): (r: seq<real>)
    requires |a| == 3 && |v| == 3
    ensures |r| == 3
  {
    [a[1] * v[2] - a[2] * v[1], a[2] * v[0] - a[0] * v[2], a[0] * v[1] - a[1] * v[0]]
  }

  /** The signed rotation axis of Twist[k]: +z, -x and +y. */
  function TwistOmega(k: nat): (a: seq<real>)
    requires k < 3
    ensures |a| == 3
  {
    if k == 0 then [0.0, 0.0, 1.0] else if k == 1 then [-1.0, 0.0, 0.0] else [0.0, 1.0, 0.0]
  }

  /** Twist[k] is the cross-product matrix of its signed axis: applied to v it gives
      the velocity omega x v of the infinitesimal rotation about that axis. */
  lemma TwistIsCrossMatrix(k: nat, v: seq<real>)
    requires k < 3 && |v| == 3
    ensures MatVec(Twist(k), v) == Cross(TwistOmega(k), v)
  {
    var w := Twist(k);
    var r := MatVec(w, v);
    var c := Cross(TwistOmega(k), v);
    forall i | 0 <= i < 3
      ensures r[i] == c[i]
    {
      DotSnoc(w[i], v, 0); DotSnoc(w[i], v, 1); DotSnoc(w[i], v, 2);
      assert w[i][..3] == w[i] && v[..3] == v;
    }
  }
}
