/** The quasi-static FEM solver of Simulator/Solver.cpp as a class whose fields are
    the solver's members. Eigen vectors are sequences and sparse matrices maps over
    their stored pattern, so they are values the methods reassign. The per-element
    forces and stiffness blocks (from the SVD of F) and the displacement (from the
    conjugate-gradient solve) are inputs of Step. */
module SolverModel {
  import opened LinAlg
  import opened Elasticity
  import opened Assembly

  /** The simulator part of the configuration StartUp reads. */
  datatype Config = Config(
    h: real,
    magicConstant: real,
    loadStep: real,
    loadedVert: nat,
    bcs: seq<nat>,
    rho: real)

  /** Rest edge matrix of element i, from the mesh's rest positions (ComputeDm). */
  function ComputeDm(mesh: Mesh, i: nat): (dm: Matrix)
    requires WellFormed(mesh) && i < |mesh.elements|
    ensures IsMatrix(dm, 3, 3)
    ensures forall c :: 0 <= c < 3 ==>
              Column(dm, c) == Sub(mesh.vertices[mesh.elements[i][c + 1]], mesh.vertices[mesh.elements[i][0]])
  {
    var e := mesh.elements[i];
    EdgeMatrix(mesh.vertices[e[0]], mesh.vertices[e[1]], mesh.vertices[e[2]], mesh.vertices[e[3]])
  }

  /** The rest volume of every element, in element order. */
  function RestVolumes(mesh: Mesh): (vols: seq<real>)
    requires WellFormed(mesh)
    ensures |vols| == |mesh.elements|
    ensures forall i :: 0 <= i < |vols| ==> vols[i] >= 0.0
  {
    seq(|mesh.elements|, i requires 0 <= i < |mesh.elements| => TetVolume(ComputeDm(mesh, i)))
  }

  /** The flat coordinate vector of a list of points: point v occupies DOFs 3v..3v+2. */
  function RestPositions(vs: seq<Vec3>): (x: seq<real>)
    ensures |x| == 3 * |vs|
    ensures forall v :: 0 <= v < |vs| ==> VertexPosition(x, v) == vs[v]
  {
    if |vs| == 0 then []
    else
      var p := vs[|vs| - 1];
      RestPositions(vs[..|vs| - 1]) + [p.x, p.y, p.z]
  }

  /** The right-hand side -fInt + fExt. */
  function NetForce(fInt: seq<real>, fExt: seq<real>): (r: seq<real>)
    requires |fInt| == |fExt|
    ensures |r| == |fExt|
    ensures forall j :: 0 <= j < |r| ==> r[j] + fInt[j] == fExt[j]
  {
    seq(|fExt|, j requires 0 <= j < |fExt| => -fInt[j] + fExt[j])
  }

  /** x after x += constant * u with constant = magicConstant * h. */
  function Advance(x: seq<real>, magicConstant: real, h: real, u: seq<real>): (r: seq<real>)
    requires |u| == |x|
    ensures |r| == |x|
    ensures forall j :: 0 <= j < |r| ==> r[j] - x[j] == magicConstant * h * u[j]
  {
    var constant := magicConstant * h;
    seq(|x|, j requires 0 <= j < |x| => x[j] + constant * u[j])
  }

  /** At the rest positions the current edge matrix of an element, read through its
      DOF bases, is its rest edge matrix: Ds == Dm. */
  lemma RestEdgeMatrix(mesh: Mesh, i: nat)
    requires WellFormed(mesh) && i < |mesh.elements|
    ensures CurrentEdgeMatrix(RestPositions(mesh.vertices), TetDofs(mesh.elements[i])) == ComputeDm(mesh, i)
  {
    var e := mesh.elements[i];
    assert ValidTet(e, |mesh.vertices|);
    var x := RestPositions(mesh.vertices);
    assert VertexPosition(x, e[0]) == mesh.vertices[e[0]];
    assert VertexPosition(x, e[1]) == mesh.vertices[e[1]];
    assert VertexPosition(x, e[2]) == mesh.vertices[e[2]];
    assert VertexPosition(x, e[3]) == mesh.vertices[e[3]];
  }

  /** At the rest positions the deformation gradient F = Ds * DmInv of an element is
      Dm * DmInv, the identity when DmInv inverts Dm. */
  lemma RestDeformationGradient(mesh: Mesh, i: nat, dmInv: Matrix)
    requires WellFormed(mesh) && i < |mesh.elements| && IsMatrix(dmInv, 3, 3)
    ensures DeformationGradient(RestPositions(mesh.vertices), TetDofs(mesh.elements[i]), dmInv)
            == MatMul3(ComputeDm(mesh, i), dmInv)
    ensures MatMul3(ComputeDm(mesh, i), dmInv) == Identity3 ==>
            DeformationGradient(RestPositions(mesh.vertices), TetDofs(mesh.elements[i]), dmInv) == Identity3
  {
    RestEdgeMatrix(mesh, i);
  }

  /** The loop nests of AddToKeff and FillKeff, one loop per method. Both run y and
      x over the 4x4 tiles of a 12x12 block; inside a tile the two inner loops run
      (innerX, innerY) for AddToKeff and (innerY, innerX) for FillKeff, as order o
      says. Local entry (3x+innerX, 3y+innerY) goes to (indices[x]+innerX,
      indices[y]+innerY). */
  method AddBlock(k: SparseMatrix, indices: seq<int>, kel: Matrix, o: BlockOrder) returns (r: SparseMatrix)
    requires |indices| == 4 && IsMatrix(kel, 12, 12)
    ensures r == ScatterBlock(k, indices, kel, o, 4)
  {
    r := k;
    for y := 0 to 4
      invariant r == ScatterBlock(k, indices, kel, o, y)
    {
      r := AddTileRow(r, indices, kel, o, y);
    }
  }

  /** The x loop of row y of tiles. */
  method AddTileRow(k: SparseMatrix, indices: seq<int>, kel: Matrix, o: BlockOrder, y: nat) returns (r: SparseMatrix)
    requires |indices| == 4 && IsMatrix(kel, 12, 12) && y < 4
    ensures r == ScatterTiles(k, indices, kel, o, y, 4)
  {
    r := k;
    for x := 0 to 4
      invariant r == ScatterTiles(k, indices, kel, o, y, x)
    {
      r := AddTile(r, indices, kel, o, y, x);
    }
  }

  /** The third loop, inside tile (y, x). */
  method AddTile(k: SparseMatrix, indices: seq<int>, kel: Matrix, o: BlockOrder, y: nat, x: nat) returns (r: SparseMatrix)
    requires |indices| == 4 && IsMatrix(kel, 12, 12) && y < 4 && x < 4
    ensures r == ScatterLines(k, indices, kel, o, y, x, 3)
  {
    r := k;
    for a := 0 to 3
      invariant r == ScatterLines(k, indices, kel, o, y, x, a)
    {
      if o == FillOrder {
        r := AddFillLine(r, indices, kel, y, x, a);
      } else {
        r := AddPatternLine(r, indices, kel, y, x, a);
      }
    }
  }

  /** FillKeff's innermost loop: innerX runs with innerY fixed. */
  method AddFillLine(k: SparseMatrix, indices: seq<int>, kel: Matrix, y: nat, x: nat, innerY: nat) returns (r: SparseMatrix)
    requires |indices| == 4 && IsMatrix(kel, 12, 12) && y < 4 && x < 4 && innerY < 3
    ensures r == ScatterCells(k, indices, kel, FillOrder, y, x, innerY, 3)
  {
    r := k;
    for innerX := 0 to 3
      invariant r == ScatterCells(k, indices, kel, FillOrder, y, x, innerY, innerX)
    {
      r := AddAt(r, (indices[x] + innerX, indices[y] + innerY), kel[3 * x + innerX][3 * y + innerY]);
    }
  }

  /** AddToKeff's innermost loop: innerY runs with innerX fixed. */
  method AddPatternLine(k: SparseMatrix, indices: seq<int>, kel: Matrix, y: nat, x: nat, innerX: nat) returns (r: SparseMatrix)
    requires |indices| == 4 && IsMatrix(kel, 12, 12) && y < 4 && x < 4 && innerX < 3
    ensures r == ScatterCells(k, indices, kel, PatternOrder, y, x, innerX, 3)
  {
    r := k;
    for innerY := 0 to 3
      invariant r == ScatterCells(k, indices, kel, PatternOrder, y, x, innerX, innerY)
    {
      r := AddAt(r, (indices[x] + innerX, indices[y] + innerY), kel[3 * x + innerX][3 * y + innerY]);
    }
  }

  /** AddToKeff(dPdx, elem): adds the 12x12 block dPdx of element elem into k,
      inserting the entries not yet stored. */
  method AddToKeff(k: SparseMatrix, indexArray: seq<int>, dPdx: Matrix, elem: nat) returns (r: SparseMatrix)
    requires IsMatrix(dPdx, 12, 12) && 4 * elem + 4 <= |indexArray|
    ensures r == ScatterBlock(k, Bases(indexArray, elem), dPdx, PatternOrder, 4)
    ensures r.Keys == k.Keys + BlockKeys(Bases(indexArray, elem))
    ensures forall key :: Get(r, key) == Get(k, key) + BlockContribution(Bases(indexArray, elem), dPdx, 4, key)
  {
    r := AddBlock(k, Bases(indexArray, elem), dPdx, PatternOrder);
    ScatterBlockAllKeys(k, Bases(indexArray, elem), dPdx, PatternOrder);
    forall key {
      ScatterBlockAt(k, Bases(indexArray, elem), dPdx, PatternOrder, key);
    }
  }

  /** FillKeff: element by element, the block ks[i] is added into k in the loop
      order y, x, innerY, innerX. */
  method FillKeff(k: SparseMatrix, indexArray: seq<int>, ks: seq<Matrix>, n: nat) returns (r: SparseMatrix)
    requires 4 * n <= |indexArray| && n <= |ks| && AllMat12(ks)
    ensures r == AssembleMatrix(k, indexArray, ks, n)
    ensures r.Keys == k.Keys + ElementPattern(indexArray, n)
    ensures forall key :: Get(r, key) == Get(k, key) + AssembledContribution(indexArray, ks, key, n)
  {
    r := k;
    for i := 0 to n
      invariant r == AssembleMatrix(k, indexArray, ks, i)
    {
      r := AddBlock(r, Bases(indexArray, i), ks[i], FillOrder);
    }
    AssembleMatrixKeys(k, indexArray, ks, n);
    forall key {
      AssembleMatrixAt(k, indexArray, ks, n, key);
    }
  }

  /** The loops over el and incr of FillFint for one element: local entry
      3*el+incr goes to fInt(indices[el]+incr). */
  method AddElementForce(f: seq<real>, indices: seq<int>, fEl: seq<real>) returns (r: seq<real>)
    requires BasesIn(indices, |f|) && |fEl| == 12
    ensures r == ScatterVector(f, indices, fEl, 12)
  {
    r := f;
    for el := 0 to 4
      invariant r == ScatterVector(f, indices, fEl, 3 * el)
    {
      for incr := 0 to 3
        invariant r == ScatterVector(f, indices, fEl, 3 * el + incr)
      {
        ScatterVectorStep(f, indices, fEl, el, incr);
        r := r[indices[el] + incr := r[indices[el] + incr] + fEl[3 * el + incr]];
      }
    }
  }

  /** FillFint: the element force vectors scattered into fInt, element by element. */
  method FillFint(f: seq<real>, indexArray: seq<int>, fs: seq<seq<real>>, n: nat) returns (r: seq<real>)
    requires 4 * n <= |indexArray| && n <= |fs| && TableIn(indexArray, |f|) && AllVec12(fs)
    ensures r == AssembleVector(f, indexArray, fs, n)
  {
    r := f;
    for i := 0 to n
      invariant r == AssembleVector(f, indexArray, fs, i)
    {
      BasesOfTableIn(indexArray, i, |f|);
      r := AddElementForce(r, Bases(indexArray, i), fs[i]);
    }
  }

  /** The loop at the start of Step that writes 0 through every stored entry of Keff;
      the pattern stays. */
  method ClearKeff(k: SparseMatrix) returns (r: SparseMatrix)
    ensures r == ZeroValues(k)
  {
    r := k;
    var keys := k.Keys;
    while keys != {}
      invariant keys <= r.Keys && r.Keys == k.Keys
      invariant forall key :: key in r ==> r[key] == if key in keys then k[key] else 0.0
      decreases keys
    {
      var key :| key in keys;
      r := r[key := 0.0];
      keys := keys - {key};
    }
    assert r == ZeroValues(k);
  }

  /** The boundary-condition loop of Step: for each fixed vertex the three diagonal
      entries of Keff become 1 and the three entries of the right-hand side 0. */
  method ApplyBoundaryConditions(k: SparseMatrix, v: seq<real>, bcs: seq<nat>) returns (kb: SparseMatrix, vb: seq<real>)
    requires BcsIn(bcs, |v|)
    ensures kb == PinBoundary(k, bcs) && vb == ZeroBoundary(v, bcs)
  {
    kb, vb := k, v;
    for b := 0 to |bcs|
      invariant kb == PinBoundary(k, bcs[..b])
      invariant vb == ZeroBoundary(v, bcs[..b])
    {
      assert bcs[..b + 1][..b] == bcs[..b];
      var index := 3 * bcs[b];
      kb := kb[(index + 0, index + 0) := 1.0];
      kb := kb[(index + 1, index + 1) := 1.0];
      kb := kb[(index + 2, index + 2) := 1.0];
      vb := vb[index + 0 := 0.0];
      vb := vb[index + 1 := 0.0];
      vb := vb[index + 2 := 0.0];
    }
    assert bcs[..|bcs|] == bcs;
  }

  /** The second half of Step: FillKeff and FillFint (run on two threads, whose writes
      do not overlap), the right-hand side -fInt + fExt and the boundary loop. */
  method AssembleSystem(keff: SparseMatrix, fInt0: seq<real>, indexArray: seq<int>, kels: seq<Matrix>,
                        fEls: seq<seq<real>>, fExt: seq<real>, bcs: seq<nat>, n: nat)
    returns (k: SparseMatrix, fInt: seq<real>, systemVec: seq<real>)
    requires |fInt0| == |fExt| && 4 * n <= |indexArray| && TableIn(indexArray, |fExt|)
    requires n <= |kels| && AllMat12(kels) && n <= |fEls| && AllVec12(fEls)
    requires BcsIn(bcs, |fExt|)
    ensures fInt == AssembleVector(fInt0, indexArray, fEls, n)
    ensures k == PinBoundary(AssembleMatrix(keff, indexArray, kels, n), bcs)
    ensures systemVec == ZeroBoundary(NetForce(fInt, fExt), bcs)
  {
    var assembled := FillKeff(keff, indexArray, kels, n);
    fInt := FillFint(fInt0, indexArray, fEls, n);
    systemVec := NetForce(fInt, fExt);
    k, systemVec := ApplyBoundaryConditions(assembled, systemVec, bcs);
  }

  /** Step keeps the stored pattern of Keff: clearing it, assembling the element
      blocks into it and pinning the fixed DOFs only ever add keys, and the element
      pattern is among them. */
  lemma StepKeepsPattern(k: SparseMatrix, table: seq<int>, ks: seq<Matrix>, n: nat, bcs: seq<nat>)
    requires 4 * n <= |table| && n <= |ks| && AllMat12(ks)
    ensures k.Keys + ElementPattern(table, n) <= PinBoundary(AssembleMatrix(ZeroValues(k), table, ks, n), bcs).Keys
  {
    AssembleMatrixKeys(ZeroValues(k), table, ks, n);
    PinBoundaryAt(AssembleMatrix(ZeroValues(k), table, ks, n), bcs);
  }

  /** The pattern loop of StartUp: builds indexArray and calls
      AddToKeff(Mat12::Zero(), i) for every element, so Keff stores the element
      pattern with value 0. */
  method CreateKeffPattern(es: seq<Tet>) returns (indexArray: seq<int>, keff: SparseMatrix)
    requires AllTets(es)
    ensures indexArray == IndexTable(es)
    ensures keff.Keys == ElementPattern(indexArray, |es|)
    ensures forall key :: key in keff ==> keff[key] == 0.0
  {
    keff := map[];
    indexArray := [];
    for i := 0 to |es|
      invariant indexArray == IndexTable(es[..i])
      invariant keff.Keys == ElementPattern(IndexTable(es), i)
      invariant forall key :: key in keff ==> keff[key] == 0.0
    {
      indexArray := indexArray + [3 * es[i][0]];
      indexArray := indexArray + [3 * es[i][1]];
      indexArray := indexArray + [3 * es[i][2]];
      indexArray := indexArray + [3 * es[i][3]];
      IndexTableSnoc(es, i);
      assert Bases(indexArray, i) == TetDofs(es[i]) by {
        assert indexArray == IndexTable(es[..i]) + TetDofs(es[i]);
        assert |IndexTable(es[..i])| == 4 * i;
      }
      BasesOfIndexTable(es, i);
      ghost var before := keff;
      keff := AddToKeff(keff, indexArray, ZeroMatrix(12, 12), i);
      ScatterZeroBlock(before, Bases(indexArray, i), PatternOrder);
      assert ElementPattern(IndexTable(es), i + 1) == ElementPattern(IndexTable(es), i) + BlockKeys(TetDofs(es[i]));
      forall key | key in keff
        ensures keff[key] == 0.0
      {
        assert Get(keff, key) == Get(before, key);
      }
    }
    assert es[..|es|] == es;
  }

  /** M.coeffRef(3*index+c, 3*index+c) += mass for the four corners of one element. */
  method AddElementMassLoop(m: SparseMatrix, e: Tet, mass: real) returns (r: SparseMatrix)
    requires |e| == 4
    ensures r == AddElementMass(m, e, mass, 4)
  {
    r := m;
    for v := 0 to 4
      invariant r == AddElementMass(m, e, mass, v)
    {
      var index := e[v];
      r := AddAt(r, (3 * index + 0, 3 * index + 0), mass);
      r := AddAt(r, (3 * index + 1, 3 * index + 1), mass);
      r := AddAt(r, (3 * index + 2, 3 * index + 2), mass);
    }
  }

  /** The mass step of element i of StartUp's element loop: M holds the lumped mass
      of elements 0..i-1 before and of elements 0..i after. */
  method AddLumpedMass(m: SparseMatrix, es: seq<Tet>, vols: seq<real>, rho: real, i: nat) returns (r: SparseMatrix)
    requires AllTets(es) && i < |es| && i < |vols|
    requires m == LumpedMass(map[], es, vols, rho, i)
    ensures r == LumpedMass(map[], es, vols, rho, i + 1)
  {
    r := AddElementMassLoop(m, es[i], rho * vols[i]);
    LumpedMassSnoc(map[], es, vols, rho, i);
  }

  /** The element loop of StartUp: pushes DmInv and dF/dx, computes the rest volume
      |det Dm| / 6 and adds the element's lumped mass to M. dmInvs[i] stands for
      Dm.inverse() of element i. */
  method ComputeElementData(mesh: Mesh, dmInvs: seq<Matrix>, rho: real)
    returns (DmInvs: seq<Matrix>, dFdxs: seq<Matrix>, tetVols: seq<real>, M: SparseMatrix)
    requires WellFormed(mesh) && AllTets(mesh.elements)
    requires |dmInvs| == |mesh.elements| && forall i :: 0 <= i < |dmInvs| ==> IsMatrix(dmInvs[i], 3, 3)
    ensures DmInvs == dmInvs
    ensures |dFdxs| == |mesh.elements| && forall i :: 0 <= i < |dFdxs| ==> dFdxs[i] == ComputedFdx(dmInvs[i])
    ensures tetVols == RestVolumes(mesh)
    ensures M == LumpedMass(map[], mesh.elements, tetVols, rho, |mesh.elements|)
  {
    DmInvs, dFdxs, tetVols, M := [], [], [], map[];
    var vols := RestVolumes(mesh);
    for i := 0 to |mesh.elements|
      invariant ElementDataUpTo(dmInvs, vols, mesh.elements, rho, i, DmInvs, dFdxs, tetVols, M)
    {
      DmInvs, dFdxs, tetVols, M := ElementDataStep(mesh, dmInvs, vols, rho, i, DmInvs, dFdxs, tetVols, M);
    }
    assert DmInvs == dmInvs[..|mesh.elements|];
    assert tetVols == vols[..|mesh.elements|];
  }

  /** What the element loop of StartUp has built after its first i iterations. */
  ghost predicate ElementDataUpTo(dmInvs: seq<Matrix>, vols: seq<real>, es: seq<Tet>, rho: real, i: nat,
                                  DmInvs: seq<Matrix>, dFdxs: seq<Matrix>, tetVols: seq<real>, M: SparseMatrix)
    requires i <= |dmInvs| && i <= |vols| && i <= |es| && AllTets(es)
    requires forall j :: 0 <= j < |dmInvs| ==> IsMatrix(dmInvs[j], 3, 3)
  {
    && DmInvs == dmInvs[..i]
    && |dFdxs| == i && (forall j :: 0 <= j < i ==> dFdxs[j] == ComputedFdx(dmInvs[j]))
    && tetVols == vols[..i]
    && M == LumpedMass(map[], es, vols, rho, i)
  }

  /** Iteration i of the element loop of StartUp. */
  method ElementDataStep(mesh: Mesh, dmInvs: seq<Matrix>, vols: seq<real>, rho: real, i: nat,
                         DmInvs: seq<Matrix>, dFdxs: seq<Matrix>, tetVols: seq<real>, M: SparseMatrix)
    returns (DmInvs': seq<Matrix>, dFdxs': seq<Matrix>, tetVols': seq<real>, M': SparseMatrix)
    requires WellFormed(mesh) && AllTets(mesh.elements) && i < |mesh.elements|
    requires |dmInvs| == |mesh.elements| && forall j :: 0 <= j < |dmInvs| ==> IsMatrix(dmInvs[j], 3, 3)
    requires vols == RestVolumes(mesh)
    requires ElementDataUpTo(dmInvs, vols, mesh.elements, rho, i, DmInvs, dFdxs, tetVols, M)
    ensures ElementDataUpTo(dmInvs, vols, mesh.elements, rho, i + 1, DmInvs', dFdxs', tetVols', M')
  {
    DmInvs' := PushPrefix(DmInvs, dmInvs, i);
    dFdxs' := PushDFdx(dFdxs, dmInvs, i);
    var vol := TetVolume(ComputeDm(mesh, i));
    assert vols[i] == vol;
    tetVols' := PushPrefix(tetVols, vols, i);
    M' := AddLumpedMass(M, mesh.elements, vols, rho, i);
  }

  /** h * h, stored by StartUp as h2. */
  function Square(r: real): real
  {
    r * r
  }

  /** One push of a loop that copies s element by element. */
  method PushPrefix<T>(acc: seq<T>, s: seq<T>, i: nat) returns (r: seq<T>)
    requires i < |s| && acc == s[..i]
    ensures r == s[..i + 1]
  {
    r := acc + [s[i]];
  }

  /** One push of dF/dx in the element loop of StartUp. */
  method PushDFdx(dFdxs: seq<Matrix>, dmInvs: seq<Matrix>, i: nat) returns (r: seq<Matrix>)
    requires i < |dmInvs| && forall j :: 0 <= j < |dmInvs| ==> IsMatrix(dmInvs[j], 3, 3)
    requires |dFdxs| == i && forall j :: 0 <= j < i ==> dFdxs[j] == ComputedFdx(dmInvs[j])
    ensures |r| == i + 1 && forall j :: 0 <= j < i + 1 ==> r[j] == ComputedFdx(dmInvs[j])
  {
    r := dFdxs + [ComputedFdx(dmInvs[i])];
  }

  /** The last loop of StartUp: x(3i+c) = coordinate c of rest vertex i. */
  method LoadRestPositions(x: seq<real>, vs: seq<Vec3>) returns (r: seq<real>)
    requires |x| == 3 * |vs|
    ensures r == RestPositions(vs)
  {
    var rest := RestPositions(vs);
    r := x;
    for i := 0 to |vs|
      invariant |r| == |rest|
      invariant forall j :: 0 <= j < 3 * i ==> r[j] == rest[j]
    {
      var v := vs[i];
      assert VertexPosition(rest, i) == v;
      r := r[3 * i + 0 := v.x];
      r := r[3 * i + 1 := v.y];
      r := r[3 * i + 2 := v.z];
    }
  }

  class Solver {
    // configuration
    var h: real
    var h2: real
    var magicConstant: real
    var loadStep: real
    var loadedVert: nat
    var bcs: seq<nat>

    // mesh and sizes
    var mesh: Mesh
    var numVertices: nat
    var numDOFs: nat
    var numElements: nat

    // state
    var T: real
    var x: seq<real>
    var x0: seq<real>
    var fInt: seq<real>
    var fExt: seq<real>
    /** The function-static `load` of Step, which outlives every call. */
    var load: real

    // precomputed per element
    var DmInvs: seq<Matrix>
    var dFdxs: seq<Matrix>
    var tetVols: seq<real>

    // global matrices: the keys are the stored pattern
    var M: SparseMatrix
    var Keff: SparseMatrix

    // per-element arrays for the assembly loops
    var indexArray: seq<int>
    var fIntArray: seq<seq<real>>
    var KelArray: seq<Matrix>

    /** The default-constructed solver: fInt and the vectors StartUp appends to are
        empty, and the static load starts at 0. */
    constructor ()
      ensures fInt == [] && load == 0.0
      ensures Fresh()
    {
      fInt := [];
      load := 0.0;
      DmInvs, dFdxs, tetVols, indexArray := [], [], [], [];
    }

    /** The vectors StartUp appends to (emplace_back, push_back) are still empty, as
        in a default-constructed solver. */
    ghost predicate Fresh()
      reads this`DmInvs, this`dFdxs, this`tetVols, this`indexArray
    {
      DmInvs == [] && dFdxs == [] && tetVols == [] && indexArray == []
    }

    /** The mesh and its sizes, the loaded vertex and the fixed vertices in range. */
    ghost predicate MeshReady()
      reads this`mesh, this`numVertices, this`numElements, this`numDOFs, this`loadedVert, this`bcs
    {
      && WellFormed(mesh)
      && AllTets(mesh.elements)
      && numVertices == |mesh.vertices|
      && numElements == |mesh.elements|
      && numDOFs == 3 * numVertices
      && loadedVert < numVertices
      && BcsIn(bcs, numDOFs)
    }

    /** The precomputed per-element data has one entry per element. */
    ghost predicate ElementDataReady()
      reads this`numElements, this`DmInvs, this`dFdxs, this`tetVols
    {
      && |DmInvs| == numElements && (forall i :: 0 <= i < |DmInvs| ==> IsMatrix(DmInvs[i], 3, 3))
      && |dFdxs| == numElements && |tetVols| == numElements
    }

    /** The DOF table of the mesh, and one force vector and one stiffness block per
        element for the assembly loops. */
    ghost predicate SystemReady()
      reads this`mesh, this`numElements, this`numDOFs, this`indexArray, this`fIntArray, this`KelArray
    {
      && AllTets(mesh.elements)
      && numElements == |mesh.elements|
      && indexArray == IndexTable(mesh.elements)
      && TableIn(indexArray, numDOFs)
      && |fIntArray| == numElements && AllVec12(fIntArray)
      && |KelArray| == numElements && AllMat12(KelArray)
    }

    /** The DOF vectors have one entry per DOF. */
    ghost predicate StateSized()
      reads this`numDOFs, this`x, this`x0, this`fExt
    {
      |x| == numDOFs && |x0| == numDOFs && |fExt| == numDOFs
    }

    /** What StartUp establishes and Step keeps. */
    ghost predicate Valid()
      reads this`mesh, this`numVertices, this`numElements, this`numDOFs, this`loadedVert, this`bcs
      reads this`indexArray, this`DmInvs, this`dFdxs, this`tetVols
      reads this`x, this`x0, this`fExt, this`fIntArray, this`KelArray
    {
      MeshReady() && ElementDataReady() && SystemReady() && StateSized()
    }

    /** What the configuration block of StartUp leaves behind: the configuration
        values and the mesh taken over, the sizes taken from the mesh, the clock reset
        and the external force zeroed. */
    ghost predicate Configured(config: Config, m: Mesh)
      reads this`h, this`h2, this`magicConstant, this`loadStep, this`loadedVert, this`bcs, this`mesh
      reads this`numVertices, this`numDOFs, this`numElements, this`T, this`fExt
    {
      && h == config.h && h2 == Square(config.h) && magicConstant == config.magicConstant
      && loadStep == config.loadStep && loadedVert == config.loadedVert && bcs == config.bcs
      && mesh == m
      && numVertices == |m.vertices| && numDOFs == 3 * numVertices && numElements == |m.elements|
      && T == 0.0 && fExt == Zeros(numDOFs)
      && MeshReady()
    }

    /** What the "DmInv, dFdx, mass" block leaves behind: the inverse rest edge matrices,
        dF/dx of every element, the rest volumes and the lumped mass matrix. */
    ghost predicate Precomputed(dmInvs: seq<Matrix>, rho: real)
      reads this`mesh, this`numElements, this`DmInvs, this`dFdxs, this`tetVols, this`M
    {
      && WellFormed(mesh) && AllTets(mesh.elements) && numElements == |mesh.elements|
      && ElementDataReady()
      && DmInvs == dmInvs
      && |dFdxs| == numElements && (forall i :: 0 <= i < numElements ==> dFdxs[i] == ComputedFdx(dmInvs[i]))
      && tetVols == RestVolumes(mesh)
      && M == LumpedMass(map[], mesh.elements, tetVols, rho, numElements)
    }

    /** What the "create Keff, tbb arrays" block leaves behind: the DOF table, Keff
        holding a zero at every entry of the element pattern and nowhere else, and
        zeroed per-element force vectors and stiffness blocks. */
    ghost predicate KeffCreated()
      reads this`mesh, this`numElements, this`numDOFs, this`indexArray, this`Keff, this`fIntArray, this`KelArray
    {
      && SystemReady()
      && Keff.Keys == ElementPattern(indexArray, numElements)
      && (forall key :: key in Keff ==> Keff[key] == 0.0)
      && fIntArray == Fill(numElements, Zeros(12))
      && KelArray == Fill(numElements, ZeroMatrix(12, 12))
    }

    /** The configuration block of StartUp (time step, load parameters, fixed vertices
        and the loaded mesh), then the sizes taken from the mesh, the clock reset and
        the DOF vectors zeroed. */
    method Configure(config: Config, m: Mesh)
      requires WellFormed(m)
      requires config.loadedVert < |m.vertices|
      requires BcsIn(config.bcs, 3 * |m.vertices|)
      modifies this`h, this`h2, this`magicConstant, this`loadStep, this`loadedVert, this`bcs, this`mesh
      modifies this`numVertices, this`numDOFs, this`numElements, this`T, this`x, this`x0, this`fExt
      ensures Configured(config, m)
      ensures x == Zeros(numDOFs) && x0 == Zeros(numDOFs)
    {
      assert AllTets(m.elements) by {
        forall i | 0 <= i < |m.elements| ensures |m.elements[i]| == 4 {
          assert ValidTet(m.elements[i], |m.vertices|);
        }
      }
      var n := 3 * |m.vertices|;
      h, h2, magicConstant, loadStep, loadedVert, mesh, bcs :=
        config.h, Square(config.h), config.magicConstant, config.loadStep, config.loadedVert, m, config.bcs;
      numVertices, numDOFs, numElements := |m.vertices|, n, |m.elements|;
      T, x, x0, fExt := 0.0, Zeros(n), Zeros(n), Zeros(n);
    }

    /** The "DmInv, dFdx, mass" block of StartUp. */
    method PrecomputeElements(dmInvs: seq<Matrix>, rho: real)
      requires MeshReady()
      requires |dmInvs| == numElements && forall i :: 0 <= i < |dmInvs| ==> IsMatrix(dmInvs[i], 3, 3)
      requires DmInvs == [] && dFdxs == [] && tetVols == []
      modifies this`DmInvs, this`dFdxs, this`tetVols, this`M
      ensures Precomputed(dmInvs, rho)
    {
      var inverses, jacobians, volumes, mass := ComputeElementData(mesh, dmInvs, rho);
      DmInvs, dFdxs, tetVols, M := DmInvs + inverses, dFdxs + jacobians, tetVols + volumes, mass;
    }

    /** The "create Keff, tbb arrays" block of StartUp. */
    method CreateKeff()
      requires MeshReady() && indexArray == []
      modifies this`indexArray, this`Keff, this`fIntArray, this`KelArray
      ensures KeffCreated()
    {
      var es := mesh.elements;
      IndexTableBounds(es, numVertices);
      var table, pattern := CreateKeffPattern(es);
      indexArray, Keff := indexArray + table, pattern;
      fIntArray := Fill(|es|, Zeros(12));
      KelArray := Fill(|es|, ZeroMatrix(12, 12));
    }

    /** The last loop of StartUp, which copies the rest positions into x, and x_0 = x. */
    method LoadPositions()
      requires |x| == 3 * |mesh.vertices|
      modifies this`x, this`x0
      ensures x == RestPositions(mesh.vertices) && x0 == x
    {
      x := LoadRestPositions(x, mesh.vertices);
      x0 := x;
    }

    /** The "create Keff, tbb arrays" block of StartUp and the last loop. */
    method BuildSystem()
      requires MeshReady() && |x| == numDOFs && indexArray == []
      modifies this`indexArray, this`Keff, this`fIntArray, this`KelArray, this`x, this`x0
      ensures KeffCreated()
      ensures x == RestPositions(mesh.vertices) && x0 == x
    {
      CreateKeff();
      LoadPositions();
    }

    /** Everything StartUp does after the configuration block. */
    method Initialize(dmInvs: seq<Matrix>, rho: real)
      requires MeshReady() && |x| == numDOFs && Fresh()
      requires |dmInvs| == numElements && forall i :: 0 <= i < |dmInvs| ==> IsMatrix(dmInvs[i], 3, 3)
      modifies this`DmInvs, this`dFdxs, this`tetVols, this`M, this`indexArray, this`Keff, this`fIntArray, this`KelArray
      modifies this`x, this`x0
      ensures Precomputed(dmInvs, rho)
      ensures KeffCreated()
      ensures x == RestPositions(mesh.vertices) && x0 == x
    {
      PrecomputeElements(dmInvs, rho);
      BuildSystem();
    }

    /** Reads the configuration, takes the mesh, precomputes DmInv, dF/dx, the rest
        volumes and the lumped mass matrix, creates Keff's pattern and copies the rest
        positions into x and x0. dmInvs[i] stands for Dm.inverse() of element i. */
    method StartUp(config: Config, m: Mesh, dmInvs: seq<Matrix>)
      requires WellFormed(m)
      requires |dmInvs| == |m.elements| && forall i :: 0 <= i < |dmInvs| ==> IsMatrix(dmInvs[i], 3, 3)
      requires config.loadedVert < |m.vertices|
      requires BcsIn(config.bcs, 3 * |m.vertices|)
      requires Fresh()
      modifies this`h, this`h2, this`magicConstant, this`loadStep, this`loadedVert, this`bcs, this`mesh
      modifies this`numVertices, this`numDOFs, this`numElements, this`T, this`x, this`x0, this`fExt
      modifies this`DmInvs, this`dFdxs, this`tetVols, this`M, this`indexArray, this`Keff, this`fIntArray, this`KelArray
      ensures Valid()
      ensures Configured(config, m)
      ensures Precomputed(dmInvs, config.rho)
      ensures KeffCreated()
      ensures x == RestPositions(m.vertices) && x0 == x
    {
      Configure(config, m);
      Initialize(dmInvs, config.rho);
    }

    /** The part of the element step the model keeps: F = Ds * DmInv from the current
        positions, and the element's force vector and stiffness block stored for the
        assembly loops. fEl and kel stand for the ARAP force and projected stiffness
        computed from the SVD of F. */
    method ComputeElementJacobianAndHessian(i: nat, fEl: seq<real>, kel: Matrix) returns (F: Matrix)
      requires Valid() && i < numElements && |fEl| == 12 && IsMatrix(kel, 12, 12)
      modifies this`fIntArray, this`KelArray
      ensures Valid()
      ensures BasesIn(Bases(indexArray, i), |x|)
      ensures F == DeformationGradient(x, Bases(indexArray, i), DmInvs[i])
      ensures fIntArray == old(fIntArray)[i := fEl] && KelArray == old(KelArray)[i := kel]
    {
      var indices := Bases(indexArray, i);
      BasesOfTableIn(indexArray, i, numDOFs);
      var c := Corners(x, indices);
      var ds := EdgeMatrix(c[0], c[1], c[2], c[3]);
      F := MatMul3(ds, DmInvs[i]);
      fIntArray, KelArray := fIntArray[i := fEl], KelArray[i := kel];
    }

    /** The element loop of Step: ComputeElementJacobianAndHessian(i) for every element. */
    method ComputeElements(fEls: seq<seq<real>>, kels: seq<Matrix>)
      requires Valid()
      requires |fEls| == numElements && AllVec12(fEls) && |kels| == numElements && AllMat12(kels)
      modifies this`fIntArray, this`KelArray
      ensures Valid()
      ensures fIntArray == fEls && KelArray == kels
    {
      for i := 0 to numElements
        invariant Valid()
        invariant forall j :: 0 <= j < i ==> fIntArray[j] == fEls[j] && KelArray[j] == kels[j]
      {
        var _ := ComputeElementJacobianAndHessian(i, fEls[i], kels[i]);
      }
    }

    /** The start of Step: the clock advances by h, the force vector is cleared and the
        function-static load, advanced by loadStep and reset below -2000000, is applied
        to the y DOF of the loaded vertex; then Keff's stored values and fInt are set
        to zero. */
    method BeginStep()
      requires Valid()
      modifies this`T, this`load, this`fExt, this`Keff, this`fInt
      ensures Valid()
      ensures T == old(T) + h
      ensures load == NextLoad(old(load), loadStep)
      ensures fExt == ExternalForce(numDOFs, loadedVert, load)
      ensures Keff == ZeroValues(old(Keff)) && fInt == Zeros(numDOFs)
    {
      var l := load + loadStep;
      if l < LoadThreshold {
        l := LoadReset;
      }
      var f := Zeros(numDOFs);
      f := f[3 * loadedVert + 1 := f[3 * loadedVert + 1] + l];
      var k := ClearKeff(Keff);
      T, load, fExt, Keff, fInt := T + h, l, f, k, Zeros(numDOFs);
    }

    /** The accumulation block of Step and the boundary-condition loop: Keff and fInt
        gather the element blocks and forces, the fixed DOFs are pinned, and the
        right-hand side -fInt + fExt is returned with the fixed DOFs zeroed. */
    method Accumulate() returns (systemVec: seq<real>)
      requires Valid() && |fInt| == numDOFs
      modifies this`Keff, this`fInt
      ensures Valid()
      ensures fInt == AssembleVector(old(fInt), indexArray, fIntArray, numElements)
      ensures Keff == PinBoundary(AssembleMatrix(old(Keff), indexArray, KelArray, numElements), bcs)
      ensures systemVec == ZeroBoundary(NetForce(fInt, fExt), bcs)
    {
      var k, f, v := AssembleSystem(Keff, fInt, indexArray, KelArray, fIntArray, fExt, bcs, numElements);
      Keff, fInt := k, f;
      systemVec := v;
    }

    /** The rest of Step after BeginStep: the element loop, the accumulation and
        boundary block, and x += magicConstant * h * u. */
    method FinishStep(fEls: seq<seq<real>>, kels: seq<Matrix>, u: seq<real>) returns (systemVec: seq<real>)
      requires Valid() && |fInt| == numDOFs
      requires |fEls| == numElements && AllVec12(fEls) && |kels| == numElements && AllMat12(kels)
      requires |u| == numDOFs
      modifies this`Keff, this`fInt, this`fIntArray, this`KelArray, this`x
      ensures Valid()
      ensures fIntArray == fEls && KelArray == kels
      ensures fInt == AssembleVector(old(fInt), indexArray, fEls, numElements)
      ensures Keff == PinBoundary(AssembleMatrix(old(Keff), indexArray, kels, numElements), bcs)
      ensures systemVec == ZeroBoundary(NetForce(fInt, fExt), bcs)
      ensures x == Advance(old(x), magicConstant, h, u)
    {
      ComputeElements(fEls, kels);
      systemVec := Accumulate();
      x := Advance(x, magicConstant, h, u);
    }

    /** One quasi-static step. fEls and kels are the element forces and stiffness
        blocks, u the solution of Keff * u = systemVec. Returns the new positions and
        the right-hand side handed to the linear solve. */
    method Step(fEls: seq<seq<real>>, kels: seq<Matrix>, u: seq<real>) returns (xNew: seq<real>, systemVec: seq<real>)
      requires Valid()
      requires |fEls| == numElements && AllVec12(fEls) && |kels| == numElements && AllMat12(kels)
      requires |u| == numDOFs
      modifies this`T, this`load, this`fExt, this`Keff, this`fInt, this`fIntArray, this`KelArray, this`x
      ensures Valid()
      ensures T == old(T) + h
      ensures load == NextLoad(old(load), loadStep)
      ensures fExt == ExternalForce(numDOFs, loadedVert, load)
      ensures fIntArray == fEls && KelArray == kels
      ensures fInt == AssembleVector(Zeros(numDOFs), indexArray, fEls, numElements)
      ensures Keff == PinBoundary(AssembleMatrix(ZeroValues(old(Keff)), indexArray, kels, numElements), bcs)
      ensures systemVec == ZeroBoundary(NetForce(fInt, fExt), bcs)
      ensures x == Advance(old(x), magicConstant, h, u) && xNew == x
    {
      BeginStep();
      systemVec := FinishStep(fEls, kels, u);
      xNew := x;
    }
  }
}
