/** The index and linear-sum bookkeeping of Simulator/Solver.cpp, as functions of
    their inputs: the element-to-DOF table, the scatter of local force vectors and
    stiffness blocks into the global system, the lumped mass matrix, the Dirichlet
    pinning of fixed vertices and the cyclic load. The methods of class Solver are
    proved against these functions. */
module Assembly {
  import opened LinAlg

  // ---------------------------------------------------------------------------
  // Mesh and element-to-DOF table
  // ---------------------------------------------------------------------------

  /** A tetrahedron: its four vertex indices, getVertexIndex(i, 0..3). */
  type Tet = seq<nat>

  /** The volumetric mesh the solver is started on: rest positions and tetrahedra. */
  datatype Mesh = Mesh(vertices: seq<Vec3>, elements: seq<Tet>)

  predicate ValidTet(e: Tet, numVertices: nat)
  {
    |e| == 4 && forall k :: 0 <= k < 4 ==> e[k] < numVertices
  }

  /** Every tetrahedron has four corners, each an existing vertex. */
  predicate WellFormed(m: Mesh)
  {
    forall i :: 0 <= i < |m.elements| ==> ValidTet(m.elements[i], |m.vertices|)
  }

  predicate AllTets(es: seq<Tet>)
  {
    forall i :: 0 <= i < |es| ==> |es[i]| == 4
  }

  /** The four DOF bases of one element: 3 * vertex index. */
  function TetDofs(e: Tet): (d: seq<int>)
    requires |e| == 4
    ensures |d| == 4
  {
    [3 * e[0], 3 * e[1], 3 * e[2], 3 * e[3]]
  }

  /** indexArray as StartUp builds it: four DOF bases per element, element by element. */
  function IndexTable(es: seq<Tet>): (t: seq<int>)
    requires AllTets(es)
    ensures |t| == 4 * |es|
  {
    if |es| == 0 then [] else IndexTable(es[..|es| - 1]) + TetDofs(es[|es| - 1])
  }

  /** Entry 4i+k of the table is 3 * getVertexIndex(i, k). */
  lemma {:induction false} IndexTableEntry(es: seq<Tet>, i: nat, k: nat)
    requires AllTets(es) && i < |es| && k < 4
    ensures IndexTable(es)[4 * i + k] == 3 * es[i][k]
  {
    var n := |es| - 1;
    if i < n {
      assert es[..n][i] == es[i];
      IndexTableEntry(es[..n], i, k);
    }
  }

  /** The slice of element i in the full table holds its four DOF bases. */
  lemma BasesOfIndexTable(es: seq<Tet>, i: nat)
    requires AllTets(es) && i < |es|
    ensures Bases(IndexTable(es), i) == TetDofs(es[i])
  {
    var b, d := Bases(IndexTable(es), i), TetDofs(es[i]);
    forall k | 0 <= k < 4
      ensures b[k] == d[k]
    {
      IndexTableEntry(es, i, k);
    }
  }

  /** The table of a prefix of the elements is the matching prefix of the table. */
  lemma {:induction false} IndexTableSnoc(es: seq<Tet>, i: nat)
    requires AllTets(es) && i < |es|
    ensures IndexTable(es[..i + 1]) == IndexTable(es[..i]) + TetDofs(es[i])
  {
    assert es[..i + 1][..i] == es[..i];
  }

  /** Every entry of the table is a multiple of 3 whose DOF block lies below numDOFs. */
  lemma IndexTableBounds(es: seq<Tet>, numVertices: nat)
    requires AllTets(es) && forall i :: 0 <= i < |es| ==> ValidTet(es[i], numVertices)
    ensures forall j :: 0 <= j < |IndexTable(es)| ==>
              IndexTable(es)[j] % 3 == 0 && DofBlockIn(IndexTable(es)[j], 3 * numVertices)
  {
    var t := IndexTable(es);
    forall j | 0 <= j < |t|
      ensures t[j] % 3 == 0 && DofBlockIn(t[j], 3 * numVertices)
    {
      DivMod4(j / 4, j % 4);
      IndexTableEntry(es, j / 4, j % 4);
    }
  }

  /** The three DOFs of the block starting at `base` are below n. */
  predicate DofBlockIn(base: int, n: nat)
  {
    0 <= base && base + 2 < n
  }

  /** Every entry of an index table starts a DOF block below n. */
  predicate TableIn(table: seq<int>, n: nat)
  {
    forall j :: 0 <= j < |table| ==> DofBlockIn(table[j], n)
  }

  /** The four bases of element i: the `indices` pointer &indexArray[4*i]. */
  function Bases(table: seq<int>, i: nat): (b: seq<int>)
    requires 4 * i + 4 <= |table|
    ensures |b| == 4
    ensures forall k :: 0 <= k < 4 ==> b[k] == table[4 * i + k]
  {
    table[4 * i .. 4 * i + 4]
  }

  predicate BasesIn(bases: seq<int>, n: nat)
  {
    |bases| == 4 && forall k :: 0 <= k < 4 ==> DofBlockIn(bases[k], n)
  }

  lemma BasesOfTableIn(table: seq<int>, i: nat, n: nat)
    requires 4 * i + 4 <= |table| && TableIn(table, n)
    ensures BasesIn(Bases(table, i), n)
  {
  }

  // ---------------------------------------------------------------------------
  // Index arithmetic for the nested scatter loops
  // ---------------------------------------------------------------------------

  lemma DivMod3(q: int, r: int)
    requires 0 <= r < 3
    ensures (3 * q + r) / 3 == q && (3 * q + r) % 3 == r
  {
  }

  lemma DivMod4(q: int, r: int)
    requires 0 <= r < 4
    ensures (4 * q + r) / 4 == q && (4 * q + r) % 4 == r
  {
  }

  // ---------------------------------------------------------------------------
  // FillFint: scatter of the local 12-vectors into fInt
  // ---------------------------------------------------------------------------

  /** Global DOF of local entry j = 3*el + incr of an element: indices[el] + incr. */
  function LocalTarget(bases: seq<int>, j: nat): int
    requires |bases| == 4 && j < 12
  {
    var el := Block3(j);
    bases[el] + (j - 3 * el)
  }

  /** j / 3 for j < 12, written as comparisons. */
  function Block3(j: nat): (q: nat)
    requires j < 12
    ensures q < 4 && 3 * q <= j < 3 * q + 3
  {
    if j < 3 then 0 else if j < 6 then 1 else if j < 9 then 2 else 3
  }

  lemma LocalTargetAt(bases: seq<int>, el: nat, incr: nat)
    requires |bases| == 4 && el < 4 && incr < 3
    ensures LocalTarget(bases, 3 * el + incr) == bases[el] + incr
  {
  }

  /** v with the first `count` local entries of f added, in the order FillFint visits
      them: local entry 3*el+incr goes to global DOF indices[el]+incr. */
  function ScatterVector(v: seq<real>, bases: seq<int>, f: seq<real>, count: nat): (r: seq<real>)
    requires BasesIn(bases, |v|) && |f| == 12 && count <= 12
    ensures |r| == |v|
  {
    if count == 0 then v
    else
      var w := ScatterVector(v, bases, f, count - 1);
      var g := LocalTarget(bases, count - 1);
      w[g := w[g] + f[count - 1]]
  }

  /** Step 3*el+incr of FillFint's loops adds f(3*el+incr) to DOF indices[el]+incr. */
  lemma ScatterVectorStep(v: seq<real>, bases: seq<int>, f: seq<real>, el: nat, incr: nat)
    requires BasesIn(bases, |v|) && |f| == 12 && el < 4 && incr < 3
    ensures ScatterVector(v, bases, f, 3 * el + incr + 1)
         == var w := ScatterVector(v, bases, f, 3 * el + incr);
            w[bases[el] + incr := w[bases[el] + incr] + f[3 * el + incr]]
  {
    LocalTargetAt(bases, el, incr);
  }

  predicate AllVec12(fs: seq<seq<real>>)
  {
    forall i :: 0 <= i < |fs| ==> |fs[i]| == 12
  }

  /** fInt after FillFint has processed elements 0..n-1. */
  function AssembleVector(v: seq<real>, table: seq<int>, fs: seq<seq<real>>, n: nat): (r: seq<real>)
    requires 4 * n <= |table| && n <= |fs| && TableIn(table, |v|) && AllVec12(fs)
    ensures |r| == |v|
  {
    if n == 0 then v
    else ScatterVector(AssembleVector(v, table, fs, n - 1), Bases(table, n - 1), fs[n - 1], 12)
  }

  /** What the first `count` local entries of f contribute to global DOF g. */
  function Gather(bases: seq<int>, f: seq<real>, g: int, count: nat): real
    requires |bases| == 4 && |f| == 12 && count <= 12
  {
    if count == 0 then 0.0
    else Gather(bases, f, g, count - 1) + (if LocalTarget(bases, count - 1) == g then f[count - 1] else 0.0)
  }

  /** Scattering adds to each global entry exactly the local entries mapped to it. */
  lemma {:induction false} ScatterVectorAt(v: seq<real>, bases: seq<int>, f: seq<real>, count: nat, g: nat)
    requires BasesIn(bases, |v|) && |f| == 12 && count <= 12 && g < |v|
    ensures ScatterVector(v, bases, f, count)[g] == v[g] + Gather(bases, f, g, count)
  {
    if count > 0 {
      ScatterVectorAt(v, bases, f, count - 1, g);
    }
  }

  /** Scattering conserves the total: the global sum grows by the sum of the local entries. */
  lemma {:induction false} ScatterVectorSum(v: seq<real>, bases: seq<int>, f: seq<real>, count: nat)
    requires BasesIn(bases, |v|) && |f| == 12 && count <= 12
    ensures Sum(ScatterVector(v, bases, f, count)) == Sum(v) + Sum(f[..count])
  {
    if count > 0 {
      var w := ScatterVector(v, bases, f, count - 1);
      ScatterVectorSum(v, bases, f, count - 1);
      SumUpdate(w, LocalTarget(bases, count - 1), f[count - 1]);
      assert f[..count][..count - 1] == f[..count - 1];
    }
  }

  /** Sum of the sums of the first n local vectors. */
  function LocalTotal(fs: seq<seq<real>>, n: nat): real
    requires n <= |fs|
  {
    if n == 0 then 0.0 else LocalTotal(fs, n - 1) + Sum(fs[n - 1])
  }

  /** The assembled vector's sum is the old sum plus the sum of all local entries. */
  lemma {:induction false} AssembleVectorSum(v: seq<real>, table: seq<int>, fs: seq<seq<real>>, n: nat)
    requires 4 * n <= |table| && n <= |fs| && TableIn(table, |v|) && AllVec12(fs)
    ensures Sum(AssembleVector(v, table, fs, n)) == Sum(v) + LocalTotal(fs, n)
  {
    if n > 0 {
      var w := AssembleVector(v, table, fs, n - 1);
      AssembleVectorSum(v, table, fs, n - 1);
      ScatterVectorSum(w, Bases(table, n - 1), fs[n - 1], 12);
      assert fs[n - 1][..12] == fs[n - 1];
    }
  }

  /** What elements 0..n-1 contribute to global DOF g. */
  function GatherAll(table: seq<int>, fs: seq<seq<real>>, g: int, n: nat): real
    requires 4 * n <= |table| && n <= |fs| && AllVec12(fs)
  {
    if n == 0 then 0.0 else GatherAll(table, fs, g, n - 1) + Gather(Bases(table, n - 1), fs[n - 1], g, 12)
  }

  /** Each assembled entry is its old value plus every local entry that maps to it. */
  lemma {:induction false} AssembleVectorAt(v: seq<real>, table: seq<int>, fs: seq<seq<real>>, n: nat, g: nat)
    requires 4 * n <= |table| && n <= |fs| && TableIn(table, |v|) && AllVec12(fs) && g < |v|
    ensures AssembleVector(v, table, fs, n)[g] == v[g] + GatherAll(table, fs, g, n)
  {
    if n > 0 {
      AssembleVectorAt(v, table, fs, n - 1, g);
      ScatterVectorAt(AssembleVector(v, table, fs, n - 1), Bases(table, n - 1), fs[n - 1], 12, g);
    }
  }

  /** A DOF outside the four blocks of an element receives nothing from it. */
  lemma {:induction false} GatherOutside(bases: seq<int>, f: seq<real>, g: int, count: nat)
    requires |bases| == 4 && |f| == 12 && count <= 12
    requires forall k :: 0 <= k < 4 ==> g < bases[k] || bases[k] + 2 < g
    ensures Gather(bases, f, g, count) == 0.0
  {
    if count > 0 {
      GatherOutside(bases, f, g, count - 1);
    }
  }

  // ---------------------------------------------------------------------------
  // Sparse matrices with a stored pattern: FillKeff and AddToKeff
  // ---------------------------------------------------------------------------

  type Key = (int, int)

  /** An Eigen SparseMatrix: the keys are the stored (row, column) pattern. */
  type SparseMatrix = map<Key, real>

  /** The value at (row, column); an entry outside the pattern reads as 0. */
  function Get(k: SparseMatrix, key: Key): real
  {
    if key in k then k[key] else 0.0
  }

  /** The matrix with its pattern kept and every stored value set to 0: the loop at
      the start of Step that writes 0 through every stored entry. */
  function ZeroValues(k: SparseMatrix): (r: SparseMatrix)
    ensures r.Keys == k.Keys
    ensures forall key :: Get(r, key) == 0.0
  {
    map key | key in k :: 0.0
  }

  /** coeffRef(row, column) += a: inserts the entry when it is not stored yet. */
  function AddAt(k: SparseMatrix, key: Key, a: real): SparseMatrix
  {
    k[key := Get(k, key) + a]
  }

  /** The two loop nests through a 12x12 block. Both run y and x over its 4x4 tiles
      of 3x3 entries; inside a tile FillKeff runs innerY, then innerX, and AddToKeff
      runs innerX, then innerY. */
  datatype BlockOrder = FillOrder | PatternOrder

  /** The offsets (innerX, innerY) inside a tile at inner step (a, b), where a is
      the counter of the third loop and b that of the fourth. */
  function TileOffset(o: BlockOrder, a: nat, b: nat): (off: (nat, nat))
    requires a < 3 && b < 3
    ensures off.0 < 3 && off.1 < 3
    ensures o == FillOrder ==> off == (b, a)
    ensures o == PatternOrder ==> off == (a, b)
  {
    if o == FillOrder then (b, a) else (a, b)
  }

  /** The global key of local entry (3x + r, 3y + c): (indices[x] + r, indices[y] + c). */
  function TileKey(bases: seq<int>, x: nat, y: nat, r: nat, c: nat): Key
    requires |bases| == 4 && x < 4 && y < 4
  {
    (bases[x] + r, bases[y] + c)
  }

  /** k after the fourth loop has run b times in tile (y, x), third counter a. */
  function ScatterCells(k: SparseMatrix, bases: seq<int>, kel: Matrix, o: BlockOrder, y: nat, x: nat, a: nat, b: nat): SparseMatrix
    requires |bases| == 4 && IsMatrix(kel, 12, 12) && y < 4 && x < 4 && a < 3 && b <= 3
  {
    if b == 0 then k
    else
      var off := TileOffset(o, a, b - 1);
      AddAt(ScatterCells(k, bases, kel, o, y, x, a, b - 1), TileKey(bases, x, y, off.0, off.1), kel[3 * x + off.0][3 * y + off.1])
  }

  /** k after the third loop has run a times in tile (y, x). */
  function ScatterLines(k: SparseMatrix, bases: seq<int>, kel: Matrix, o: BlockOrder, y: nat, x: nat, a: nat): SparseMatrix
    requires |bases| == 4 && IsMatrix(kel, 12, 12) && y < 4 && x < 4 && a <= 3
  {
    if a == 0 then k else ScatterCells(ScatterLines(k, bases, kel, o, y, x, a - 1), bases, kel, o, y, x, a - 1, 3)
  }

  /** k after the x loop has run x times in row y of tiles. */
  function ScatterTiles(k: SparseMatrix, bases: seq<int>, kel: Matrix, o: BlockOrder, y: nat, x: nat): SparseMatrix
    requires |bases| == 4 && IsMatrix(kel, 12, 12) && y < 4 && x <= 4
  {
    if x == 0 then k else ScatterLines(ScatterTiles(k, bases, kel, o, y, x - 1), bases, kel, o, y, x - 1, 3)
  }

  /** k after the y loop has run y times: ScatterBlock(k, bases, kel, o, 4) is the
      whole block scattered into k. */
  function ScatterBlock(k: SparseMatrix, bases: seq<int>, kel: Matrix, o: BlockOrder, y: nat): SparseMatrix
    requires |bases| == 4 && IsMatrix(kel, 12, 12) && y <= 4
  {
    if y == 0 then k else ScatterTiles(ScatterBlock(k, bases, kel, o, y - 1), bases, kel, o, y - 1, 4)
  }

  predicate AllMat12(ks: seq<Matrix>)
  {
    forall i :: 0 <= i < |ks| ==> IsMatrix(ks[i], 12, 12)
  }

  /** Keff after FillKeff has processed elements 0..n-1. */
  function AssembleMatrix(k: SparseMatrix, table: seq<int>, ks: seq<Matrix>, n: nat): SparseMatrix
    requires 4 * n <= |table| && n <= |ks| && AllMat12(ks)
  {
    if n == 0 then k
    else ScatterBlock(AssembleMatrix(k, table, ks, n - 1), Bases(table, n - 1), ks[n - 1], FillOrder, 4)
  }

  /** The nine keys of tile (y, x): (indices[x] + r, indices[y] + c) for r, c < 3. */
  function TileKeys(bases: seq<int>, y: nat, x: nat): set<Key>
    requires |bases| == 4 && y < 4 && x < 4
  {
    var r0 := bases[x];
    var c0 := bases[y];
    {(r0, c0), (r0 + 1, c0), (r0 + 2, c0),
     (r0, c0 + 1), (r0 + 1, c0 + 1), (r0 + 2, c0 + 1),
     (r0, c0 + 2), (r0 + 1, c0 + 2), (r0 + 2, c0 + 2)}
  }

  /** The keys of the first x tiles of tile row y. */
  function RowKeys(bases: seq<int>, y: nat, x: nat): set<Key>
    requires |bases| == 4 && y < 4 && x <= 4
  {
    if x == 0 then {} else RowKeys(bases, y, x - 1) + TileKeys(bases, y, x - 1)
  }

  /** The keys of the first y tile rows. */
  function RowsKeys(bases: seq<int>, y: nat): set<Key>
    requires |bases| == 4 && y <= 4
  {
    if y == 0 then {} else RowsKeys(bases, y - 1) + RowKeys(bases, y - 1, 4)
  }

  /** The keys of one element's block: the sixteen tiles (indices[x] + r, indices[y] + c). */
  function BlockKeys(bases: seq<int>): set<Key>
    requires |bases| == 4
  {
    RowsKeys(bases, |bases|)
  }

  /** coeffRef(key) += a stores key and keeps every other stored key. */
  lemma AddAtKeys(k: SparseMatrix, key: Key, a: real)
    ensures AddAt(k, key, a).Keys == k.Keys + {key}
  {
  }

  /** The value at one key after coeffRef(key) += a. */
  lemma GetAddAt(k: SparseMatrix, key: Key, a: real, other: Key)
    ensures Get(AddAt(k, key, a), other) == if other == key then Get(k, key) + a else Get(k, other)
  {
  }

  /** Each step of a tile writes one of the tile's nine keys. */
  lemma TileKeyInTile(bases: seq<int>, y: nat, x: nat, r: nat, c: nat)
    requires |bases| == 4 && y < 4 && x < 4 && r < 3 && c < 3
    ensures TileKey(bases, x, y, r, c) in TileKeys(bases, y, x)
  {
  }

  /** The three keys one run of the fourth loop writes: FillKeff's innerX loop walks
      a row of the tile, AddToKeff's innerY loop a column. */
  function LineKeys(bases: seq<int>, o: BlockOrder, y: nat, x: nat, a: nat): set<Key>
    requires |bases| == 4 && y < 4 && x < 4
  {
    var r0 := bases[x];
    var c0 := bases[y];
    if o == FillOrder then {(r0, c0 + a), (r0 + 1, c0 + a), (r0 + 2, c0 + a)}
    else {(r0 + a, c0), (r0 + a, c0 + 1), (r0 + a, c0 + 2)}
  }

  /** One run of the fourth loop adds the keys of its three steps. */
  lemma CellsKeys(k: SparseMatrix, bases: seq<int>, kel: Matrix, o: BlockOrder, y: nat, x: nat, a: nat)
    requires |bases| == 4 && IsMatrix(kel, 12, 12) && y < 4 && x < 4 && a < 3
    ensures ScatterCells(k, bases, kel, o, y, x, a, 3).Keys == k.Keys + LineKeys(bases, o, y, x, a)
  {
    var c1 := ScatterCells(k, bases, kel, o, y, x, a, 1);
    var c2 := ScatterCells(k, bases, kel, o, y, x, a, 2);
    assert ScatterCells(k, bases, kel, o, y, x, a, 0) == k;
    var t0, t1, t2 := TileOffset(o, a, 0), TileOffset(o, a, 1), TileOffset(o, a, 2);
    assert c1.Keys == k.Keys + {TileKey(bases, x, y, t0.0, t0.1)};
    assert c2.Keys == c1.Keys + {TileKey(bases, x, y, t1.0, t1.1)};
    assert ScatterCells(k, bases, kel, o, y, x, a, 3).Keys == c2.Keys + {TileKey(bases, x, y, t2.0, t2.1)};
  }

  /** A tile, in either order, adds exactly its nine keys. */
  lemma TileScatterKeys(k: SparseMatrix, bases: seq<int>, kel: Matrix, o: BlockOrder, y: nat, x: nat)
    requires |bases| == 4 && IsMatrix(kel, 12, 12) && y < 4 && x < 4
    ensures ScatterLines(k, bases, kel, o, y, x, 3).Keys == k.Keys + TileKeys(bases, y, x)
  {
    var l1 := ScatterLines(k, bases, kel, o, y, x, 1);
    var l2 := ScatterLines(k, bases, kel, o, y, x, 2);
    assert ScatterLines(k, bases, kel, o, y, x, 0) == k;
    CellsKeys(k, bases, kel, o, y, x, 0);
    CellsKeys(l1, bases, kel, o, y, x, 1);
    CellsKeys(l2, bases, kel, o, y, x, 2);
    LinesCoverTile(bases, o, y, x);
  }

  /** The three runs of the fourth loop together cover the tile, in either order. */
  lemma LinesCoverTile(bases: seq<int>, o: BlockOrder, y: nat, x: nat)
    requires |bases| == 4 && y < 4 && x < 4
    ensures LineKeys(bases, o, y, x, 0) + LineKeys(bases, o, y, x, 1) + LineKeys(bases, o, y, x, 2) == TileKeys(bases, y, x)
  {
  }

  lemma {:induction false} TilesKeys(k: SparseMatrix, bases: seq<int>, kel: Matrix, o: BlockOrder, y: nat, x: nat)
    requires |bases| == 4 && IsMatrix(kel, 12, 12) && y < 4 && x <= 4
    ensures ScatterTiles(k, bases, kel, o, y, x).Keys == k.Keys + RowKeys(bases, y, x)
  {
    if x > 0 {
      TilesKeys(k, bases, kel, o, y, x - 1);
      TileScatterKeys(ScatterTiles(k, bases, kel, o, y, x - 1), bases, kel, o, y, x - 1);
    }
  }

  lemma {:induction false} ScatterBlockKeys(k: SparseMatrix, bases: seq<int>, kel: Matrix, o: BlockOrder, y: nat)
    requires |bases| == 4 && IsMatrix(kel, 12, 12) && y <= 4
    ensures ScatterBlock(k, bases, kel, o, y).Keys == k.Keys + RowsKeys(bases, y)
  {
    if y > 0 {
      var prev := ScatterBlock(k, bases, kel, o, y - 1);
      ScatterBlockKeys(k, bases, kel, o, y - 1);
      TilesKeys(prev, bases, kel, o, y - 1, 4);
      assert ScatterBlock(k, bases, kel, o, y) == ScatterTiles(prev, bases, kel, o, y - 1, 4);
      assert RowsKeys(bases, y) == RowsKeys(bases, y - 1) + RowKeys(bases, y - 1, 4);
    }
  }

  /** A whole block scatter, in either loop order, adds exactly the block's keys. */
  lemma ScatterBlockAllKeys(k: SparseMatrix, bases: seq<int>, kel: Matrix, o: BlockOrder)
    requires |bases| == 4 && IsMatrix(kel, 12, 12)
    ensures ScatterBlock(k, bases, kel, o, 4).Keys == k.Keys + BlockKeys(bases)
  {
    ScatterBlockKeys(k, bases, kel, o, 4);
  }

  /** kb reads like ka at every key. */
  ghost predicate SameValues(ka: SparseMatrix, kb: SparseMatrix)
  {
    forall key :: Get(ka, key) == Get(kb, key)
  }

  lemma {:induction false} ZeroCells(k: SparseMatrix, bases: seq<int>, o: BlockOrder, y: nat, x: nat, a: nat, b: nat)
    requires |bases| == 4 && y < 4 && x < 4 && a < 3 && b <= 3
    ensures SameValues(ScatterCells(k, bases, ZeroMatrix(12, 12), o, y, x, a, b), k)
  {
    if b > 0 {
      ZeroCells(k, bases, o, y, x, a, b - 1);
      var off := TileOffset(o, a, b - 1);
      forall key: Key
        ensures Get(ScatterCells(k, bases, ZeroMatrix(12, 12), o, y, x, a, b), key) == Get(k, key)
      {
        GetAddAt(ScatterCells(k, bases, ZeroMatrix(12, 12), o, y, x, a, b - 1), TileKey(bases, x, y, off.0, off.1), 0.0, key);
      }
    }
  }

  lemma {:induction false} ZeroLines(k: SparseMatrix, bases: seq<int>, o: BlockOrder, y: nat, x: nat, a: nat)
    requires |bases| == 4 && y < 4 && x < 4 && a <= 3
    ensures SameValues(ScatterLines(k, bases, ZeroMatrix(12, 12), o, y, x, a), k)
  {
    if a > 0 {
      ZeroLines(k, bases, o, y, x, a - 1);
      ZeroCells(ScatterLines(k, bases, ZeroMatrix(12, 12), o, y, x, a - 1), bases, o, y, x, a - 1, 3);
    }
  }

  lemma {:induction false} ZeroTiles(k: SparseMatrix, bases: seq<int>, o: BlockOrder, y: nat, x: nat)
    requires |bases| == 4 && y < 4 && x <= 4
    ensures SameValues(ScatterTiles(k, bases, ZeroMatrix(12, 12), o, y, x), k)
  {
    if x > 0 {
      ZeroTiles(k, bases, o, y, x - 1);
      ZeroLines(ScatterTiles(k, bases, ZeroMatrix(12, 12), o, y, x - 1), bases, o, y, x - 1, 3);
    }
  }

  lemma {:induction false} ZeroRows(k: SparseMatrix, bases: seq<int>, o: BlockOrder, y: nat)
    requires |bases| == 4 && y <= 4
    ensures SameValues(ScatterBlock(k, bases, ZeroMatrix(12, 12), o, y), k)
  {
    if y > 0 {
      ZeroRows(k, bases, o, y - 1);
      ZeroTiles(ScatterBlock(k, bases, ZeroMatrix(12, 12), o, y - 1), bases, o, y - 1, 4);
    }
  }

  /** Scattering a zero block stores the block's keys with value 0 and leaves every
      stored value as it was: this is how StartUp creates Keff's pattern. */
  lemma ScatterZeroBlock(k: SparseMatrix, bases: seq<int>, o: BlockOrder)
    requires |bases| == 4
    ensures ScatterBlock(k, bases, ZeroMatrix(12, 12), o, 4).Keys == k.Keys + BlockKeys(bases)
    ensures forall key :: Get(ScatterBlock(k, bases, ZeroMatrix(12, 12), o, 4), key) == Get(k, key)
  {
    ScatterBlockAllKeys(k, bases, ZeroMatrix(12, 12), o);
    ZeroRows(k, bases, o, 4);
  }

  // What a block scatter adds at each key

  /** What tile (y, x) of kel adds at key: kel(3x + r, 3y + c) when key is
      (indices[x] + r, indices[y] + c) with r, c < 3, and nothing otherwise. */
  function TileContribution(bases: seq<int>, kel: Matrix, y: nat, x: nat, key: Key): real
    requires |bases| == 4 && IsMatrix(kel, 12, 12) && y < 4 && x < 4
  {
    var r := key.0 - bases[x];
    var c := key.1 - bases[y];
    if 0 <= r < 3 && 0 <= c < 3 then kel[3 * x + r][3 * y + c] else 0.0
  }

  /** What the first x tiles of tile row y add at key. */
  function RowContribution(bases: seq<int>, kel: Matrix, y: nat, x: nat, key: Key): real
    requires |bases| == 4 && IsMatrix(kel, 12, 12) && y < 4 && x <= 4
  {
    if x == 0 then 0.0 else RowContribution(bases, kel, y, x - 1, key) + TileContribution(bases, kel, y, x - 1, key)
  }

  /** What the first y tile rows add at key; BlockContribution(bases, kel, 4, key) is
      the sum of kel(3x + r, 3y + c) over every x, y < 4 and r, c < 3 with
      (indices[x] + r, indices[y] + c) == key. */
  function BlockContribution(bases: seq<int>, kel: Matrix, y: nat, key: Key): real
    requires |bases| == 4 && IsMatrix(kel, 12, 12) && y <= 4
  {
    if y == 0 then 0.0 else BlockContribution(bases, kel, y - 1, key) + RowContribution(bases, kel, y - 1, 4, key)
  }

  /** What one step of a tile adds at key. */
  function CellContribution(bases: seq<int>, kel: Matrix, y: nat, x: nat, off: (nat, nat), key: Key): real
    requires |bases| == 4 && IsMatrix(kel, 12, 12) && y < 4 && x < 4 && off.0 < 3 && off.1 < 3
  {
    if TileKey(bases, x, y, off.0, off.1) == key then kel[3 * x + off.0][3 * y + off.1] else 0.0
  }

  /** One run of the fourth loop adds at key what its three steps write there. */
  lemma CellsAt(k: SparseMatrix, bases: seq<int>, kel: Matrix, o: BlockOrder, y: nat, x: nat, a: nat, key: Key)
    requires |bases| == 4 && IsMatrix(kel, 12, 12) && y < 4 && x < 4 && a < 3
    ensures Get(ScatterCells(k, bases, kel, o, y, x, a, 3), key)
         == Get(k, key) + CellContribution(bases, kel, y, x, TileOffset(o, a, 0), key)
                        + CellContribution(bases, kel, y, x, TileOffset(o, a, 1), key)
                        + CellContribution(bases, kel, y, x, TileOffset(o, a, 2), key)
  {
    var t0, t1, t2 := TileOffset(o, a, 0), TileOffset(o, a, 1), TileOffset(o, a, 2);
    var c1 := ScatterCells(k, bases, kel, o, y, x, a, 1);
    var c2 := ScatterCells(k, bases, kel, o, y, x, a, 2);
    assert ScatterCells(k, bases, kel, o, y, x, a, 0) == k;
    assert c1 == AddAt(k, TileKey(bases, x, y, t0.0, t0.1), kel[3 * x + t0.0][3 * y + t0.1]);
    assert c2 == AddAt(c1, TileKey(bases, x, y, t1.0, t1.1), kel[3 * x + t1.0][3 * y + t1.1]);
    GetAddAt(k, TileKey(bases, x, y, t0.0, t0.1), kel[3 * x + t0.0][3 * y + t0.1], key);
    GetAddAt(c1, TileKey(bases, x, y, t1.0, t1.1), kel[3 * x + t1.0][3 * y + t1.1], key);
    GetAddAt(c2, TileKey(bases, x, y, t2.0, t2.1), kel[3 * x + t2.0][3 * y + t2.1], key);
  }

  /** The nine steps of a tile, in either order, add at key exactly the tile's entry
      for key: the nine keys of a tile are distinct. */
  lemma CellsCoverTile(bases: seq<int>, kel: Matrix, o: BlockOrder, y: nat, x: nat, key: Key)
    requires |bases| == 4 && IsMatrix(kel, 12, 12) && y < 4 && x < 4
    ensures CellContribution(bases, kel, y, x, TileOffset(o, 0, 0), key)
          + CellContribution(bases, kel, y, x, TileOffset(o, 0, 1), key)
          + CellContribution(bases, kel, y, x, TileOffset(o, 0, 2), key)
          + CellContribution(bases, kel, y, x, TileOffset(o, 1, 0), key)
          + CellContribution(bases, kel, y, x, TileOffset(o, 1, 1), key)
          + CellContribution(bases, kel, y, x, TileOffset(o, 1, 2), key)
          + CellContribution(bases, kel, y, x, TileOffset(o, 2, 0), key)
          + CellContribution(bases, kel, y, x, TileOffset(o, 2, 1), key)
          + CellContribution(bases, kel, y, x, TileOffset(o, 2, 2), key)
         == TileContribution(bases, kel, y, x, key)
  {
  }

  /** A tile, in either order, adds at each key the tile's entry for that key. */
  lemma TileScatterAt(k: SparseMatrix, bases: seq<int>, kel: Matrix, o: BlockOrder, y: nat, x: nat, key: Key)
    requires |bases| == 4 && IsMatrix(kel, 12, 12) && y < 4 && x < 4
    ensures Get(ScatterLines(k, bases, kel, o, y, x, 3), key) == Get(k, key) + TileContribution(bases, kel, y, x, key)
  {
    var l1 := ScatterLines(k, bases, kel, o, y, x, 1);
    var l2 := ScatterLines(k, bases, kel, o, y, x, 2);
    assert ScatterLines(k, bases, kel, o, y, x, 0) == k;
    CellsAt(k, bases, kel, o, y, x, 0, key);
    CellsAt(l1, bases, kel, o, y, x, 1, key);
    CellsAt(l2, bases, kel, o, y, x, 2, key);
    CellsCoverTile(bases, kel, o, y, x, key);
  }

  lemma {:induction false} TilesAt(k: SparseMatrix, bases: seq<int>, kel: Matrix, o: BlockOrder, y: nat, x: nat, key: Key)
    requires |bases| == 4 && IsMatrix(kel, 12, 12) && y < 4 && x <= 4
    ensures Get(ScatterTiles(k, bases, kel, o, y, x), key) == Get(k, key) + RowContribution(bases, kel, y, x, key)
  {
    if x > 0 {
      TilesAt(k, bases, kel, o, y, x - 1, key);
      TileScatterAt(ScatterTiles(k, bases, kel, o, y, x - 1), bases, kel, o, y, x - 1, key);
    }
  }

  lemma {:induction false} ScatterBlockRowsAt(k: SparseMatrix, bases: seq<int>, kel: Matrix, o: BlockOrder, y: nat, key: Key)
    requires |bases| == 4 && IsMatrix(kel, 12, 12) && y <= 4
    ensures Get(ScatterBlock(k, bases, kel, o, y), key) == Get(k, key) + BlockContribution(bases, kel, y, key)
  {
    if y > 0 {
      ScatterBlockRowsAt(k, bases, kel, o, y - 1, key);
      TilesAt(ScatterBlock(k, bases, kel, o, y - 1), bases, kel, o, y - 1, 4, key);
    }
  }

  /** Each value after a block scatter, in either loop order, is its old value plus
      every entry of the block that maps to its key. */
  lemma ScatterBlockAt(k: SparseMatrix, bases: seq<int>, kel: Matrix, o: BlockOrder, key: Key)
    requires |bases| == 4 && IsMatrix(kel, 12, 12)
    ensures Get(ScatterBlock(k, bases, kel, o, 4), key) == Get(k, key) + BlockContribution(bases, kel, 4, key)
  {
    ScatterBlockRowsAt(k, bases, kel, o, 4, key);
  }

  /** A key outside the block's 144 keys receives nothing from it. */
  lemma {:induction false} BlockContributionOutside(bases: seq<int>, kel: Matrix, y: nat, key: Key)
    requires |bases| == 4 && IsMatrix(kel, 12, 12) && y <= 4 && key !in RowsKeys(bases, y)
    ensures BlockContribution(bases, kel, y, key) == 0.0
  {
    if y > 0 {
      BlockContributionOutside(bases, kel, y - 1, key);
      RowContributionOutside(bases, kel, y - 1, 4, key);
    }
  }

  lemma {:induction false} RowContributionOutside(bases: seq<int>, kel: Matrix, y: nat, x: nat, key: Key)
    requires |bases| == 4 && IsMatrix(kel, 12, 12) && y < 4 && x <= 4 && key !in RowKeys(bases, y, x)
    ensures RowContribution(bases, kel, y, x, key) == 0.0
  {
    if x > 0 {
      RowContributionOutside(bases, kel, y, x - 1, key);
      assert key !in TileKeys(bases, y, x - 1);
    }
  }

  /** The loop orders of FillKeff and AddToKeff give the same matrix, keys and values. */
  lemma ScatterOrdersAgree(k: SparseMatrix, bases: seq<int>, kel: Matrix)
    requires |bases| == 4 && IsMatrix(kel, 12, 12)
    ensures ScatterBlock(k, bases, kel, FillOrder, 4) == ScatterBlock(k, bases, kel, PatternOrder, 4)
  {
    var kf := ScatterBlock(k, bases, kel, FillOrder, 4);
    var kp := ScatterBlock(k, bases, kel, PatternOrder, 4);
    ScatterBlockAllKeys(k, bases, kel, FillOrder);
    ScatterBlockAllKeys(k, bases, kel, PatternOrder);
    forall key | key in kf
      ensures kf[key] == kp[key]
    {
      ScatterBlockAt(k, bases, kel, FillOrder, key);
      ScatterBlockAt(k, bases, kel, PatternOrder, key);
    }
  }

  /** The union of the block keys of elements 0..n-1: the pattern StartUp creates. */
  function ElementPattern(table: seq<int>, n: nat): set<Key>
    requires 4 * n <= |table|
  {
    if n == 0 then {} else ElementPattern(table, n - 1) + BlockKeys(Bases(table, n - 1))
  }

  /** FillKeff only adds into keys of the element pattern; so a matrix that already
      stores that pattern keeps its keys. */
  lemma {:induction false} AssembleMatrixKeys(k: SparseMatrix, table: seq<int>, ks: seq<Matrix>, n: nat)
    requires 4 * n <= |table| && n <= |ks| && AllMat12(ks)
    ensures AssembleMatrix(k, table, ks, n).Keys == k.Keys + ElementPattern(table, n)
  {
    for i := 0 to n
      invariant AssembleMatrix(k, table, ks, i).Keys == k.Keys + ElementPattern(table, i)
    {
      AssembleMatrixStepKeys(k, table, ks, i);
    }
  }

  /** Element i adds its block keys to the keys of the matrix assembled before it. */
  lemma AssembleMatrixStepKeys(k: SparseMatrix, table: seq<int>, ks: seq<Matrix>, i: nat)
    requires 4 * i + 4 <= |table| && i < |ks| && AllMat12(ks)
    requires AssembleMatrix(k, table, ks, i).Keys == k.Keys + ElementPattern(table, i)
    ensures AssembleMatrix(k, table, ks, i + 1).Keys == k.Keys + ElementPattern(table, i + 1)
  {
    var prev := AssembleMatrix(k, table, ks, i);
    var bases := Bases(table, i);
    ScatterBlockAllKeys(prev, bases, ks[i], FillOrder);
    UnionStep(AssembleMatrix(k, table, ks, i + 1).Keys, prev.Keys, k.Keys,
              ElementPattern(table, i), ElementPattern(table, i + 1), BlockKeys(bases));
  }

  /** What elements 0..n-1 of FillKeff add at key. */
  function AssembledContribution(table: seq<int>, ks: seq<Matrix>, key: Key, n: nat): real
    requires 4 * n <= |table| && n <= |ks| && AllMat12(ks)
  {
    if n == 0 then 0.0
    else AssembledContribution(table, ks, key, n - 1) + BlockContribution(Bases(table, n - 1), ks[n - 1], 4, key)
  }

  /** Each value of Keff after FillKeff is its old value plus, over every element i and
      every local entry (3x + r, 3y + c) of KelArray[i] with
      (indices[x] + r, indices[y] + c) == key, that entry. */
  lemma {:induction false} AssembleMatrixAt(k: SparseMatrix, table: seq<int>, ks: seq<Matrix>, n: nat, key: Key)
    requires 4 * n <= |table| && n <= |ks| && AllMat12(ks)
    ensures Get(AssembleMatrix(k, table, ks, n), key) == Get(k, key) + AssembledContribution(table, ks, key, n)
  {
    if n > 0 {
      AssembleMatrixAt(k, table, ks, n - 1, key);
      ScatterBlockAt(AssembleMatrix(k, table, ks, n - 1), Bases(table, n - 1), ks[n - 1], FillOrder, key);
    }
  }

  /** A key outside the element pattern receives nothing from FillKeff. */
  lemma {:induction false} AssembledContributionOutside(table: seq<int>, ks: seq<Matrix>, key: Key, n: nat)
    requires 4 * n <= |table| && n <= |ks| && AllMat12(ks) && key !in ElementPattern(table, n)
    ensures AssembledContribution(table, ks, key, n) == 0.0
  {
    if n > 0 {
      AssembledContributionOutside(table, ks, key, n - 1);
      BlockContributionOutside(Bases(table, n - 1), ks[n - 1], 4, key);
    }
  }

  /** x = y + b with y = a + e gives x = a + (e + b). */
  lemma UnionStep<T>(x: set<T>, y: set<T>, a: set<T>, e: set<T>, e2: set<T>, b: set<T>)
    requires x == y + b && y == a + e && e2 == e + b
    ensures x == a + e2
  {
  }

  // ---------------------------------------------------------------------------
  // Lumped mass
  // ---------------------------------------------------------------------------

  /** M.coeffRef(index + d, index + d) += mass for the three DOFs d of one corner. */
  function AddCornerMass(m: SparseMatrix, index: nat, mass: real): SparseMatrix
  {
    AddAt(AddAt(AddAt(m, (3 * index, 3 * index), mass), (3 * index + 1, 3 * index + 1), mass),
          (3 * index + 2, 3 * index + 2), mass)
  }

  /** m after the mass of one element has been added to its first `count` corners. */
  function AddElementMass(m: SparseMatrix, e: Tet, mass: real, count: nat): SparseMatrix
    requires |e| == 4 && count <= 4
  {
    if count == 0 then m else AddCornerMass(AddElementMass(m, e, mass, count - 1), e[count - 1], mass)
  }

  /** M after elements 0..n-1: each corner of element i receives rho * vols[i]. */
  function LumpedMass(m: SparseMatrix, es: seq<Tet>, vols: seq<real>, rho: real, n: nat): SparseMatrix
    requires AllTets(es) && n <= |es| && n <= |vols|
  {
    if n == 0 then m else AddElementMass(LumpedMass(m, es, vols, rho, n - 1), es[n - 1], rho * vols[n - 1], 4)
  }

  /** One more element: its mass goes on top of the mass of the ones before it. */
  lemma LumpedMassSnoc(m: SparseMatrix, es: seq<Tet>, vols: seq<real>, rho: real, n: nat)
    requires AllTets(es) && n < |es| && n < |vols|
    ensures LumpedMass(m, es, vols, rho, n + 1) == AddElementMass(LumpedMass(m, es, vols, rho, n), es[n], rho * vols[n], 4)
  {
  }

  /** The mass vertex v receives from the first `count` corners of one element:
      the whole element mass once for every corner that is v. */
  function CornerShare(e: Tet, v: nat, mass: real, count: nat): real
    requires |e| == 4 && count <= 4
  {
    if count == 0 then 0.0 else CornerShare(e, v, mass, count - 1) + (if e[count - 1] == v then mass else 0.0)
  }

  /** Mass vertex v receives from elements 0..n-1. */
  function VertexMass(es: seq<Tet>, vols: seq<real>, rho: real, v: nat, n: nat): real
    requires AllTets(es) && n <= |es| && n <= |vols|
  {
    if n == 0 then 0.0 else VertexMass(es, vols, rho, v, n - 1) + CornerShare(es[n - 1], v, rho * vols[n - 1], 4)
  }

  /** A vertex that is a corner of no element gets no mass; one that is a corner of
      every element once gets the full mass of each. */
  lemma {:induction false} CornerShareCases(e: Tet, v: nat, mass: real, count: nat)
    requires |e| == 4 && count <= 4
    ensures (forall k :: 0 <= k < count ==> e[k] != v) ==> CornerShare(e, v, mass, count) == 0.0
    ensures (forall k :: 0 <= k < count ==> e[k] == v) ==> CornerShare(e, v, mass, count) == count as real * mass
  {
    if count > 0 {
      CornerShareCases(e, v, mass, count - 1);
    }
  }

  /** The DOF blocks of two vertices overlap only when the vertices are the same. */
  lemma DofKeysDistinct(a: nat, da: nat, b: nat, db: nat)
    requires da < 3 && db < 3
    ensures 3 * a + da == 3 * b + db <==> a == b && da == db
  {
    if 3 * a + da == 3 * b + db {
      DivMod3(a, da);
      DivMod3(b, db);
    }
  }

  /** Adding a corner's mass adds it to the three DOFs of that corner and nowhere else. */
  lemma AddCornerMassAt(m: SparseMatrix, index: nat, mass: real, v: nat, d: nat)
    requires d < 3
    ensures Get(AddCornerMass(m, index, mass), (3 * v + d, 3 * v + d))
            == Get(m, (3 * v + d, 3 * v + d)) + (if index == v then mass else 0.0)
  {
    DofKeysDistinct(index, 0, v, d);
    DofKeysDistinct(index, 1, v, d);
    DofKeysDistinct(index, 2, v, d);
  }

  lemma {:induction false} AddElementMassAt(m: SparseMatrix, e: Tet, mass: real, count: nat, v: nat, d: nat)
    requires |e| == 4 && count <= 4 && d < 3
    ensures Get(AddElementMass(m, e, mass, count), (3 * v + d, 3 * v + d))
            == Get(m, (3 * v + d, 3 * v + d)) + CornerShare(e, v, mass, count)
  {
    if count > 0 {
      AddElementMassAt(m, e, mass, count - 1, v, d);
      AddCornerMassAt(AddElementMass(m, e, mass, count - 1), e[count - 1], mass, v, d);
    }
  }

  /** Each DOF of vertex v carries the full rho * vol of every element having v as a
      corner (once per occurrence); the mass is not split between the four corners. */
  lemma {:induction false} LumpedMassAt(m: SparseMatrix, es: seq<Tet>, vols: seq<real>, rho: real, n: nat, v: nat, d: nat)
    requires AllTets(es) && n <= |es| && n <= |vols| && d < 3
    ensures Get(LumpedMass(m, es, vols, rho, n), (3 * v + d, 3 * v + d))
            == Get(m, (3 * v + d, 3 * v + d)) + VertexMass(es, vols, rho, v, n)
  {
    if n > 0 {
      LumpedMassAt(m, es, vols, rho, n - 1, v, d);
      AddElementMassAt(LumpedMass(m, es, vols, rho, n - 1), es[n - 1], rho * vols[n - 1], 4, v, d);
    }
  }

  /** The mass matrix stores diagonal entries only, one per DOF of a mesh vertex. */
  lemma {:induction false} LumpedMassDiagonal(es: seq<Tet>, vols: seq<real>, rho: real, n: nat, numVertices: nat)
    requires AllTets(es) && n <= |es| && n <= |vols|
    requires forall i :: 0 <= i < |es| ==> ValidTet(es[i], numVertices)
    ensures forall key :: key in LumpedMass(map[], es, vols, rho, n) ==>
              key.0 == key.1 && 0 <= key.0 < 3 * numVertices
  {
    if n > 0 {
      LumpedMassDiagonal(es, vols, rho, n - 1, numVertices);
      ElementMassDiagonal(LumpedMass(map[], es, vols, rho, n - 1), es[n - 1], rho * vols[n - 1], 4, numVertices);
    }
  }

  lemma {:induction false} ElementMassDiagonal(m: SparseMatrix, e: Tet, mass: real, count: nat, numVertices: nat)
    requires ValidTet(e, numVertices) && count <= 4
    requires forall key :: key in m ==> key.0 == key.1 && 0 <= key.0 < 3 * numVertices
    ensures forall key :: key in AddElementMass(m, e, mass, count) ==>
              key.0 == key.1 && 0 <= key.0 < 3 * numVertices
  {
    if count > 0 {
      ElementMassDiagonal(m, e, mass, count - 1, numVertices);
      assert e[count - 1] < numVertices;
    }
  }

  /** With a non-negative density and volumes every stored mass is non-negative. */
  lemma {:induction false} LumpedMassNonNegative(m: SparseMatrix, es: seq<Tet>, vols: seq<real>, rho: real, n: nat)
    requires AllTets(es) && n <= |es| && n <= |vols| && rho >= 0.0
    requires forall i :: 0 <= i < |vols| ==> vols[i] >= 0.0
    requires forall key :: key in m ==> m[key] >= 0.0
    ensures forall key :: key in LumpedMass(m, es, vols, rho, n) ==> LumpedMass(m, es, vols, rho, n)[key] >= 0.0
  {
    if n > 0 {
      LumpedMassNonNegative(m, es, vols, rho, n - 1);
      assert rho * vols[n - 1] >= 0.0;
      ElementMassNonNegative(LumpedMass(m, es, vols, rho, n - 1), es[n - 1], rho * vols[n - 1], 4);
    }
  }

  lemma {:induction false} ElementMassNonNegative(m: SparseMatrix, e: Tet, mass: real, count: nat)
    requires |e| == 4 && count <= 4 && mass >= 0.0
    requires forall key :: key in m ==> m[key] >= 0.0
    ensures forall key :: key in AddElementMass(m, e, mass, count) ==> AddElementMass(m, e, mass, count)[key] >= 0.0
  {
    if count > 0 {
      ElementMassNonNegative(m, e, mass, count - 1);
    }
  }

  // ---------------------------------------------------------------------------
  // Boundary conditions
  // ---------------------------------------------------------------------------

  /** DOF j belongs to one of the fixed vertices. */
  predicate IsFixedDof(bcs: seq<nat>, j: int)
  {
    exists i :: 0 <= i < |bcs| && 3 * bcs[i] <= j < 3 * bcs[i] + 3
  }

  /** Every fixed vertex has its DOF block below n. */
  predicate BcsIn(bcs: seq<nat>, n: nat)
  {
    forall i :: 0 <= i < |bcs| ==> 3 * bcs[i] + 2 < n
  }

  /** Key is a diagonal entry of a fixed DOF. */
  predicate IsPinnedKey(bcs: seq<nat>, key: Key)
  {
    key.0 == key.1 && IsFixedDof(bcs, key.0)
  }

  /** Keff after the boundary loop: the three diagonal entries of every fixed vertex
      set to 1, nothing else touched. */
  function PinBoundary(k: SparseMatrix, bcs: seq<nat>): SparseMatrix
  {
    if |bcs| == 0 then k
    else
      var i := 3 * bcs[|bcs| - 1];
      PinBoundary(k, bcs[..|bcs| - 1])[(i, i) := 1.0][(i + 1, i + 1) := 1.0][(i + 2, i + 2) := 1.0]
  }

  /** SystemVec after the boundary loop: the DOFs of every fixed vertex set to 0. */
  function ZeroBoundary(v: seq<real>, bcs: seq<nat>): (r: seq<real>)
    requires BcsIn(bcs, |v|)
    ensures |r| == |v|
  {
    if |bcs| == 0 then v
    else
      var i := 3 * bcs[|bcs| - 1];
      ZeroBoundary(v, bcs[..|bcs| - 1])[i := 0.0][i + 1 := 0.0][i + 2 := 0.0]
  }

  lemma FixedDofSnoc(bcs: seq<nat>, j: int)
    requires |bcs| > 0
    ensures IsFixedDof(bcs, j) <==>
            IsFixedDof(bcs[..|bcs| - 1], j) || 3 * bcs[|bcs| - 1] <= j < 3 * bcs[|bcs| - 1] + 3
  {
    var init := bcs[..|bcs| - 1];
    if IsFixedDof(init, j) {
      var i :| 0 <= i < |init| && 3 * init[i] <= j < 3 * init[i] + 3;
      assert init[i] == bcs[i];
    }
    if IsFixedDof(bcs, j) {
      var i :| 0 <= i < |bcs| && 3 * bcs[i] <= j < 3 * bcs[i] + 3;
      if i < |bcs| - 1 {
        assert init[i] == bcs[i];
      }
    }
  }

  /** Pinning stores the fixed diagonal keys with value 1 and keeps every other stored
      entry, including the off-diagonal couplings of the fixed DOFs, unchanged. */
  lemma {:induction false} PinBoundaryAt(k: SparseMatrix, bcs: seq<nat>)
    ensures forall key :: key in PinBoundary(k, bcs) <==> key in k || IsPinnedKey(bcs, key)
    ensures forall key :: key in PinBoundary(k, bcs) ==>
              PinBoundary(k, bcs)[key] == if IsPinnedKey(bcs, key) then 1.0 else k[key]
  {
    if |bcs| > 0 {
      PinBoundaryAt(k, bcs[..|bcs| - 1]);
      forall j: int {
        FixedDofSnoc(bcs, j);
      }
    }
  }

  /** Zeroing sets exactly the fixed DOFs of the right-hand side to 0. */
  lemma {:induction false} ZeroBoundaryAt(v: seq<real>, bcs: seq<nat>)
    requires BcsIn(bcs, |v|)
    ensures forall j :: 0 <= j < |v| ==> ZeroBoundary(v, bcs)[j] == if IsFixedDof(bcs, j) then 0.0 else v[j]
  {
    if |bcs| > 0 {
      ZeroBoundaryAt(v, bcs[..|bcs| - 1]);
      forall j: int {
        FixedDofSnoc(bcs, j);
      }
    }
  }

  /** Enforcing the boundary conditions twice gives the same matrix as once. */
  lemma PinBoundaryIdempotent(k: SparseMatrix, bcs: seq<nat>)
    ensures PinBoundary(PinBoundary(k, bcs), bcs) == PinBoundary(k, bcs)
  {
    PinBoundaryAt(k, bcs);
    PinBoundaryAt(PinBoundary(k, bcs), bcs);
  }

  /** Enforcing the boundary conditions twice gives the same right-hand side as once. */
  lemma ZeroBoundaryIdempotent(v: seq<real>, bcs: seq<nat>)
    requires BcsIn(bcs, |v|)
    ensures ZeroBoundary(ZeroBoundary(v, bcs), bcs) == ZeroBoundary(v, bcs)
  {
    ZeroBoundaryAt(v, bcs);
    ZeroBoundaryAt(ZeroBoundary(v, bcs), bcs);
  }

  // ---------------------------------------------------------------------------
  // Cyclic load
  // ---------------------------------------------------------------------------

  const LoadThreshold: real := -2000000.0
  const LoadReset: real := 1500000.0

  /** The load after one step: load + loadStep, reset to 1500000 when that falls below
      -2000000. */
  function NextLoad(load: real, loadStep: real): (r: real)
    ensures r >= LoadThreshold
    ensures load + loadStep >= LoadThreshold ==> r == load + loadStep
    ensures load + loadStep < LoadThreshold ==> r == LoadReset
  {
    var l := load + loadStep;
    if l < LoadThreshold then LoadReset else l
  }

  /** With a non-positive increment the load stays within [-2000000, 1500000]: it ramps
      down and wraps back to the reset value. */
  lemma LoadStaysInRange(load: real, loadStep: real)
    requires LoadThreshold <= load <= LoadReset && loadStep <= 0.0
    ensures LoadThreshold <= NextLoad(load, loadStep) <= LoadReset
    ensures NextLoad(load, loadStep) <= load || NextLoad(load, loadStep) == LoadReset
  {
  }

  /** The load never wraps upwards: with a positive increment it grows by exactly the
      increment every step. */
  lemma LoadNeverWrapsUp(load: real, loadStep: real)
    requires load >= LoadThreshold && loadStep >= 0.0
    ensures NextLoad(load, loadStep) == load + loadStep
  {
  }

  /** fExt of one step: zero except DOF 3*loadedVert+1, which holds the load. */
  function ExternalForce(numDofs: nat, loadedVert: nat, load: real): (f: seq<real>)
    requires 3 * loadedVert + 1 < numDofs
    ensures |f| == numDofs
    ensures f[3 * loadedVert + 1] == load
    ensures forall j :: 0 <= j < numDofs && j != 3 * loadedVert + 1 ==> f[j] == 0.0
  {
    Zeros(numDofs)[3 * loadedVert + 1 := 0.0 + load]
  }
}
