# ifem-metal core in Dafny

This project models three parts of ifem-metal and proves properties of each.

- **The quasi-static FEM solver** of `Simulator/Solver.cpp`: start-up and the per-step assembly pipeline.
  - `StartUp` reads the configuration, takes over the mesh and sizes the DOF vectors.
  - It precomputes the per-element data: DmInv, dF/dx, rest volume and the lumped mass matrix.
  - It builds the element→DOF table `indexArray` and the zero sparsity pattern of `Keff`, and copies the rest positions into `x` and `x_0`.
  - `Step` advances the clock and applies the cyclic load to `fExt`.
  - It clears `Keff` and `fInt`, stores the per-element forces and stiffness blocks, and scatters them with `FillFint` and `FillKeff`.
  - It forms `-fInt + fExt`, enforces the boundary conditions, and applies the relaxed position update.
- **The OBJ loader** of `Renderer/LoadOBJ.h`:
  - the line-classification loop over `v`, `vt`, `vn` and `f` lines;
  - the face-corner reads;
  - the output loops that emit one vertex per `v` line and three zero-based indices per face, with normals assigned last-writer-wins.
- **The collision-layer filters** of `Renderer/Physics.cpp`: `MyObjectCanCollide`, `MyBroadPhaseCanCollide` and the object-to-broad-phase mapping `BPLayerInterfaceImpl`.

Layout:

- `linalg.dfy` (`LinAlg`): dense real vectors and matrices.
- `elasticity.dfy` (`Elasticity`): the pure per-element pieces.
  - Dm and Ds, dF/dx, rest volume.
  - The eigenvalue clamp and the twist generators.
- `assembly.dfy` (`Assembly`): the specification functions of the solver's loops, and the lemmas about them.
  - The index table and the vector scatter.
  - The sparse-matrix scatter in both loop orders, and the lumped mass.
  - Boundary pinning and load stepping.
- `solver.dfy` (`SolverModel`): the loop methods, each proved equal to its specification function, and `class Solver`.
  - The class's fields are the solver's members.
  - Its methods are `StartUp`, `Step` and the blocks they are made of.
- `objloader.dfy` (`ObjLoader`): the parse loop and the output loops as methods, with their specification functions and lemmas.
- `physics.dfy` (`CollisionLayers`): the layer constants, the two filters and the mapping class over a fixed-size array.

How the model represents the source:

- Eigen vectors are `seq<real>`.
- An Eigen sparse matrix is a `map<(int, int), real>` whose keys are its stored pattern, so "the pattern is unchanged" is a statement about `Keys`.
- Doubles and floats are `real`.
- Inputs stand in for the numeric library calls:
  - the per-element force vectors and 12×12 stiffness blocks, which come from the SVD of F;
  - the CG solution `u`;
  - `Dm.inverse()`.
- An OBJ file is given as lines. Each line is split into its first word and the tokens after it.

Where the parts disagree:

- `Simulator/Solver.h:79` declares `Step(uint32_t)`, but `Simulator/Solver.cpp:156` defines `Step()` with no argument. The model follows the `.cpp`.
- `Renderer/ShaderTypes.h` declares a vertex with a position and a colour. `Renderer/LoadOBJ.h:88-98` builds a vertex with a position and a normal. The model follows `LoadOBJ.h`: `Vertex(position, normal)`.

## Model

| member | source | states |
|---|---|---|
| LinAlg.Zeros | Simulator/Solver.cpp:74-80 | `setZero(n)`: length n, every entry 0 |
| LinAlg.Fill | Simulator/Solver.cpp:137-138 | `std::vector{n, v}`: length n, every entry v |
| LinAlg.ZeroMatrix | Simulator/Solver.cpp:131-132 | `Mat12::Zero()`: an n×m matrix of zeros |
| LinAlg.MatMul3 | Simulator/Solver.cpp:238 | 3×3 product; entry (i, j) is row i of a times column j of b |
| LinAlg.Det3 | Simulator/Solver.cpp:103 | definition: the cofactor expansion of `Dm.determinant()`, characterised through Elasticity.TetVolume and TetVolumeTranslation |
| LinAlg.Abs | Simulator/Solver.cpp:103 | definition: `std::abs`, characterised through Elasticity.TetVolume |
| Elasticity.EdgeMatrixColumns | Simulator/Solver.cpp:344-353 | the columns of Dm (and Ds) are v1−v0, v2−v0, v3−v0 |
| Elasticity.EdgeMatrixTranslation | Simulator/Solver.cpp:337-356 | translating all four corners by the same offset leaves the edge matrix unchanged |
| Elasticity.EdgeMatrix | Simulator/Solver.cpp:344-353 | the 3×3 edge matrix with columns v1−v0, v2−v0, v3−v0; characterised by EdgeMatrixColumns and EdgeMatrixTranslation |
| Elasticity.CurrentEdgeMatrix | Simulator/Solver.cpp:221-236 | Ds: the edge matrix of the four corners read from x at the element's DOF bases; a 3×3 matrix |
| Elasticity.DeformationGradient | Simulator/Solver.cpp:237-238 | F = Ds·DmInv, a 3×3 matrix; characterised by DFdxGivesDeformationGradient and SolverModel.RestDeformationGradient |
| Elasticity.ComputedFdx | Simulator/Solver.cpp:358-415 | dF/dx, a 9×12 matrix; its entries are characterised by DFdxRow, DFdxStructure and DFdxGivesDeformationGradient |
| Elasticity.DFdxRow | Simulator/Solver.cpp:360-412 | row 3a+b of dF/dx: t_a = minus the sum of column a of DmInv at column b, and the three entries of that column at 3+b, 6+b, 9+b, zero elsewhere |
| Elasticity.DFdxStructure | Simulator/Solver.cpp:370-412 | row 3a+b of dF/dx is non-zero only in columns with the same remainder mod 3 (b, 3+b, 6+b, 9+b), and every row sums to 0 |
| Elasticity.DotSpread | Simulator/Solver.cpp:377-412 | a spread row against the local positions picks coordinate b of each corner, weighted by that row's four entries |
| Elasticity.DeformationEntry | Simulator/Solver.cpp:228-238 | row 3a+b of dF/dx applied to the local positions is F(b, a) of F = Ds·DmInv |
| Elasticity.DFdxGivesDeformationGradient | Simulator/Solver.cpp:358-415 | dF/dx times the 12 local positions is F = Ds·DmInv flattened column-major |
| Elasticity.DFdxRigidTranslation | Simulator/Solver.cpp:370-372 | a uniform translation of all four corners gives zero: dF/dx annihilates rigid translations |
| Elasticity.TetVolume | Simulator/Solver.cpp:103 | \|det Dm\|/6 is non-negative, and 0 exactly when det Dm is 0 |
| Elasticity.TetVolumeTranslation | Simulator/Solver.cpp:103 | the rest volume is unchanged by translating the element |
| Elasticity.ClampedLambda | Simulator/Solver.cpp:276-278 | 0 < λ ≤ 1; λ·I = 2 when I ≥ 2; λ = 1 when I < 2 |
| Elasticity.ClampedLambdaIsMin | Simulator/Solver.cpp:276-278 | for I > 0 the clamp is min(1, 2/I), and both branches give 1 at I = 2 |
| Elasticity.Twist | Simulator/Solver.cpp:50-60 | each generator is skew-symmetric with entries in {−1, 0, 1}, zero on the row and column of its rotation axis (z, x, y), and couples the other two coordinates by −1, +1 and −1 for Twist[0], Twist[1] and Twist[2] |
| Elasticity.TwistIsCrossMatrix | Simulator/Solver.cpp:50-60 | Twist[k]·v is ω × v for the signed axis ω = +z, −x, +y: each generator is the infinitesimal rotation about its axis |
| Assembly.TetDofs | Simulator/Solver.cpp:125-128 | the four DOF bases of one element |
| Assembly.IndexTable | Simulator/Solver.cpp:122-129 | the table has 4 entries per element |
| Assembly.IndexTableEntry | Simulator/Solver.cpp:125-128 | entry 4i+k is 3·getVertexIndex(i, k) |
| Assembly.IndexTableSnoc | Simulator/Solver.cpp:122-129 | one more element appends exactly its four DOF bases |
| Assembly.IndexTableBounds | Simulator/Solver.cpp:68-69 | every entry is a multiple of 3 whose block of 3 DOFs lies below numDOFs = 3·numVertices |
| Assembly.Bases | Simulator/Solver.cpp:217 | `&indexArray[4*i]`: the four entries 4i..4i+3 |
| Assembly.BasesOfIndexTable | Simulator/Solver.cpp:304 | the slice of element i is that element's DOF bases |
| Assembly.BasesOfTableIn | Simulator/Solver.cpp:304-308 | a table below n gives every element four DOF blocks below n |
| Assembly.LocalTargetAt | Simulator/Solver.cpp:308 | local entry 3·el + incr maps to global DOF indices[el] + incr |
| Assembly.ScatterVector | Simulator/Solver.cpp:306-308 | scattering keeps the vector's length |
| Assembly.ScatterVectorStep | Simulator/Solver.cpp:308 | step 3·el + incr of FillFint adds fEl(3·el + incr) at indices[el] + incr and nowhere else |
| Assembly.ScatterVectorAt | Simulator/Solver.cpp:306-308 | each global entry gains exactly the local entries mapped to it |
| Assembly.GatherOutside | Simulator/Solver.cpp:306-308 | a DOF outside the element's four blocks gets nothing from it |
| Assembly.ScatterVectorSum | Simulator/Solver.cpp:306-308 | the global sum grows by the sum of the local entries |
| Assembly.AssembleVector | Simulator/Solver.cpp:300-310 | FillFint keeps fInt's length |
| Assembly.AssembleVectorAt | Simulator/Solver.cpp:300-310 | after FillFint, entry g is its old value plus every local entry of every element that maps to g |
| Assembly.AssembleVectorSum | Simulator/Solver.cpp:300-310 | after FillFint, the sum of fInt is the old sum plus the sum of all element force entries |
| Assembly.ZeroValues | Simulator/Solver.cpp:169-172 | the cleared matrix has the same pattern and 0 everywhere |
| Assembly.AddAtKeys | Simulator/Solver.cpp:322 | `coeffRef(key) +=` stores the key and keeps all others |
| Assembly.GetAddAt | Simulator/Solver.cpp:322 | `coeffRef(key) += a` adds a at key and changes no other value |
| Assembly.TileOffset | Simulator/Solver.cpp:320-334 | FillKeff runs innerY outside innerX, AddToKeff innerX outside innerY |
| Assembly.TileKeyInTile | Simulator/Solver.cpp:322 | each write of a tile lands on one of the tile's nine keys |
| Assembly.CellsKeys | Simulator/Solver.cpp:321-322 | one run of the innermost loop adds exactly its three keys |
| Assembly.LinesCoverTile | Simulator/Solver.cpp:320-334 | in either loop order the three inner runs cover the tile's nine keys |
| Assembly.TileScatterKeys | Simulator/Solver.cpp:320-322 | one tile, in either order, adds exactly its nine keys |
| Assembly.TilesKeys | Simulator/Solver.cpp:319-322 | the x loop adds exactly the keys of the tiles it visited |
| Assembly.ScatterBlockKeys | Simulator/Solver.cpp:318-322 | the y loop adds exactly the keys of the tile rows it visited |
| Assembly.ScatterBlockAllKeys | Simulator/Solver.cpp:327-335 | a whole 12×12 block scatter adds exactly the 144 keys (indices[x] + r, indices[y] + c) |
| Assembly.ScatterBlock | Simulator/Solver.cpp:318-334 | definition: the y, x and two inner loops of one 12×12 block in either loop order; characterised by ScatterBlockAllKeys and ScatterBlockAt |
| Assembly.AssembleMatrix | Simulator/Solver.cpp:312-325 | definition: FillKeff's element loop; characterised by AssembleMatrixKeys and AssembleMatrixAt |
| Assembly.ZeroCells | Simulator/Solver.cpp:332-334 | scattering zeros along one inner line leaves every value unchanged |
| Assembly.ZeroLines | Simulator/Solver.cpp:332-334 | scattering zeros over one tile leaves every value unchanged |
| Assembly.ZeroTiles | Simulator/Solver.cpp:331-334 | scattering zeros over one tile row leaves every value unchanged |
| Assembly.ZeroRows | Simulator/Solver.cpp:330-334 | scattering zeros over the tile rows visited so far leaves every value unchanged |
| Assembly.ScatterZeroBlock | Simulator/Solver.cpp:131-134 | `AddToKeff(Mat12::Zero())` stores the block's keys and changes no value |
| Assembly.AssembleMatrixKeys | Simulator/Solver.cpp:312-325 | FillKeff's pattern is the old pattern plus the union of the element blocks |
| Assembly.AssembleMatrixStepKeys | Simulator/Solver.cpp:314-324 | one more element adds its block keys to the assembled pattern |
| Assembly.CellsAt | Simulator/Solver.cpp:321-322 | one innermost run adds at a key what each of its three steps writes there |
| Assembly.CellsCoverTile | Simulator/Solver.cpp:320-322 | the nine steps of a tile, in either order, add at a key exactly Kel(3x + r, 3y + c) when the key is (indices[x] + r, indices[y] + c), and nothing otherwise |
| Assembly.TileScatterAt | Simulator/Solver.cpp:320-322 | one tile, in either order, adds at every key the tile's entry for that key |
| Assembly.TilesAt | Simulator/Solver.cpp:319-322 | the x loop adds at every key the entries of the tiles it visited |
| Assembly.ScatterBlockRowsAt | Simulator/Solver.cpp:318-322 | the y loop adds at every key the entries of the tile rows it visited |
| Assembly.ScatterBlockAt | Simulator/Solver.cpp:318-322 | after a block scatter, in either loop order, each value is its old value plus every block entry Kel(3x + r, 3y + c) whose target (indices[x] + r, indices[y] + c) is that key |
| Assembly.RowContributionOutside | Simulator/Solver.cpp:319-322 | a key outside the visited tiles of a row receives nothing |
| Assembly.BlockContributionOutside | Simulator/Solver.cpp:318-322 | a key outside the block's keys receives nothing from it |
| Assembly.ScatterOrdersAgree | Simulator/Solver.cpp:318-334 | FillKeff's loop order and AddToKeff's give the same matrix, keys and values |
| Assembly.AssembleMatrixAt | Simulator/Solver.cpp:312-325 | every value of Keff after FillKeff is its old value plus, over all elements i, every KelArray[i] entry whose target key it is |
| Assembly.AssembledContributionOutside | Simulator/Solver.cpp:312-325 | a key outside the element pattern receives nothing from FillKeff |
| Assembly.LumpedMassSnoc | Simulator/Solver.cpp:105-112 | element n's mass goes on top of the mass of elements 0..n−1 |
| Assembly.AddCornerMass | Simulator/Solver.cpp:109-111 | definition: the three `M.coeffRef(3·index + d, 3·index + d) += mass`; characterised by AddCornerMassAt |
| Assembly.AddElementMass | Simulator/Solver.cpp:106-112 | definition: the v loop over the element's corners; characterised by AddElementMassAt and ElementMassDiagonal |
| Assembly.LumpedMass | Simulator/Solver.cpp:93-113 | definition: M after the element loop; characterised by LumpedMassAt, LumpedMassDiagonal and LumpedMassNonNegative |
| Assembly.CornerShareCases | Simulator/Solver.cpp:106-112 | an element none of whose corners is v gives v nothing; one whose counted corners are all v gives count·mass |
| Assembly.DofKeysDistinct | Simulator/Solver.cpp:109-111 | the DOFs 3a + da and 3b + db coincide exactly when the vertices and offsets do |
| Assembly.AddCornerMassAt | Simulator/Solver.cpp:109-111 | a corner's mass is added to the three diagonal DOFs of that vertex and nowhere else |
| Assembly.AddElementMassAt | Simulator/Solver.cpp:106-112 | a vertex's diagonal gains the element's mass once per corner it occupies |
| Assembly.LumpedMassAt | Simulator/Solver.cpp:91-115 | each diagonal DOF of vertex v holds the full rho·vol of every element corner at v, not a quarter of it |
| Assembly.ElementMassDiagonal | Simulator/Solver.cpp:106-112 | the mass of one element is stored on diagonal keys of mesh DOFs only |
| Assembly.LumpedMassDiagonal | Simulator/Solver.cpp:88-115 | M stores diagonal entries only, each a DOF below numDOFs |
| Assembly.ElementMassNonNegative | Simulator/Solver.cpp:105-112 | adding a non-negative mass keeps every stored value non-negative |
| Assembly.LumpedMassNonNegative | Simulator/Solver.cpp:90-113 | with rho ≥ 0 every stored mass is non-negative |
| Assembly.ZeroBoundary | Simulator/Solver.cpp:201-203 | the boundary loop keeps the right-hand side's length |
| Assembly.FixedDofSnoc | Simulator/Solver.cpp:194-196 | a DOF is fixed by bcs + [b] exactly when it is fixed by bcs or lies in b's block |
| Assembly.PinBoundary | Simulator/Solver.cpp:194-199 | definition: the diagonals of every fixed vertex set to 1; characterised by PinBoundaryAt and PinBoundaryIdempotent |
| Assembly.PinBoundaryAt | Simulator/Solver.cpp:194-199 | the stored keys are the old keys plus the fixed diagonals; fixed diagonals read 1, every other entry, off-diagonal couplings included, keeps its value |
| Assembly.ZeroBoundaryAt | Simulator/Solver.cpp:194-203 | the right-hand side is 0 at exactly the fixed DOFs and unchanged elsewhere |
| Assembly.PinBoundaryIdempotent | Simulator/Solver.cpp:194-199 | enforcing the matrix boundary conditions twice equals once |
| Assembly.ZeroBoundaryIdempotent | Simulator/Solver.cpp:201-203 | zeroing the fixed right-hand-side entries twice equals once |
| Assembly.NextLoad | Simulator/Solver.cpp:162-165 | the new load is load + loadStep, reset to 1500000 when that is below −2000000; so it is never below −2000000 |
| Assembly.LoadStaysInRange | Simulator/Solver.cpp:162-165 | from a load in [−2000000, 1500000] with loadStep ≤ 0 the load stays in that range, and it only decreases or resets |
| Assembly.LoadNeverWrapsUp | Simulator/Solver.cpp:162-165 | with loadStep ≥ 0 from a load at or above −2000000 there is no reset: the load grows by loadStep |
| Assembly.ExternalForce | Simulator/Solver.cpp:160-167 | fExt has numDOFs entries, the load at DOF 3·loadedVert + 1 and 0 everywhere else |
| SolverModel.ComputeDm | Simulator/Solver.cpp:337-356 | Dm is 3×3 and column c is rest vertex c+1 minus rest vertex 0 of element i |
| SolverModel.RestVolumes | Simulator/Solver.cpp:101-104 | one non-negative rest volume per element |
| SolverModel.RestPositions | Simulator/Solver.cpp:141-147 | 3·numVertices entries; DOFs 3v..3v+2 hold rest vertex v |
| SolverModel.NetForce | Simulator/Solver.cpp:192 | SystemVec + fInt = fExt entry by entry |
| SolverModel.Advance | Simulator/Solver.cpp:209-210 | each entry moves by magicConstant·h·u |
| SolverModel.RestEdgeMatrix | Simulator/Solver.cpp:221-236 | at the rest positions, Ds read through the element's DOF bases equals Dm |
| SolverModel.RestDeformationGradient | Simulator/Solver.cpp:237-238 | at the rest positions F = Dm·DmInv, the identity when DmInv inverts Dm |
| SolverModel.AddBlock | Simulator/Solver.cpp:318-322 | the y loop of a block scatter in either loop order equals ScatterBlock |
| SolverModel.AddTileRow | Simulator/Solver.cpp:319-322 | the x loop equals ScatterTiles |
| SolverModel.AddTile | Simulator/Solver.cpp:320-334 | the third loop, innerY for FillKeff and innerX for AddToKeff, equals ScatterLines |
| SolverModel.AddFillLine | Simulator/Solver.cpp:321-322 | FillKeff's innerX loop equals ScatterCells in fill order |
| SolverModel.AddPatternLine | Simulator/Solver.cpp:333-334 | AddToKeff's innerY loop equals ScatterCells in pattern order |
| SolverModel.AddToKeff | Simulator/Solver.cpp:327-335 | the block scatter of element elem in AddToKeff's order; the pattern gains exactly the block's keys, and each value grows by the block entries that target its key |
| SolverModel.FillKeff | Simulator/Solver.cpp:312-325 | Keff after the element loop equals AssembleMatrix: its pattern is the old pattern plus the element pattern, and each value is the old value plus every KelArray[i](3x + innerX, 3y + innerY) with (indices[x] + innerX, indices[y] + innerY) equal to its key |
| SolverModel.AddElementForce | Simulator/Solver.cpp:306-308 | the el/incr loops of one element equal ScatterVector |
| SolverModel.FillFint | Simulator/Solver.cpp:300-310 | fInt after the element loop equals AssembleVector |
| SolverModel.ClearKeff | Simulator/Solver.cpp:169-172 | walking the stored entries and writing 0 gives ZeroValues: same pattern, all zero |
| SolverModel.ApplyBoundaryConditions | Simulator/Solver.cpp:194-204 | the bc loop gives PinBoundary on Keff and ZeroBoundary on SystemVec |
| SolverModel.AssembleSystem | Simulator/Solver.cpp:183-204 | FillKeff, FillFint, −fInt + fExt and the boundary loop, composed |
| SolverModel.StepKeepsPattern | Simulator/Solver.cpp:169-199 | clearing, assembling and pinning never drop a stored key, and the element pattern is among the keys |
| SolverModel.CreateKeffPattern | Simulator/Solver.cpp:119-135 | indexArray is the index table, Keff's pattern is exactly the union of the element blocks, and every stored value is 0 |
| SolverModel.AddElementMassLoop | Simulator/Solver.cpp:106-112 | the v loop adds the element's mass to the diagonal of its four corners |
| SolverModel.AddLumpedMass | Simulator/Solver.cpp:105-112 | one element's mass step extends LumpedMass from i to i+1 elements |
| SolverModel.ComputeElementData | Simulator/Solver.cpp:84-116 | DmInvs is the input inverses; dF/dx of each element is ComputedFdx of its DmInv; rest volumes; M is the lumped mass |
| SolverModel.ElementDataStep | Simulator/Solver.cpp:93-113 | iteration i of the element loop extends all four results by element i |
| SolverModel.Square | Simulator/Solver.cpp:16 | definition: h2 = h·h, stored by the configuration block |
| SolverModel.PushPrefix | Simulator/Solver.cpp:96-104 | an `emplace_back` of entry i extends the copied prefix by one |
| SolverModel.PushDFdx | Simulator/Solver.cpp:98-99 | pushing dF/dx of element i keeps dFdxs[j] = ComputedFdx(DmInv[j]) for j ≤ i |
| SolverModel.LoadRestPositions | Simulator/Solver.cpp:141-147 | the vertex loop writes RestPositions into x |
| SolverModel.Solver.constructor | Simulator/Solver.h:53-64 | a default-constructed solver has an empty fInt and empty DmInvs, dFdxs, tetVols and indexArray (Fresh), and the static load of `Simulator/Solver.cpp:162` at 0 |
| SolverModel.Solver.Configure | Simulator/Solver.cpp:14-80 | the configuration values and the mesh taken over, h2 = h·h, sizes from the mesh, T = 0, x, x_0 and fExt zero |
| SolverModel.Solver.PrecomputeElements | Simulator/Solver.cpp:82-116 | on empty vectors, appending ComputeElementData's results leaves DmInvs, dFdxs, tetVols and M as it gives them |
| SolverModel.Solver.CreateKeff | Simulator/Solver.cpp:118-139 | on an empty indexArray, appending the index table; the zero Keff pattern; zeroed fIntArray and KelArray with one entry per element |
| SolverModel.Solver.LoadPositions | Simulator/Solver.cpp:141-148 | x holds the rest positions and x_0 = x |
| SolverModel.Solver.BuildSystem | Simulator/Solver.cpp:118-148 | CreateKeff, then LoadPositions |
| SolverModel.Solver.Initialize | Simulator/Solver.cpp:82-148 | PrecomputeElements, then BuildSystem |
| SolverModel.Solver.StartUp | Simulator/Solver.cpp:10-149 | on a fresh solver, everything above holds at once: configured, precomputed, Keff pattern created, x = x_0 = rest positions, and Valid |
| SolverModel.Solver.ComputeElementJacobianAndHessian | Simulator/Solver.cpp:215-239 | F = Ds·DmInv[i] from the current x through element i's DOF bases; fIntArray[i] and KelArray[i] replaced and nothing else |
| SolverModel.Solver.ComputeElements | Simulator/Solver.cpp:179-180 | after the element loop fIntArray and KelArray hold the given element forces and blocks |
| SolverModel.Solver.BeginStep | Simulator/Solver.cpp:158-174 | T += h; the static load advances by NextLoad; fExt = ExternalForce; Keff cleared with its pattern kept; fInt zero |
| SolverModel.Solver.Accumulate | Simulator/Solver.cpp:183-204 | fInt and Keff assembled from the element arrays, the fixed DOFs pinned, SystemVec = −fInt + fExt with the fixed DOFs zeroed |
| SolverModel.Solver.FinishStep | Simulator/Solver.cpp:179-210 | the element loop, the accumulation and boundary block, then x += magicConstant·h·u |
| SolverModel.Solver.Step | Simulator/Solver.cpp:156-213 | one whole step, stated in terms of the state before it; returns the new x and the right-hand side of the solve |
| ObjLoader.ReadCorners | Renderer/LoadOBJ.h:74-76 | k corner reads give k vertex, uv and normal indices |
| ObjLoader.FaceOf | Renderer/LoadOBJ.h:72-77 | every face line yields an Index of exactly three corners |
| ObjLoader.ReadReal | Renderer/LoadOBJ.h:54 | definition: `line >> f` for a float: the next number, or 0 with the fail bit set |
| ObjLoader.ReadIndex | Renderer/LoadOBJ.h:75 | definition: `line >> i.v[j]` for a uint32_t, reading the next whole number in range or 0 with the fail bit set; characterised by ReadCornerExact |
| ObjLoader.SkipChar | Renderer/LoadOBJ.h:73-75 | definition: `line >> c`, skipping one separator token or setting the fail bit; characterised by ReadCornerExact |
| ObjLoader.ReadVec3 | Renderer/LoadOBJ.h:53-55 | definition: `line >> x >> y >> z`; characterised by VerticesInFileOrder and NormalsInFileOrder |
| ObjLoader.ReadVec2 | Renderer/LoadOBJ.h:59-61 | definition: `line >> u >> v`; characterised by UvsInFileOrder |
| ObjLoader.ReadCorner | Renderer/LoadOBJ.h:75 | definition: `line >> v >> c >> uv >> c >> n`, one face corner; characterised by ReadCornerExact |
| ObjLoader.ParseLine | Renderer/LoadOBJ.h:48-78 | definition: one iteration of the parse loop, classified by the first word; characterised by IgnoredLine and the *InFileOrder lemmas |
| ObjLoader.ParseAll | Renderer/LoadOBJ.h:46-79 | definition: the four lists after the parse loop; characterised by VerticesInFileOrder, UvsInFileOrder, NormalsInFileOrder and FacesInFileOrder |
| ObjLoader.Tagged | Renderer/LoadOBJ.h:46-51 | definition: the file-order filter by first word; its ensures give only that it is no longer than the file and every kept line has the tag |
| ObjLoader.ParseFace | Renderer/LoadOBJ.h:72-77 | the j loop over three corners reads FaceOf of the line |
| ObjLoader.ParseLines | Renderer/LoadOBJ.h:46-79 | the parse loop equals ParseAll |
| ObjLoader.VerticesInFileOrder | Renderer/LoadOBJ.h:51-56 | one vertex per `v` line, read from that line, in file order |
| ObjLoader.UvsInFileOrder | Renderer/LoadOBJ.h:57-62 | one uv per `vt` line, read from that line, in file order |
| ObjLoader.NormalsInFileOrder | Renderer/LoadOBJ.h:64-69 | one normal per `vn` line, read from that line, in file order |
| ObjLoader.FacesInFileOrder | Renderer/LoadOBJ.h:70-78 | one Index per `f` line, read from that line, in file order |
| ObjLoader.IgnoredLine | Renderer/LoadOBJ.h:46-79 | a line whose first word is not v, vt, vn or f changes none of the four lists |
| ObjLoader.ReadCornerExact | Renderer/LoadOBJ.h:75 | a corner written as number, separator, number, separator, number reads those three numbers and moves past five tokens |
| ObjLoader.ReadCornersExact | Renderer/LoadOBJ.h:74-76 | the first k corners of a well-laid-out face read exactly the numbers written |
| ObjLoader.FaceOfExact | Renderer/LoadOBJ.h:70-78 | a face line of three v/uv/n corners yields exactly its vertex, normal and uv indices |
| ObjLoader.LastWriterWins | Renderer/LoadOBJ.h:90-98 | an output vertex gets the normal of the last corner that references it |
| ObjLoader.NormalAfter | Renderer/LoadOBJ.h:90-98 | definition: vertex k's normal after the first q corners; characterised by LastWriterWins and UnreferencedDefault |
| ObjLoader.UnreferencedDefault | Renderer/LoadOBJ.h:87-88 | a vertex that no corner references keeps the zero normal |
| ObjLoader.BuildGeometry | Renderer/LoadOBJ.h:82-101 | one output vertex per parsed vertex at its position with the last-writer normal; index 3f+j is face f's corner j vertex index minus 1 |
| ObjLoader.EmitFace | Renderer/LoadOBJ.h:90-101 | the corner loop of face f extends the output state from 3f to 3f+3 corners |
| ObjLoader.EmitCorner | Renderer/LoadOBJ.h:92-99 | one corner: the vertex's normal is overwritten and its zero-based index emitted |
| ObjLoader.LoadOBJ | Renderer/LoadOBJ.h:21-103 | as many output vertices as `v` lines, at their positions in file order; 3 indices per `f` line, entry q being corner q mod 3 of face q/3 minus 1; normals last-writer-wins |
| CollisionLayers.MyObjectCanCollide | Renderer/Physics.cpp:75-87 | NON_MOVING collides exactly with MOVING; MOVING with everything; any other first layer with nothing |
| CollisionLayers.MyBroadPhaseCanCollide | Renderer/Physics.cpp:141-153 | NON_MOVING collides exactly with the MOVING broad-phase layer; MOVING with every one; any other with none |
| CollisionLayers.BPLayerInterfaceImpl.constructor | Renderer/Physics.cpp:106-111 | the table maps NON_MOVING and MOVING to the broad-phase layers of the same name |
| CollisionLayers.BPLayerInterfaceImpl.GetNumBroadPhaseLayers | Renderer/Physics.cpp:113-116 | two broad-phase layers, one per object layer |
| CollisionLayers.BPLayerInterfaceImpl.GetBroadPhaseLayer | Renderer/Physics.cpp:118-122 | for inLayer < 2 the broad-phase layer has the same value as the object layer |
| CollisionLayers.FiltersAgree | Renderer/Physics.cpp:141-153 | for valid layers the broad-phase filter on GetBroadPhaseLayer(b) agrees with the object filter on b |
| CollisionLayers.ObjectFilterSymmetric | Renderer/Physics.cpp:75-87 | over the valid layers the object filter is symmetric |
| CollisionLayers.ObjectFilterAsymmetricOutsideLayers | Renderer/Physics.cpp:81-86 | outside the valid layers symmetry fails: MOVING accepts layer 2, but layer 2 refuses MOVING |

## Left out

- The SVD and the ARAP stress: `JacobiSVD`, R = U·Vᵀ and P = mu·(F − R), at `Simulator/Solver.cpp:241-255`. It is an iterative floating-point library call. The element's force vector is an input of Step.
- The projected Hessian: the dPdF build with the twist modes and sq2inv, and the products with dF/dx that use `Flatten`, at `Simulator/Solver.cpp:257-296`. The element's 12×12 stiffness block is an input of Step. Only the eigenvalue clamp and the twist generators are modelled.
- The conjugate-gradient solve at `Simulator/Solver.cpp:206-207`. Its result u is an input of Step.
- `Dm.inverse()` at `Simulator/Solver.cpp:95`. DmInv of each element is an input of StartUp.
- Floating-point rounding. The model uses `real` for the double fields and for the `static float load`, so the cast to float is not modelled.
- The material constants E, nu, lambda and mu, `sq2inv`, and the CG iteration limit (`Simulator/Solver.cpp:21, 43-48, 62`). Nothing in the model reads them.
- The vectors u, v, a and z zeroed at `Simulator/Solver.cpp:76-79`. Nothing in the modelled code reads them.
- The timing counters FTime, PTime and dPdxTime.
- The two `std::thread`s of the accumulation block. They write disjoint destinations, so FillKeff and FillFint run one after the other.
- `VolumetricMeshLoader::load`, the `std::exit(420)` path and the console output: mesh I/O. The mesh and rho are inputs of StartUp.
- `ShutDown` and the mesh's deletion: memory management.
- `SolverModel.Solver.StartUp` and `Step` are split into blocks that are class methods: Configure, Initialize, PrecomputeElements, CreateKeff, LoadPositions, BeginStep, ComputeElements, Accumulate and FinishStep. Inside some blocks, assignments the source makes one after another are made together. The order in which fields are written there is not modelled.
- SolverModel.Solver.StartUp: requires a fresh solver (Fresh: DmInvs, dFdxs, tetVols and indexArray empty, as the constructor leaves them). Only the first call is modelled. A second call in the source would append after the stale entries of the first.
- SolverModel.Solver.StartUp: requires that loadedVert and every boundary vertex are vertices of the mesh, and that every element has four valid corners. The source does not check this and would write outside its vectors.
- SolverModel.Solver.Step: the boundary loop leaves the off-diagonal couplings of a fixed DOF in Keff. So u = 0 at a fixed DOF is not a consequence of the model, and the model claims nothing about the solve.
- Step's `fExt(3*loadedVert+1) += load` on a freshly zeroed vector is modelled as writing the load there.
- The loop methods over values are separate from the class. FillKeff, FillFint, AddToKeff, ClearKeff and ApplyBoundaryConditions take the matrices and vectors they update as arguments, and return the new ones.
- Assembly.AssembleMatrix: no total over all stored values, the analogue of AssembleVectorSum, is stated. Summing a map's values needs a fold over its key set; the per-key sums of AssembleMatrixAt are stated instead.
- The file open, the `getline` loop and the `stringstream` number parsing of `Renderer/LoadOBJ.h:27-39, 48-75`: file I/O and lexing. A file is modelled as lines that are already split into their first word and tokens.
- ObjLoader.SkipChar: `>> c` in the source reads any non-blank character, including a digit. The model accepts only a separator token.
- ObjLoader.ReadReal and ObjLoader.ReadIndex: when the line has nothing left or an earlier read has already failed, the stream's sentry fails and the source leaves its uninitialised variable untouched. The model uses 0 there. When the next token is not a number, the source stores 0 and sets the fail bit, as the model does. ReadIndex treats a negative number as a failure, where the source wraps it to an unsigned value. It treats an out-of-range number as a failure with 0, where the source stores 0xFFFFFFFF and sets the fail bit.
- ObjLoader.LoadOBJ: requires every face corner's vertex index to be in 1..|vertices| and normal index in 1..|normals|. The source indexes without checking, and an index of 0 wraps to 0xFFFFFFFF.
- The uv of each corner is read but never reaches the output, as in the source. `uvIndex` is computed and unused there.
- CollisionLayers.MyObjectCanCollide and MyBroadPhaseCanCollide: the default branch's `JPH_ASSERT(false)` is taken to be compiled out, so they return false.
- CollisionLayers.BPLayerInterfaceImpl.GetBroadPhaseLayer: requires inLayer < NUM_LAYERS, which the source only asserts.
- `GetBroadPhaseLayerName`, compiled only with profiling enabled.
- The Jolt wrappers in `Renderer/Physics.cpp` (Startup, Shutdown, Update, StepAndPackage, the listeners and the trace and assert callbacks) and `Renderer/Physics.h`: foreign library setup.
- The renderer, Metal, editor and math files, and `Simulator/Simulator.cpp`.
