# WanPy mesh, boundary-phase and trial-function core in Dafny

This project models the index bookkeeping of WanPy. WanPy builds Wannier
functions on top of PythTB tight-binding models. The model covers the
following parts of `WanPy/pythTB_wan.py`:

- **`K_mesh`**:
  - the list of integer mesh indices `_idx_arr`;
  - the reduced-coordinate mesh `gen_k_mesh`, flat or reshaped;
  - the constructor that stores both meshes;
  - `get_k_shell`, the lattice offsets of the `N_sh` nearest shells, grouped by
    rounded squared distance;
  - the part of `get_weights` that builds the least-squares system `A w = q`.
- **`Bloch`**:
  - `get_boundary_phase`, the table of per-orbital phases for steps that wrap
    across the edge of the Brillouin zone;
  - `k_overlap_mat`, which rolls the states by `-b` for every nearest-neighbour
    offset `b` and pairs each mesh point with its neighbour.
- **`Wannier`**:
  - `get_trial_wfs`, the array of trial functions built from site indices or
    `(site, amplitude)` lists;
  - the update `M = U^H M0 roll(U, -b)` inside the iteration of `find_min_unitary`.

The modules are:

- `Errors`: Python exceptions as a `Result`.
- `Grid`: `range`, `itertools.product`, row-major order and lexicographic order.
- `KMesh`, `KShell` and `KWeights`: the `K_mesh` class.
- `Bloch`: `np.roll`, the boundary phases and the overlap assembly.
- `Wannier`: the trial functions and the rotation of the overlap matrix.

**Pure and imperative parts.** The pure parts are functions with lemmas. The
parts that fill NumPy arrays in loops are methods over Dafny arrays, proved
against those functions:

- `Bloch.BoundaryPhase` fills the four-dimensional `bc_phase`.
- `Bloch.KOverlapMat` fills `M[k0, k1, idx]`.
- `Wannier.GetTrialWfs` fills `tfs[j, o]`.
- `Wannier.UpdateOverlap` updates `M` from `M0`.

**Abstract linear algebra.** States, band blocks and unitaries appear as
abstract type parameters. The operations on them are function parameters:

- `scale`: multiplying the orbital components by a row of phases;
- `braket`: the `einsum` over orbitals;
- `sandwich`: `X^H A Y`;
- `rot`: the change of gauge.

**Corrected behaviour in the filled tables.** `Bloch.BoundaryPhase` and
`Wannier.GetTrialWfs` fill their arrays with the corrected rows of Findings
rows 2 and 3, namely `Bloch.BoundaryRow` and `Wannier.TrialRow`. The code as
written is modelled row by row beside them:

- Crossing the zone boundary. Lines 240-241 compute `G = (k + b - mod_idx) / nks`,
  which is nonzero exactly when the neighbour index leaves the mesh, and the
  comment at line 242 names that as crossing the boundary. The test at line
  243 instead compares each component of `k + b` with `-1` and with every axis
  count. `Bloch.BoundaryRowAsWritten` and `Bloch.BoundaryRowAsWrittenSpec` model
  that test; `Bloch.AsWrittenAgreesOnUnitOffsets` shows that the two agree on
  the shells the callers pass.
- Normalising a trial function. Line 354 divides by `sqrt(sum(abs(row)))`.
  `Wannier.TrialRowAsWritten`, `Wannier.TrialRowAsWrittenPairs` and
  `Wannier.AsWrittenSameOutcome` model that division, and show that it fails
  on the same entries and keeps the same amplitudes as the corrected row.

## Model

| member | source | states |
|---|---|---|
| Grid.Range | WanPy/pythTB_wan.py:51 | `range(lo, hi)` has `hi - lo` elements, exactly the integers in `[lo, hi)`, strictly increasing |
| Grid.ProductLength | WanPy/pythTB_wan.py:51 | `itertools.product` of the axes has `prod` of the axis lengths tuples |
| Grid.ProductMember | WanPy/pythTB_wan.py:51 | a tuple is in the product iff it has one component per axis and each component is on its axis |
| Grid.ProductAt | WanPy/pythTB_wan.py:72 | the tuple at the row-major position of `k` takes component `i` from position `k[i]` of axis `i` |
| Grid.ConsAt | WanPy/pythTB_wan.py:51 | prepending the pick `k[0]` of the first axis to the picks from the other axes gives the pick `k[i]` from every axis |
| Grid.ProductSorted | WanPy/pythTB_wan.py:51 | the product of increasing axes is lexicographically increasing |
| Grid.RowMajorBounds | WanPy/pythTB_wan.py:74 | the C-order position of an in-bounds index lies in `[0, prod(nks))` |
| KMesh.IdxArrMember | WanPy/pythTB_wan.py:51 | `k` is in `_idx_arr` iff every component lies in `[0, nk)` on its axis |
| KMesh.IdxArrLength | WanPy/pythTB_wan.py:51 | `_idx_arr` has `prod(nks)` entries |
| KMesh.IdxArrSorted | WanPy/pythTB_wan.py:51 | `_idx_arr` is lexicographically increasing and has no repeated index |
| KMesh.IdxArrAt | WanPy/pythTB_wan.py:51 | each index sits at its row-major position in `_idx_arr` |
| KMesh.IdxArrAt2 | WanPy/pythTB_wan.py:51 | on a 2D mesh entry `t` of `_idx_arr` is `(t div n1, t mod n1)` |
| KMesh.Linspace | WanPy/pythTB_wan.py:71 | `np.linspace(..., nk)` has `nk` values |
| KMesh.KValsAt | WanPy/pythTB_wan.py:69-71 | value `j` of axis `i` is `lo + j * step` with the step of `linspace` with or without endpoint |
| KMesh.GenKMeshShape | WanPy/pythTB_wan.py:72-74 | both views hold `prod(nks)` points of `dim` coordinates; the flat view has shape `(N, dim)` and the full view `(*nks, dim)` |
| KMesh.GenKMeshAt | WanPy/pythTB_wan.py:72-74 | the point at the row-major position of `k` has coordinate `i` equal to value `k[i]` of axis `i` |
| KMesh.GenKMeshMember | WanPy/pythTB_wan.py:71-72 | every point has `dim` coordinates, each one of the `linspace` values of its axis |
| KMesh.PointCoord | WanPy/pythTB_wan.py:71-74 | coordinate `i` of the point for index `k` is the `k[i]`-th axis value |
| KMesh.CoordRange | WanPy/pythTB_wan.py:69-71 | without the endpoint every value lies in `[start, stop)` |
| KMesh.CoordStep | WanPy/pythTB_wan.py:71 | consecutive axis values differ by `1 / nk` |
| KMesh.MeshInCell | WanPy/pythTB_wan.py:69-74 | every mesh point lies in `[-0.5, 0.5)^d` when centred and `[0, 1)^d` otherwise |
| KMesh.UncentredPoint | WanPy/pythTB_wan.py:69-74 | the uncentred mesh point of index `k` is `k / nks` |
| KMesh.MeshStep | WanPy/pythTB_wan.py:71-74 | neighbouring indices along axis `i` give points `1 / nk_i` apart |
| KMesh.InitAsWrittenIsCentred | WanPy/pythTB_wan.py:52-53 | the constructor as written stores a mesh starting at `(-0.5, ...)`, while the intended one starts at the origin |
| KMesh.InitMesh | WanPy/pythTB_wan.py:51-53 | entry `t` of `_idx_arr` is the index of point `t` of `_flat_mesh`, which is `k / nks` in `[0, 1)`; both meshes hold the same points |
| KShell.RemoveFirst | WanPy/pythTB_wan.py:81 | `list.remove` raises `ValueError` iff the item is absent, and otherwise drops exactly its first occurrence |
| KShell.CubeMember | WanPy/pythTB_wan.py:80 | the product of `range(-N_sh, N_sh + 1)` holds exactly the `d`-tuples with components in `[-N_sh, N_sh]` |
| KShell.NnbrIdxDefined | WanPy/pythTB_wan.py:80-81 | building `nnbr_idx` succeeds iff `d == 2` and `N_sh >= 0`, and raises `ValueError` otherwise |
| KShell.NnbrIdxMember | WanPy/pythTB_wan.py:80-81 | `nnbr_idx` holds exactly the nonzero pairs with components in `[-N_sh, N_sh]` |
| KShell.NnbrIdxSorted | WanPy/pythTB_wan.py:80-82 | `nnbr_idx` stays in lexicographic product order |
| KShell.NnbrIdxCount | WanPy/pythTB_wan.py:80-81 | `nnbr_idx` has `(2 N_sh + 1)^2 - 1` entries |
| KShell.DK | WanPy/pythTB_wan.py:77 | `dk` has one row per mesh axis, all of the same length |
| KShell.BVec | WanPy/pythTB_wan.py:85 | `nnbr_idx[i] @ dk` has one component per column of `dk` |
| KShell.SqNorm | WanPy/pythTB_wan.py:86 | `vdot(b, b)` is never negative |
| KShell.RoundHalfEven | WanPy/pythTB_wan.py:87 | rounds to a nearest integer, ties to even as NumPy does |
| KShell.Round | WanPy/pythTB_wan.py:87 | `round(tol_dp)` moves a value by at most half a unit in the last kept decimal |
| KShell.Entries | WanPy/pythTB_wan.py:85-87 | one (offset, vector, rounded distance) entry per offset, in order |
| KShell.SortByDist | WanPy/pythTB_wan.py:90-93 | the entries sorted by distance, as a permutation of the input |
| KShell.Dedup | WanPy/pythTB_wan.py:96 | `sorted(set(dists))` is strictly increasing, holds exactly the distances present and starts with the smallest |
| KShell.Select | WanPy/pythTB_wan.py:98-105 | the `isin` mask keeps exactly the entries at the given distance |
| KShell.Keep | WanPy/pythTB_wan.py:97 | `unique_dists[:N_sh]` keeps at most `N_sh` distances |
| KShell.GetKShellDefined | WanPy/pythTB_wan.py:76-116 | `get_k_shell` succeeds iff the mesh is 2D, there are at least two reciprocal vectors and `N_sh >= 0`; the error is `IndexError` for missing vectors, else `ValueError`; on success it returns the shells of the offsets of `nnbr_idx` |
| KShell.ShellMember | WanPy/pythTB_wan.py:95-105 | an offset is in shell `s` iff it is one of the offsets and its rounded distance is the `s`-th kept distance |
| KShell.ShellDistsIncreasing | WanPy/pythTB_wan.py:96-97 | the kept distances are strictly increasing, at most `N_sh` of them, each the distance of some offset |
| KShell.ShellsDisjoint | WanPy/pythTB_wan.py:98-105 | no offset lies in two shells |
| KShell.ShellsOrdered | WanPy/pythTB_wan.py:89-105 | every offset of an earlier shell is strictly nearer than every offset of a later one |
| KShell.ShellsComplete | WanPy/pythTB_wan.py:95-97 | every offset nearer than a kept distance has its own distance kept, and an offset lies in no shell only when `N_sh` shells are kept and all are nearer |
| KShell.PrefixComplete | WanPy/pythTB_wan.py:96-97 | the first `N_sh` of the increasing unique distances skip no distance below a kept one, and a distance left out is above all kept ones, which then number `N_sh` |
| KShell.ShellVectors | WanPy/pythTB_wan.py:98-105 | `k_shell[s][i]` is the Cartesian vector of `idx_shell[s][i]` |
| KShell.DistNeg | WanPy/pythTB_wan.py:85-87 | negating an offset negates its vector and keeps its rounded distance |
| KShell.GetKShellMember | WanPy/pythTB_wan.py:76-116 | offset `x` is in `idx_shell[s]` iff it is a nonzero pair in the cube of `N_sh` at the `s`-th kept distance |
| KShell.ShellSymmetric | WanPy/pythTB_wan.py:80-105 | every shell is closed under negation |
| KWeights.CartIdxMember | WanPy/pythTB_wan.py:122 | `Cart_idx` holds exactly the pairs `alpha <= beta < dim_k` |
| KWeights.CartIdxLength | WanPy/pythTB_wan.py:122-123 | `n_comb = dim_k (dim_k + 1) / 2` |
| KWeights.CartIdxSorted | WanPy/pythTB_wan.py:122 | the pairs come in lexicographic order |
| KWeights.MomentUpToSymmetric | WanPy/pythTB_wan.py:133-135 | the shell moment `sum_b b[alpha] b[beta]` is symmetric in `alpha, beta` |
| KWeights.WeightedMomentSymmetric | WanPy/pythTB_wan.py:131-135 | the weighted sum over shells is symmetric in `alpha, beta` |
| KWeights.SolvesIffComplete | WanPy/pythTB_wan.py:125-138 | `w` solves `A w = q` iff `sum_s w_s sum_b b[alpha] b[beta] = delta(alpha, beta)` for all Cartesian pairs |
| KWeights.AssembleWeightSystem | WanPy/pythTB_wan.py:121-135 | `q[j]` is `1` exactly on the diagonal pairs and `A[j, s]` is the moment of shell `s` for pair `j`; `IndexError` iff fewer than `N_sh` shells exist while pairs do |
| KWeights.FillPair | WanPy/pythTB_wan.py:131-135 | one pass over `s` fills row `j` of `A` with the moments of every shell, fails iff `A` has more columns than there are shells, and leaves the other rows alone |
| KWeights.AccumulateMoment | WanPy/pythTB_wan.py:133-135 | the loop over `i` adds `b[alpha] b[beta]` for each vector of the shell into `A[j, s]`, which ends as the shell moment, and changes no other entry |
| KWeights.ShellsWide | WanPy/pythTB_wan.py:120-135 | every shell vector has at least `dim_k` components, so `b[alpha] b[beta]` is defined |
| KWeights.GetWeightSystem | WanPy/pythTB_wan.py:119-135 | `get_weights` up to the solve: the shells of `get_k_shell`, its errors passed on, `IndexError` when fewer than `N_sh` shells exist, and the assembled `A` and `q` |
| Bloch.Roll1 | WanPy/pythTB_wan.py:272 | `np.roll(s, shift)[i] = s[(i - shift) mod n]` |
| Bloch.Roll2 | WanPy/pythTB_wan.py:272 | rolling over two axes keeps the number of rows |
| Bloch.RollNeighbour | WanPy/pythTB_wan.py:272 | `np.roll(u, -b)[k] = u[(k + b) mod n]` on a 2D mesh |
| Bloch.RolledGrid | WanPy/pythTB_wan.py:272 | the same at every mesh point, and the rolled array keeps the mesh shape |
| Bloch.Roll1Inverse | WanPy/pythTB_wan.py:272 | rolling by `-shift` undoes rolling by `shift` |
| Bloch.Roll2Inverse | WanPy/pythTB_wan.py:272 | the same for the two-axis roll |
| Bloch.ModIdx | WanPy/pythTB_wan.py:239 | `mod_idx = np.mod(k + b, nks)` is a valid mesh index |
| Bloch.CrossedG | WanPy/pythTB_wan.py:240-241 | `G = (k + b - mod_idx) / nks` has two components |
| Bloch.CrossedGSpec | WanPy/pythTB_wan.py:237-241 | `k + b = mod_idx + nks * G` on each axis, `G_i = 0` iff the step stays inside axis `i`, and `G_i` is in `{-1, 0, 1}` for offsets no longer than the mesh |
| Bloch.PhaseRow | WanPy/pythTB_wan.py:245 | one phase per orbital; entry `o` being `exp(-2 pi i orb_o . G)` is stated by BoundaryRowSpec |
| Bloch.BoundaryRow | WanPy/pythTB_wan.py:233-245 | the phase row of a step has one entry per orbital |
| Bloch.BoundaryRowSpec | WanPy/pythTB_wan.py:242-245 | an entry differs from `1` iff the step crosses the zone edge, and then it is the phase of the crossed nonzero `G` |
| Bloch.BoundaryRowAsWritten | WanPy/pythTB_wan.py:243-245 | the row as the code computes it has one entry per orbital |
| Bloch.BoundaryRowAsWrittenSpec | WanPy/pythTB_wan.py:240-245 | as written, an entry differs from `1` iff the test of line 243 fires, and then it is the phase of orbital `o` for the computed `G`, which may be zero |
| Bloch.AsWrittenAgreesOnUnitOffsets | WanPy/pythTB_wan.py:243-245 | for offsets in `{-1, 0, 1}^2`, the shells the callers pass, the code's test gives the same phases once `exp(0) = 1` is identified with `1` |
| Bloch.AsWrittenMissesLongOffset | WanPy/pythTB_wan.py:243 | on a 4x4 mesh the step `(0,0) + (-2, 1)` crosses, yet the code leaves its phase at `1` |
| Bloch.FillPoint | WanPy/pythTB_wan.py:236-245 | one pass of the outer loop sets every row of one mesh point and keeps the rows already set; the rows are the corrected ones of Findings row 2 |
| Bloch.FillTable | WanPy/pythTB_wan.py:235-246 | the loop over `k_idx_arr` sets the row of every mesh point and offset; the rows are the corrected ones of Findings row 2 |
| Bloch.BoundaryPhase | WanPy/pythTB_wan.py:228-247 | `bc_phase` has shape `(*nks, len(shell), n_orb)` and row `[k, s]` is the boundary row of the step by `shell[s]`; an empty `idx_shell` raises `IndexError`; the rows are the corrected ones of Findings row 2 |
| Bloch.StepsInMesh | WanPy/pythTB_wan.py:235-237 | every mesh index with every offset of the shell is a step |
| Bloch.NeighbourBack | WanPy/pythTB_wan.py:237-239 | stepping by `b` then by `-b` modulo the mesh returns to the start, so each offset permutes the mesh |
| Bloch.FirstShellSpec | WanPy/pythTB_wan.py:264 | the nearest shell exists iff at least two reciprocal vectors are given (else `IndexError`); it is nonempty, made of nonzero pairs in `{-1, 0, 1}^2` |
| Bloch.PhaseSlice | WanPy/pythTB_wan.py:272 | `bc_phase[k, idx, :]` read back entry by entry |
| Bloch.OverlapRolled | WanPy/pythTB_wan.py:272-273 | the slot computed from the rolled states is the overlap with the neighbour at `(k + b) mod n` |
| Bloch.FillSlot | WanPy/pythTB_wan.py:271-273 | one pass over `idx` sets `M[..., idx]` to the phased overlaps with the neighbours and changes no other slot |
| Bloch.FillOverlaps | WanPy/pythTB_wan.py:268-273 | after the loop every slot `M[k, s]` holds the overlap of the state at `k` with its neighbour across `shell[s]` |
| Bloch.KOverlapMat | WanPy/pythTB_wan.py:262-274 | `k_overlap_mat` returns a fresh `M` of shape `(*nks, len(shell))` whose slot `[k, s]` is `braket(u[k], scale(u[(k + b) mod n], bc_phase[k, s]))`; fewer than two reciprocal vectors raise `IndexError` |
| Bloch.NewOverlaps | WanPy/pythTB_wan.py:267-273 | the zeroed `M` of shape `(*nks, len(shell))` ends up with slot `[k, s]` the overlap of the state at `k` with its phased neighbour across `shell[s]` |
| Wannier.NpIndex | WanPy/pythTB_wan.py:348 | indexing an axis of length `n` succeeds iff `-n <= i < n`, lands on `i mod n`, and otherwise raises `IndexError` |
| Wannier.Sq | WanPy/pythTB_wan.py:354 | `abs(x)**2` is never negative and is zero only for `0` |
| Wannier.AbsSum | WanPy/pythTB_wan.py:354 | `sum(abs(row))` is never negative |
| Wannier.SqSum | WanPy/pythTB_wan.py:354 | `sum(abs(row)**2)` is never negative |
| Wannier.Scaled | WanPy/pythTB_wan.py:354 | dividing by `sqrt(total)` divides every entry and keeps the length |
| Wannier.NormSqScaled | WanPy/pythTB_wan.py:354 | after dividing by `sqrt(total)` the squared length is `sum(abs(row)**2) / total` |
| Wannier.NormaliseUnit | WanPy/pythTB_wan.py:354 | a row with some nonzero amplitude is normalised to squared length `1` |
| Wannier.SqSumZero | WanPy/pythTB_wan.py:354 | the squared length vanishes iff every amplitude is zero, the case in which the division gives NaN |
| Wannier.AsWrittenAgreesOnUnitAmplitudes | WanPy/pythTB_wan.py:354 | for amplitudes in `{0, 1, -1}` the code and the intended normalisation agree |
| Wannier.SumsAgree | WanPy/pythTB_wan.py:354 | on those amplitudes `sum(abs(row))` equals `sum(abs(row)**2)` |
| Wannier.AsWrittenNotUnit | WanPy/pythTB_wan.py:354 | the code turns `[(0, 2.0)]` into a row of squared length `2`; the intended normalisation gives `1` |
| Wannier.Zeros | WanPy/pythTB_wan.py:343 | `np.zeros(n_orb)` has `n_orb` zero entries |
| Wannier.SetAll | WanPy/pythTB_wan.py:351-352 | setting the pairs in order keeps the row length and can only raise `IndexError` |
| Wannier.Written | WanPy/pythTB_wan.py:351-352 | at most one amplitude ends up at each orbital |
| Wannier.WrittenLast | WanPy/pythTB_wan.py:351-352 | an orbital is written iff some pair addresses it, and then it holds the amplitude of the last such pair |
| Wannier.SetAllSpec | WanPy/pythTB_wan.py:351-352 | setting the pairs succeeds iff every site is in `[-n_orb, n_orb)`; each orbital then holds its last written amplitude and keeps its old value when none is written |
| Wannier.OneHot | WanPy/pythTB_wan.py:348 | `1` at the site and `0` elsewhere |
| Wannier.TrialRow | WanPy/pythTB_wan.py:345-356 | a successful row has `n_orb` entries |
| Wannier.TrialRowAsWritten | WanPy/pythTB_wan.py:345-356 | the same for the row as the code computes it |
| Wannier.TrialRowAsWrittenPairs | WanPy/pythTB_wan.py:349-354 | as written, a list entry succeeds iff every site is in range (else `IndexError`); orbital `o` holds its last-written amplitude over `sqrt(sum(abs(row)))`, and the squared length is `sum(abs(row)**2) / sum(abs(row))` |
| Wannier.AsWrittenSameOutcome | WanPy/pythTB_wan.py:345-356 | the row as written succeeds iff the corrected row does, raises the same error, equals it for integer and other entries, and has the same numerators |
| Wannier.TrialRowSite | WanPy/pythTB_wan.py:346-348 | an integer entry gives the unit-length one-hot row at its wrapped site, and `IndexError` iff the site is outside `[-n_orb, n_orb)` |
| Wannier.OneHotUnit | WanPy/pythTB_wan.py:348 | a one-hot row has squared length `1` |
| Wannier.NormSqOneHot | WanPy/pythTB_wan.py:348 | a row that is `1` at one position and `0` elsewhere has squared length `1` |
| Wannier.TrialRowPairs | WanPy/pythTB_wan.py:349-354 | a list entry succeeds iff every site is in range (else `IndexError`); each orbital holds its last written amplitude, and the row has unit length unless all stored amplitudes are zero; with the corrected normalisation of Findings row 3 |
| Wannier.TrialRowOther | WanPy/pythTB_wan.py:355-356 | any other entry raises `TypeError` |
| Wannier.TrialTable | WanPy/pythTB_wan.py:340-359 | a successful table has one row of `n_orb` entries per entry of `tf_list`; with the corrected normalisation of Findings row 3 |
| Wannier.TrialTableSpec | WanPy/pythTB_wan.py:340-359 | the table succeeds iff every entry does; row `j` is then the row of entry `j`, and otherwise the error is that of the first failing entry; with the corrected normalisation of Findings row 3 |
| Wannier.FirstError | WanPy/pythTB_wan.py:345-356 | the first entry that raises decides the error of `get_trial_wfs` |
| Wannier.SqSumSnoc | WanPy/pythTB_wan.py:354 | adding an amplitude adds its square to the sum |
| Wannier.GetTrialWfs | WanPy/pythTB_wan.py:329-359 | fails exactly when the table does, with its error; otherwise returns a fresh `len(tf_list) x n_orb` array whose row `j` is the trial function of entry `j`; with the corrected normalisation of Findings row 3 |
| Wannier.WriteRow | WanPy/pythTB_wan.py:345-356 | one pass of the loop sets row `j` to the row of entry `tf` or raises that row's error, and leaves every other row unchanged; with the corrected normalisation of Findings row 3 |
| Wannier.WritePairs | WanPy/pythTB_wan.py:351-352 | the `for site, amp in tf` loop on a zero row succeeds iff every site is in range and leaves the values of `SetAll` |
| Wannier.SquaredLength | WanPy/pythTB_wan.py:354 | the accumulated sum is `sum(abs(row)**2)`; with the corrected normalisation of Findings row 3 |
| Wannier.SandwichedRolled | WanPy/pythTB_wan.py:711 | taking the right factor from `np.roll(U, -b)` at `k` takes it from `U` at `(k + b) mod n` |
| Wannier.RotateSlot | WanPy/pythTB_wan.py:708-712 | one pass sets slot `idx` of `M` to `U[k]^H M0[k, idx] U[k + b]` and changes no other slot |
| Wannier.UpdateOverlap | WanPy/pythTB_wan.py:708-712 | after the loop every slot is `U[k]^H M0[k, s] U[(k + shell[s]) mod n]` |
| Wannier.Rotate | WanPy/pythTB_wan.py:718 | the rotated states `rot(u[k], U[k])` keep the mesh shape |
| Wannier.RotatedOverlap | WanPy/pythTB_wan.py:708-712 | if `M0` is the overlap matrix of `u`, the updated `M` is the overlap matrix of the rotated states, with the same neighbours and phases |
| Wannier.RotatedPoint | WanPy/pythTB_wan.py:708-712 | at one slot, sandwiching the overlap of `u` by the rotations at `k` and at its neighbour gives the overlap of the rotated states |

## Left out

- Floating point: reals are exact.
  - Distances are rounded half-to-even at `tol_dp` decimals, but the rounding error of the arithmetic before that is not modelled.
  - `np.argsort` is modelled as a stable sort. NumPy's default quicksort may order equal distances differently; only the order inside one shell depends on that, and no proved property does.
- Complex numbers:
  - Phases are kept symbolic (`One` or `PbcPhase(orbital, G)`).
  - Trial amplitudes are real.
  - An entry divided by a square root is kept as `num / sqrt(radicand)`, because Dafny's reals have no square root. A zero radicand stands for NumPy's NaN.
- `Lattice`:
  - It is not part of this model.
  - The reciprocal vectors (`_recip_lat_vecs`) and the number of orbitals `n_orb` are inputs.
  - `np.linalg.inv` is not modelled.
- `get_weights`: the SVD and the pseudo-inverse solve (lines 137-138) are left out. The model stops at `A` and `q`, and `KWeights.SolvesIffComplete` states what a solution means.
- `KShell.GetKShell`: requires every `nk` to be positive and the reciprocal vectors to form a square array. NumPy would divide by zero, giving infinities with a warning, or broadcast ragged input; neither is modelled.
- `Bloch.KOverlapMat`:
  - fixes the mesh to two axes, as the `axis=(0,1)` roll does;
  - requires positive `nk`, one state per mesh point and a square reciprocal array.
- `Bloch.BoundaryPhase`: requires the mesh to have two axes, which the roll in `k_overlap_mat` assumes anyway.
- The contents of a state and of an `n_states x n_states` block are abstract. The `einsum`, the conjugate transpose and the matrix products are function parameters.
- `Wannier.UpdateOverlap`:
  - models only the update of `M` (lines 708-712).
  - Not modelled: the gradient, the matrix exponential `mat_exp`, the convergence tests and the returned states of `find_min_unitary`. They are eigen-decompositions and logarithms over complex floats.
  - `Wannier.Rotate` only describes the change of gauge the returned states apply (line 718).
- `get_trial_wfs`: only integers, lists of `(site, amplitude)` pairs and anything else are told apart.
  - Not modelled: `bool`, which Python counts as an integer, and list items that are not pairs (they raise during unpacking).
  - `np.ndarray` entries count as lists.
- Output: the `report` printing of `get_k_shell` and `get_weights`, and the warnings of `find_min_unitary`, are left out.
  - With `report=True`, `get_k_shell` also reads `self._recip_vecs` (line 111), which `K_mesh` never sets (lines 48-53), so it and `get_weights(report=True)` raise `AttributeError`. No caller in the file passes `report=True`, and the model covers only `report=False`.
- Wannier.RotatedOverlap: takes the covariance law `braket(rot(a, x), scale(rot(c, y), ph)) == sandwich(x, braket(a, scale(c, ph)), y)` as a requires clause, without proving it. The law holds when `rot` is the gauge change `U^T u` of line 718 and `braket` conjugates its left argument, which turns the overlap into the `U^H M0 V` of line 711. The model keeps the linear algebra abstract, so the law cannot be proved here.

## Findings

| source | as written | input that shows it | evidently intended | confidence | as-written member | corrected member |
|---|---|---|---|---|---|---|
| WanPy/pythTB_wan.py:52-53 | `self.gen_k_mesh(self, flat=..., endpoint=False)` passes the object itself as `centered`, which is truthy, so the stored meshes are centred on `[-0.5, 0.5)` | any mesh, e.g. `nks = (2, 2)`: the first stored point is `(-0.5, -0.5)` | the default uncentred mesh on `[0, 1)`, whose first point is the origin | medium, not executed | KMesh.InitAsWritten, KMesh.InitAsWrittenIsCentred | KMesh.Init, KMesh.InitMesh |
| WanPy/pythTB_wan.py:243 | a step counts as crossing only when a component of `k + b` equals `-1` or equals some axis count `nk` | 4x4 mesh, `k = (0, 0)`, `b = (-2, 1)`: `k + b = (-2, 1)` wraps, but its phase stays `1` | a step crosses iff `k + b` leaves the mesh, i.e. `G != 0` | low for the shells the callers pass (offsets in `{-1, 0, 1}^2` agree), not executed | Bloch.CrossesAsWritten, Bloch.BoundaryRowAsWritten, Bloch.BoundaryRowAsWrittenSpec, Bloch.AsWrittenMissesLongOffset | Bloch.Crosses, Bloch.BoundaryRow, Bloch.BoundaryRowSpec, Bloch.AsWrittenAgreesOnUnitOffsets, Bloch.FillPoint, Bloch.FillTable, Bloch.BoundaryPhase |
| WanPy/pythTB_wan.py:354 | the row is divided by `sqrt(sum(abs(row)))` | `tf_list = [[(0, 2.0)]]`: the row becomes `[sqrt(2)]`, of squared length `2` | divide by `sqrt(sum(abs(row)**2))`, giving unit length | high, not executed | Wannier.NormaliseAsWritten, Wannier.TrialRowAsWritten, Wannier.TrialRowAsWrittenPairs, Wannier.AsWrittenSameOutcome, Wannier.AsWrittenNotUnit | Wannier.Normalise, Wannier.TrialRow, Wannier.NormaliseUnit, Wannier.TrialRowPairs, Wannier.TrialTable, Wannier.WriteRow, Wannier.SquaredLength, Wannier.GetTrialWfs |
