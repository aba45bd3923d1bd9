/** The regular reciprocal-space mesh of `K_mesh` (WanPy/pythTB_wan.py:47-74):
    the list of integer mesh indices and the reduced coordinates of the mesh
    points, in exact arithmetic. */
module KMesh {
  import opened Grid

  /** The axes `range(nk)`, one per mesh direction. */
  function IndexAxes(nks: seq<nat>): seq<seq<int>> {
    seq(|nks|, i requires 0 <= i < |nks| => Range(0, nks[i]))
  }

  /** `K_mesh._idx_arr`: every integer mesh index, in `itertools.product` order. */
  function IdxArr(nks: seq<nat>): seq<seq<int>> {
    Product(IndexAxes(nks))
  }

  lemma IndexAxesSizes(nks: seq<nat>)
    ensures Sizes(IndexAxes(nks)) == nks
  {
  }

  /** `_idx_arr` holds exactly the tuples with `0 <= k[i] < nks[i]` on every axis. */
  lemma IdxArrMember(nks: seq<nat>, k: seq<int>)
    ensures k in IdxArr(nks) <==> InBounds(nks, k)
  {
    ProductMember(IndexAxes(nks), k);
  }

  /** `len(_idx_arr) == prod(nks)`. */
  lemma IdxArrLength(nks: seq<nat>)
    ensures |IdxArr(nks)| == Prod(nks)
  {
    ProductLength(IndexAxes(nks));
    IndexAxesSizes(nks);
  }

  /** `_idx_arr` is strictly increasing in lexicographic order, so it lists no index twice. */
  lemma IdxArrSorted(nks: seq<nat>)
    ensures LexSorted(IdxArr(nks))
    ensures forall i, j :: 0 <= i < |IdxArr(nks)| && 0 <= j < |IdxArr(nks)| && i != j
              ==> IdxArr(nks)[i] != IdxArr(nks)[j]
  {
    ProductSorted(IndexAxes(nks));
    LexSortedDistinct(IdxArr(nks));
  }

  /** The mesh index `k` sits at its row-major position in `_idx_arr`. */
  lemma IdxArrAt(nks: seq<nat>, k: seq<int>)
    requires InBounds(nks, k)
    ensures 0 <= RowMajor(nks, k) < |IdxArr(nks)|
    ensures IdxArr(nks)[RowMajor(nks, k)] == k
  {
    IndexAxesSizes(nks);
    ProductAt(IndexAxes(nks), k);
    var axes := IndexAxes(nks);
    var got := seq(|axes|, i requires 0 <= i < |axes| => axes[i][k[i]]);
    assert got == k;
  }

  /** In two dimensions the `t`-th mesh index is `(t // n1, t % n1)`. */
  lemma IdxArrAt2(n0: nat, n1: nat, t: int)
    requires 0 <= t < n0 * n1
    ensures |IdxArr([n0, n1])| == n0 * n1
    ensures IdxArr([n0, n1])[t] == [t / n1, t % n1]
  {
    var k := [t / n1, t % n1];
    assert n1 > 0;
    DivBelow(t, n0, n1);
    assert InBounds([n0, n1], k);
    assert Prod([n0, n1][1..]) == n1 by { assert [n0, n1][1..] == [n1]; }
    assert RowMajor([n1], [t % n1]) == t % n1 by { assert Prod([n1][1..]) == 1; }
    assert RowMajor([n0, n1], k) == t;
    IdxArrAt([n0, n1], k);
    IdxArrLength([n0, n1]);
  }

  lemma DivBelow(t: int, n0: nat, n1: nat)
    requires 0 <= t < n0 * n1
    ensures n1 > 0 && 0 <= t / n1 < n0
  {
    var q := t / n1;
    assert q * n1 <= t;
    assert (n0 - q) * n1 > 0;
  }

  // ---------------------------------------------------------------------
  // gen_k_mesh

  /** `numpy.linspace(start, stop, n, endpoint=endpoint)` in exact arithmetic. */
  function Linspace(start: real, stop: real, n: nat, endpoint: bool): (r: seq<real>)
    ensures |r| == n
  {
    var div := if endpoint then n - 1 else n;
    if div <= 0 then seq(n, i => start)
    else seq(n, i => start + (i as real) * (stop - start) / (div as real))
  }

  function Lo(centered: bool): real { if centered then -0.5 else 0.0 }

  /** The `j`-th value of a mesh axis of `n` points: `lo + j * step`, the step
      being `(hi - lo) / n` without the endpoint and `(hi - lo) / (n - 1)` with it. */
  function Coord(centered: bool, endpoint: bool, n: nat, j: int): real
    requires 0 <= j < n
  {
    if !endpoint then Lo(centered) + (j as real) / (n as real)
    else if n <= 1 then Lo(centered)
    else Lo(centered) + (j as real) / ((n - 1) as real)
  }

  function Hi(centered: bool): real { if centered then 0.5 else 1.0 }

  /** The per-axis coordinate lists `k_vals` of `gen_k_mesh`. */
  function KVals(nks: seq<nat>, centered: bool, endpoint: bool): seq<seq<real>> {
    seq(|nks|, i requires 0 <= i < |nks| => Linspace(Lo(centered), Hi(centered), nks[i], endpoint))
  }

  /** A NumPy array of mesh points: its shape and its points in row-major order. */
  datatype MeshArray = MeshArray(shape: seq<nat>, points: seq<seq<real>>)

  /** `K_mesh.gen_k_mesh(centered, flat, endpoint)`. A flat mesh has shape
      `(N, dim)` (NumPy gives `(0,)` for an empty list); otherwise the same
      points are reshaped to `(*nks, dim)`, which keeps their row-major order. */
  function GenKMesh(nks: seq<nat>, centered: bool, flat: bool, endpoint: bool): MeshArray {
    var mesh := Product(KVals(nks, centered, endpoint));
    if flat then MeshArray(if |mesh| == 0 then [0] else [|mesh|, |nks|], mesh)
    else MeshArray(nks + [|nks|], mesh)
  }

  /** Both views hold `prod(nks)` points of `dim` coordinates, and the
      reshaped view has shape `(*nks, dim)`. */
  lemma GenKMeshShape(nks: seq<nat>, centered: bool, flat: bool, endpoint: bool)
    ensures var m := GenKMesh(nks, centered, flat, endpoint);
      |m.points| == Prod(nks) &&
      (forall p :: p in m.points ==> |p| == |nks|) &&
      (flat && Prod(nks) > 0 ==> m.shape == [Prod(nks), |nks|]) &&
      (!flat ==> m.shape == nks + [|nks|])
  {
    var axes := KVals(nks, centered, endpoint);
    assert Sizes(axes) == nks;
    ProductLength(axes);
    forall p | p in GenKMesh(nks, centered, flat, endpoint).points ensures |p| == |nks| {
      ProductMember(axes, p);
    }
  }

  /** Axis values are `lo + j * step` (the mesh spans a width of 1 either way). */
  lemma KValsAt(nks: seq<nat>, centered: bool, endpoint: bool, i: nat, j: nat)
    requires i < |nks| && j < nks[i]
    ensures KVals(nks, centered, endpoint)[i][j] == Coord(centered, endpoint, nks[i], j)
  {
  }

  /** The point stored for mesh index `k`, at row-major position `k`, has
      coordinate `Coord(k[i])` along axis `i`. */
  lemma GenKMeshAt(nks: seq<nat>, centered: bool, flat: bool, endpoint: bool, k: seq<int>)
    requires InBounds(nks, k)
    ensures var m := GenKMesh(nks, centered, flat, endpoint);
      0 <= RowMajor(nks, k) < |m.points| &&
      |m.points[RowMajor(nks, k)]| == |nks| &&
      forall i :: 0 <= i < |nks| ==>
        m.points[RowMajor(nks, k)][i] == Coord(centered, endpoint, nks[i], k[i])
  {
    var axes := KVals(nks, centered, endpoint);
    assert Sizes(axes) == nks;
    ProductAt(axes, k);
    forall i | 0 <= i < |nks| ensures axes[i][k[i]] == Coord(centered, endpoint, nks[i], k[i]) {
      KValsAt(nks, centered, endpoint, i, k[i]);
    }
  }

  /** Every point of the mesh is `Coord(j)` on each axis `i`, for some `0 <= j < nks[i]`. */
  lemma GenKMeshMember(nks: seq<nat>, centered: bool, flat: bool, endpoint: bool, p: seq<real>, i: nat)
    requires p in GenKMesh(nks, centered, flat, endpoint).points && i < |nks|
    ensures |p| == |nks|
    ensures exists j :: 0 <= j < nks[i] && p[i] == Coord(centered, endpoint, nks[i], j)
  {
    var axes := KVals(nks, centered, endpoint);
    ProductMember(axes, p);
    var j :| 0 <= j < |axes[i]| && axes[i][j] == p[i];
    KValsAt(nks, centered, endpoint, i, j);
  }

  /** One coordinate of the point stored for mesh index `k`. */
  lemma PointCoord(nks: seq<nat>, centered: bool, flat: bool, endpoint: bool, k: seq<int>, i: nat)
    requires InBounds(nks, k) && i < |nks|
    ensures var m := GenKMesh(nks, centered, flat, endpoint);
      0 <= RowMajor(nks, k) < |m.points| && |m.points[RowMajor(nks, k)]| == |nks| &&
      m.points[RowMajor(nks, k)][i] == Coord(centered, endpoint, nks[i], k[i])
  {
    GenKMeshAt(nks, centered, flat, endpoint, k);
  }

  /** Without the endpoint an axis value stays inside `[lo, hi)`. */
  lemma CoordRange(centered: bool, n: nat, j: int)
    requires 0 <= j < n
    ensures Lo(centered) <= Coord(centered, false, n, j) < Hi(centered)
  {
    assert (j as real) / (n as real) < 1.0 by {
      assert (j as real) < (n as real);
    }
  }

  /** Without the endpoint consecutive axis values are `1 / n` apart. */
  lemma CoordStep(centered: bool, n: nat, j: int)
    requires 0 <= j && j + 1 < n
    ensures Coord(centered, false, n, j + 1) - Coord(centered, false, n, j) == 1.0 / (n as real)
  {
  }

  /** Without the endpoint every mesh point lies in the half-open cell: `[0, 1)`
      per axis for the plain mesh, `[-0.5, 0.5)` for the centred one. */
  lemma MeshInCell(nks: seq<nat>, centered: bool, flat: bool, p: seq<real>, i: nat)
    requires p in GenKMesh(nks, centered, flat, false).points && i < |p|
    ensures |p| == |nks| && Lo(centered) <= p[i] < Hi(centered)
  {
    GenKMeshShape(nks, centered, flat, false);
    GenKMeshMember(nks, centered, flat, false, p, i);
    var j :| 0 <= j < nks[i] && p[i] == Coord(centered, false, nks[i], j);
    CoordRange(centered, nks[i], j);
  }

  /** Without centring and without the endpoint, index `k` gets the coordinate
      `k[i] / nks[i]` along axis `i`. */
  lemma UncentredPoint(nks: seq<nat>, flat: bool, k: seq<int>, i: nat)
    requires InBounds(nks, k) && i < |nks|
    ensures var m := GenKMesh(nks, false, flat, false);
      0 <= RowMajor(nks, k) < |m.points| && |m.points[RowMajor(nks, k)]| == |nks| &&
      m.points[RowMajor(nks, k)][i] == (k[i] as real) / (nks[i] as real)
  {
    PointCoord(nks, false, flat, false, k, i);
  }

  /** Without the endpoint the mesh steps by `1 / nks[i]` from one index to the
      next along axis `i`, centred or not. */
  lemma MeshStep(nks: seq<nat>, centered: bool, flat: bool, k: seq<int>, i: nat)
    requires InBounds(nks, k) && i < |nks| && k[i] + 1 < nks[i]
    ensures var m := GenKMesh(nks, centered, flat, false);
      var next := k[i := k[i] + 1];
      var a, b := RowMajor(nks, k), RowMajor(nks, next);
      InBounds(nks, next) && 0 <= a < |m.points| && 0 <= b < |m.points| &&
      |m.points[a]| == |nks| && |m.points[b]| == |nks| &&
      m.points[b][i] - m.points[a][i] == 1.0 / (nks[i] as real)
  {
    var next := k[i := k[i] + 1];
    assert InBounds(nks, next);
    PointCoord(nks, centered, flat, false, k, i);
    PointCoord(nks, centered, flat, false, next, i);
    CoordStep(centered, nks[i], k[i]);
  }

  // ---------------------------------------------------------------------
  // K_mesh construction

  /** A `K_mesh` object: the counts per axis, the reciprocal lattice vectors of
      its `Lattice` (rows, Cartesian components), and the tables built by the
      constructor. */
  datatype KMesh = KMesh(
    nks: seq<nat>,
    recip: seq<seq<real>>,
    idxArr: seq<seq<int>>,
    fullMesh: MeshArray,
    flatMesh: MeshArray)

  /** `K_mesh.__init__` as written: `self.gen_k_mesh(self, flat=..., endpoint=False)`
      passes the object itself as the first argument of the bound method, so it
      binds to `centered`, and an object is truthy. */
  function InitAsWritten(nks: seq<nat>, recip: seq<seq<real>>): KMesh {
    KMesh(nks, recip, IdxArr(nks), GenKMesh(nks, true, false, false), GenKMesh(nks, true, true, false))
  }

  /** `K_mesh.__init__` as intended: the stored meshes are the uncentred ones. */
  function Init(nks: seq<nat>, recip: seq<seq<real>>): KMesh {
    KMesh(nks, recip, IdxArr(nks), GenKMesh(nks, false, false, false), GenKMesh(nks, false, true, false))
  }

  /** The constructor as written stores a mesh whose first point is
      `(-0.5, ..., -0.5)` instead of the origin. */
  lemma InitAsWrittenIsCentred(nks: seq<nat>, recip: seq<seq<real>>)
    requires |nks| > 0 && forall i :: 0 <= i < |nks| ==> nks[i] > 0
    ensures |InitAsWritten(nks, recip).flatMesh.points| > 0
    ensures |Init(nks, recip).flatMesh.points| > 0
    ensures InitAsWritten(nks, recip).flatMesh.points[0] == seq(|nks|, i => -0.5)
    ensures Init(nks, recip).flatMesh.points[0] == seq(|nks|, i => 0.0)
    ensures InitAsWritten(nks, recip).flatMesh.points[0] != Init(nks, recip).flatMesh.points[0]
  {
    var zero := seq(|nks|, i => 0);
    assert InBounds(nks, zero);
    RowMajorZero(nks);
    GenKMeshAt(nks, true, true, false, zero);
    GenKMeshAt(nks, false, true, false, zero);
    var a := InitAsWritten(nks, recip).flatMesh.points[0];
    var b := Init(nks, recip).flatMesh.points[0];
    assert a[0] != b[0];
  }

  lemma {:induction false} RowMajorZero(nks: seq<nat>)
    ensures RowMajor(nks, seq(|nks|, i => 0)) == 0
  {
    if |nks| > 0 {
      RowMajorZero(nks[1..]);
      assert seq(|nks|, i => 0)[1..] == seq(|nks[1..]|, i => 0);
    }
  }

  /** The constructor as intended stores, for every mesh index, the point
      `k[i] / nks[i]` at that index's position in `_idx_arr`, in both views. */
  lemma InitMesh(nks: seq<nat>, recip: seq<seq<real>>, t: nat)
    requires t < |IdxArr(nks)|
    ensures var m := Init(nks, recip);
      var k := m.idxArr[t];
      InBounds(nks, k) && RowMajor(nks, k) == t &&
      m.fullMesh.points == m.flatMesh.points && |m.flatMesh.points| == |m.idxArr| &&
      |m.flatMesh.points[t]| == |nks| &&
      forall i :: 0 <= i < |nks| ==>
        m.flatMesh.points[t][i] == (k[i] as real) / (nks[i] as real) && 0.0 <= m.flatMesh.points[t][i] < 1.0
  {
    var k := IdxArr(nks)[t];
    IdxArrMember(nks, k);
    IdxArrAt(nks, k);
    IdxArrSorted(nks);
    IdxArrLength(nks);
    GenKMeshShape(nks, false, true, false);
    var pt := GenKMesh(nks, false, true, false).points[t];
    forall i | 0 <= i < |nks|
      ensures pt[i] == (k[i] as real) / (nks[i] as real) && 0.0 <= pt[i] < 1.0
    {
      UncentredPoint(nks, true, k, i);
      MeshInCell(nks, false, true, pt, i);
    }
  }
}
