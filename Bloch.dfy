/** The periodic-boundary bookkeeping of `Bloch` (WanPy/pythTB_wan.py:228-274)
    on a two-dimensional mesh: `np.roll` along the two mesh axes, the
    reciprocal lattice vector `G` crossed when a mesh index steps by a
    shell-1 offset, the table of boundary phases, and the overlap matrix that
    pairs each mesh point with its neighbour. Phases and inner products are
    symbolic: a phase records the orbital and the vector `G` of
    `exp(-2 pi i tau_orb . G)`, and the inner products are parameters. */
module Bloch {
  import opened Errors
  import opened Grid
  import opened KMesh
  import opened KShell

  // ---------------------------------------------------------------------
  // np.roll

  /** `np.roll(s, shift)` along one axis, as NumPy computes it: with
      `m = shift mod n`, the last `m` entries move to the front. */
  function Roll1<T>(s: seq<T>, shift: int): (r: seq<T>)
    ensures |r| == |s|
    ensures forall i :: 0 <= i < |s| ==> r[i] == s[(i - shift) % |s|]
  {
    if |s| == 0 then s
    else
      var n := |s|;
      var m := shift % n;
      var r := s[n - m..] + s[..n - m];
      assert forall i :: 0 <= i < n ==> r[i] == s[(i - shift) % n] by {
        forall i | 0 <= i < n ensures r[i] == s[(i - shift) % n] {
          if i < m {
            assert r[i] == s[n - m + i];
            ModUnique(i - shift, n, -(shift / n) - 1, n - m + i);
          } else {
            assert r[i] == s[i - m];
            ModUnique(i - shift, n, -(shift / n), i - m);
          }
        }
      }
      r
  }

  lemma MulBounded(m: int, n: int)
    requires n > 0 && -n < m * n < n
    ensures m == 0
  {
  }

  /** Quotient and remainder are the only `q`, `r` with `a = q n + r`, `0 <= r < n`. */
  lemma ModUnique(a: int, n: int, q: int, r: int)
    requires n > 0 && 0 <= r < n && a == q * n + r
    ensures a % n == r && a / n == q
  {
    var q', r' := a / n, a % n;
    assert a == q' * n + r';
    assert (q - q') * n == r' - r;
    MulBounded(q - q', n);
  }

  /** Shifting the representative of `i + s` back by `s` returns to `i`. */
  lemma ModBack(i: int, s: int, n: int)
    requires n > 0 && 0 <= i < n
    ensures 0 <= (i + s) % n < n && ((i + s) % n - s) % n == i
  {
    var j := (i + s) % n;
    assert i + s == ((i + s) / n) * n + j;
    ModUnique(j - s, n, -((i + s) / n), i);
  }

  /** A table with `n0` rows of `n1` entries. */
  predicate Grid2<T>(x: seq<seq<T>>, n0: nat, n1: nat) {
    |x| == n0 && forall i :: 0 <= i < n0 ==> |x[i]| == n1
  }

  /** `np.roll(x, shift=(s0, s1), axis=(0, 1))`: roll the rows, then every row. */
  function Roll2<T>(x: seq<seq<T>>, s0: int, s1: int): (r: seq<seq<T>>)
    ensures |r| == |x|
  {
    var rows := Roll1(x, s0);
    seq(|rows|, i requires 0 <= i < |rows| => Roll1(rows[i], s1))
  }

  /** `np.roll(x, shift=-b)[k] = x[(k + b) mod n]`: rolling by the negated
      offset puts the neighbour `k + b` of every mesh point at `k`. */
  lemma RollNeighbour<T>(x: seq<seq<T>>, n0: nat, n1: nat, b0: int, b1: int, k0: nat, k1: nat)
    requires Grid2(x, n0, n1) && k0 < n0 && k1 < n1
    ensures Grid2(Roll2(x, -b0, -b1), n0, n1)
    ensures Roll2(x, -b0, -b1)[k0][k1] == x[(k0 + b0) % n0][(k1 + b1) % n1]
  {
    var rows := Roll1(x, -b0);
    assert rows[k0] == x[(k0 + b0) % n0];
    var r := Roll2(x, -b0, -b1);
    forall i | 0 <= i < n0 ensures |r[i]| == n1 {
      assert rows[i] == x[(i + b0) % n0];
      assert |rows[i]| == n1;
    }
  }

  /** `RollNeighbour` at every mesh index at once. */
  lemma RolledGrid<T>(x: seq<seq<T>>, n0: nat, n1: nat, b0: int, b1: int)
    requires Grid2(x, n0, n1)
    ensures Grid2(Roll2(x, -b0, -b1), n0, n1)
    ensures var r := Roll2(x, -b0, -b1);
      forall k0, k1 :: 0 <= k0 < n0 && 0 <= k1 < n1 ==> r[k0][k1] == x[(k0 + b0) % n0][(k1 + b1) % n1]
  {
    var r := Roll2(x, -b0, -b1);
    if n0 > 0 && n1 > 0 {
      RollNeighbour(x, n0, n1, b0, b1, 0, 0);
    } else {
      forall i | 0 <= i < n0 ensures |r[i]| == n1 {
        Roll2Row(x, -b0, -b1, i);
      }
    }
    forall k0, k1 | 0 <= k0 < n0 && 0 <= k1 < n1 ensures r[k0][k1] == x[(k0 + b0) % n0][(k1 + b1) % n1] {
      RollNeighbour(x, n0, n1, b0, b1, k0, k1);
    }
  }

  /** Rolling back by the opposite shift restores the sequence. */
  lemma Roll1Inverse<T>(s: seq<T>, shift: int)
    ensures Roll1(Roll1(s, shift), -shift) == s
  {
    var n := |s|;
    var r := Roll1(Roll1(s, shift), -shift);
    forall i | 0 <= i < n ensures r[i] == s[i] {
      var j := (i + shift) % n;
      ModBack(i, shift, n);
      assert r[i] == Roll1(s, shift)[j];
    }
  }

  /** Row `i` of the two-axis roll is row `i - s0` rolled by `s1`. */
  lemma Roll2Row<T>(x: seq<seq<T>>, s0: int, s1: int, i: nat)
    requires i < |x|
    ensures Roll2(x, s0, s1)[i] == Roll1(x[(i - s0) % |x|], s1)
  {
  }

  lemma Roll2InverseRow<T>(x: seq<seq<T>>, n0: nat, n1: nat, s0: int, s1: int, i: nat)
    requires Grid2(x, n0, n1) && i < n0
    ensures |Roll2(Roll2(x, s0, s1), -s0, -s1)| == n0
    ensures Roll2(Roll2(x, s0, s1), -s0, -s1)[i] == x[i]
  {
    var y := Roll2(x, s0, s1);
    var j := (i + s0) % n0;
    Roll2Row(y, -s0, -s1, i);
    ModBack(i, s0, n0);
    Roll2Row(x, s0, s1, j);
    Roll1Inverse(x[i], s1);
  }

  lemma Roll2Inverse<T>(x: seq<seq<T>>, n0: nat, n1: nat, s0: int, s1: int)
    requires Grid2(x, n0, n1)
    ensures Roll2(Roll2(x, s0, s1), -s0, -s1) == x
  {
    var r := Roll2(Roll2(x, s0, s1), -s0, -s1);
    forall i | 0 <= i < n0 ensures r[i] == x[i] {
      Roll2InverseRow(x, n0, n1, s0, s1, i);
    }
  }

  // ---------------------------------------------------------------------
  // Crossing the zone boundary

  /** A mesh index plus an offset, both two-dimensional, inside the mesh. */
  predicate Step(nks: seq<nat>, k: seq<int>, b: seq<int>) {
    |nks| == 2 && |b| == 2 && InBounds(nks, k)
  }

  /** `mod_idx = np.mod(k + b, nks)`. */
  function ModIdx(nks: seq<nat>, k: seq<int>, b: seq<int>): (r: seq<int>)
    requires Step(nks, k, b)
    ensures |r| == 2 && InBounds(nks, r)
  {
    [(k[0] + b[0]) % nks[0], (k[1] + b[1]) % nks[1]]
  }

  /** `G = (k + b - mod_idx) / nks`, the reciprocal lattice vector crossed. */
  function CrossedG(nks: seq<nat>, k: seq<int>, b: seq<int>): (g: seq<int>)
    requires Step(nks, k, b)
    ensures |g| == 2
  {
    var m := ModIdx(nks, k, b);
    [(k[0] + b[0] - m[0]) / nks[0], (k[1] + b[1] - m[1]) / nks[1]]
  }

  /** The neighbour `k + b` is its wrapped index plus `nks * G`; for an offset
      no longer than the mesh every component of `G` is `-1`, `0` or `1`,
      and `G_i = 0` exactly when `k_i + b_i` stays inside `[0, nks_i)`. */
  lemma CrossedGSpec(nks: seq<nat>, k: seq<int>, b: seq<int>)
    requires Step(nks, k, b)
    ensures var g, m := CrossedG(nks, k, b), ModIdx(nks, k, b);
      forall i :: 0 <= i < 2 ==>
        k[i] + b[i] == m[i] + nks[i] * g[i] &&
        (g[i] == 0 <==> 0 <= k[i] + b[i] < nks[i]) &&
        (-nks[i] <= b[i] <= nks[i] ==> -1 <= g[i] <= 1)
  {
    forall i | 0 <= i < 2
      ensures var g, m := CrossedG(nks, k, b), ModIdx(nks, k, b);
        k[i] + b[i] == m[i] + nks[i] * g[i] &&
        (g[i] == 0 <==> 0 <= k[i] + b[i] < nks[i]) &&
        (-nks[i] <= b[i] <= nks[i] ==> -1 <= g[i] <= 1)
    {
      assert 0 <= k[i] < nks[i];
      CrossedAxis(k[i] + b[i], nks[i], b[i]);
    }
  }

  lemma CrossedAxis(x: int, n: int, b: int)
    requires n > 0 && 0 <= x - b < n
    ensures var g := (x - x % n) / n;
      x == x % n + n * g &&
      (g == 0 <==> 0 <= x < n) &&
      (-n <= b <= n ==> -1 <= g <= 1)
  {
    assert x == (x / n) * n + x % n;
    ModUnique(x - x % n, n, x / n, 0);
    if x < 0 {
      if -n <= x { ModUnique(x, n, -1, x + n); }
      else { assert x / n < 0; }
    } else if x < n {
      ModUnique(x, n, 0, x);
    } else if x < 2 * n {
      ModUnique(x, n, 1, x - n);
    } else {
      assert x / n > 0;
    }
  }

  /** The neighbour leaves the mesh along some axis: `G != 0`. */
  predicate Crosses(nks: seq<nat>, k: seq<int>, b: seq<int>)
    requires Step(nks, k, b)
  {
    !(0 <= k[0] + b[0] < nks[0]) || !(0 <= k[1] + b[1] < nks[1])
  }

  /** The test of line 243 as written: some component of `k + b` equals `-1`
      or equals any one of the axis counts. */
  predicate CrossesAsWritten(nks: seq<nat>, k: seq<int>, b: seq<int>)
    requires Step(nks, k, b)
  {
    exists i :: 0 <= i < 2 && (k[i] + b[i] == -1 || k[i] + b[i] == nks[0] || k[i] + b[i] == nks[1])
  }

  // ---------------------------------------------------------------------
  // Boundary phases

  /** `One` is the initial `1`; `PbcPhase(orb, G)` is `exp(-2 pi i tau_orb . G)`. */
  datatype Phase = One | PbcPhase(orb: nat, G: seq<int>)

  predicate IsZero(g: seq<int>) {
    forall i :: 0 <= i < |g| ==> g[i] == 0
  }

  /** The value a phase denotes: `exp(0) = 1`. */
  function Canon(p: Phase): Phase {
    if p.PbcPhase? && IsZero(p.G) then One else p
  }

  /** `exp(-2 pi i orbs @ G)`: one phase per orbital. */
  function PhaseRow(nOrb: nat, g: seq<int>): (row: seq<Phase>)
    ensures |row| == nOrb
  {
    seq(nOrb, o requires 0 <= o < nOrb => PbcPhase(o, g))
  }

  /** `bc_phase[k][idx]`: the orbital phases for `G` when the step crosses, all `1` otherwise. */
  function BoundaryRow(nks: seq<nat>, nOrb: nat, k: seq<int>, b: seq<int>): (row: seq<Phase>)
    requires Step(nks, k, b)
    ensures |row| == nOrb
  {
    if Crosses(nks, k, b) then PhaseRow(nOrb, CrossedG(nks, k, b))
    else seq(nOrb, _ => One)
  }

  /** The row the test of line 243 as written produces. */
  function BoundaryRowAsWritten(nks: seq<nat>, nOrb: nat, k: seq<int>, b: seq<int>): (row: seq<Phase>)
    requires Step(nks, k, b)
    ensures |row| == nOrb
  {
    if CrossesAsWritten(nks, k, b) then PhaseRow(nOrb, CrossedG(nks, k, b))
    else seq(nOrb, _ => One)
  }

  /** An entry differs from `1` exactly when the step leaves the mesh, and then
      it is the phase of orbital `o` for a nonzero `G`. */
  lemma BoundaryRowSpec(nks: seq<nat>, nOrb: nat, k: seq<int>, b: seq<int>, o: nat)
    requires Step(nks, k, b) && o < nOrb
    ensures Canon(BoundaryRow(nks, nOrb, k, b)[o]) == BoundaryRow(nks, nOrb, k, b)[o]
    ensures BoundaryRow(nks, nOrb, k, b)[o] != One <==> Crosses(nks, k, b)
    ensures BoundaryRow(nks, nOrb, k, b)[o] != One ==>
      BoundaryRow(nks, nOrb, k, b)[o] == PbcPhase(o, CrossedG(nks, k, b)) && !IsZero(CrossedG(nks, k, b))
  {
    CrossedGSpec(nks, k, b);
    if Crosses(nks, k, b) {
      if !(0 <= k[0] + b[0] < nks[0]) {
        assert CrossedG(nks, k, b)[0] != 0;
      } else {
        assert CrossedG(nks, k, b)[1] != 0;
      }
    }
  }

  /** As written, an entry differs from `1` exactly when the test of line 243
      fires, and then it is the phase of orbital `o` for the `G` of lines
      240-241, which may be zero. */
  lemma BoundaryRowAsWrittenSpec(nks: seq<nat>, nOrb: nat, k: seq<int>, b: seq<int>, o: nat)
    requires Step(nks, k, b) && o < nOrb
    ensures BoundaryRowAsWritten(nks, nOrb, k, b)[o] != One <==> CrossesAsWritten(nks, k, b)
    ensures CrossesAsWritten(nks, k, b) ==>
      BoundaryRowAsWritten(nks, nOrb, k, b)[o] == PbcPhase(o, CrossedG(nks, k, b))
  {
  }

  /** For the offsets the callers pass (every component `-1`, `0` or `1`, as in
      the shells of `get_k_shell(N_sh=1)`), the inline test denotes the same
      phases: what it misses cannot happen, and what it adds has `G = 0`. */
  lemma AsWrittenAgreesOnUnitOffsets(nks: seq<nat>, nOrb: nat, k: seq<int>, b: seq<int>, o: nat)
    requires Step(nks, k, b) && InCube(b, 1) && o < nOrb
    ensures Canon(BoundaryRowAsWritten(nks, nOrb, k, b)[o]) == BoundaryRow(nks, nOrb, k, b)[o]
  {
    CrossedGSpec(nks, k, b);
    BoundaryRowSpec(nks, nOrb, k, b, o);
    assert -1 <= b[0] <= 1 && -1 <= b[1] <= 1;
    if Crosses(nks, k, b) {
      if !(0 <= k[0] + b[0] < nks[0]) {
        assert k[0] + b[0] == -1 || k[0] + b[0] == nks[0];
        assert CrossesAsWritten(nks, k, b);
      } else {
        assert k[1] + b[1] == -1 || k[1] + b[1] == nks[1];
        assert CrossesAsWritten(nks, k, b);
      }
    } else if CrossesAsWritten(nks, k, b) {
      assert IsZero(CrossedG(nks, k, b));
    }
  }

  /** An offset of length two along one axis crosses the boundary without the
      neighbour index being `-1` or any axis count, so the inline test keeps
      the entry at `1` where `G = (-1, 0)`. */
  lemma AsWrittenMissesLongOffset()
    ensures Step([4, 4], [0, 0], [-2, 1])
    ensures !CrossesAsWritten([4, 4], [0, 0], [-2, 1])
    ensures Crosses([4, 4], [0, 0], [-2, 1]) && CrossedG([4, 4], [0, 0], [-2, 1]) == [-1, 0]
    ensures BoundaryRowAsWritten([4, 4], 1, [0, 0], [-2, 1]) == [One]
    ensures BoundaryRow([4, 4], 1, [0, 0], [-2, 1]) == [PbcPhase(0, [-1, 0])]
  {
    assert InBounds([4, 4], [0, 0]);
    var g := CrossedG([4, 4], [0, 0], [-2, 1]);
    assert ModIdx([4, 4], [0, 0], [-2, 1]) == [2, 1];
    assert g == [-1, 0];
  }

  /** The offsets of the first shell: two components each. */
  predicate ShellOffsets(shell: seq<seq<int>>) {
    forall s :: 0 <= s < |shell| ==> |shell[s]| == 2
  }

  /** `bc_phase` has the shape `(n0, n1, len(shell), nOrb)` and row
      `bc_phase[k, s, :]` is the boundary row of the step by `shell[s]`:
      all ones unless the step crossed the zone edge. */
  predicate PhaseTable(bc: array4<Phase>, nks: seq<nat>, nOrb: nat, shell: seq<seq<int>>)
    reads bc
  {
    TableShape(bc, nks, |shell|, nOrb) &&
    forall k0, k1, s, o :: 0 <= k0 < nks[0] && 0 <= k1 < nks[1] && 0 <= s < |shell| && 0 <= o < nOrb ==>
      Step(nks, [k0, k1], shell[s]) && bc[k0, k1, s, o] == BoundaryRow(nks, nOrb, [k0, k1], shell[s])[o]
  }

  /** `bc_phase` has the shape `(n0, n1, len(shell), nOrb)`. */
  predicate TableShape(bc: array4<Phase>, nks: seq<nat>, m: nat, nOrb: nat)
    reads bc
  {
    |nks| == 2 && bc.Length0 == nks[0] && bc.Length1 == nks[1] && bc.Length2 == m && bc.Length3 == nOrb
  }

  /** The table after the mesh indices before row-major position `t` have
      been visited: their rows are the boundary rows, the rest are still ones. */
  predicate FilledBelow(bc: array4<Phase>, nks: seq<nat>, nOrb: nat, shell: seq<seq<int>>, t: int)
    reads bc
  {
    TableShape(bc, nks, |shell|, nOrb) && ShellOffsets(shell) &&
    forall k0, k1, s, o :: 0 <= k0 < nks[0] && 0 <= k1 < nks[1] && 0 <= s < |shell| && 0 <= o < nOrb ==>
      Step(nks, [k0, k1], shell[s]) &&
      bc[k0, k1, s, o] == if Flat(nks[1], k0, k1) < t then BoundaryRow(nks, nOrb, [k0, k1], shell[s])[o] else One
  }

  /** The inner loop of `get_boundary_phase` for the mesh index `(k0, k1)`:
      every offset whose step leaves the mesh gets the row of phases for `G`,
      which completes the rows up to the next row-major position. */
  method FillPoint(bc: array4<Phase>, nks: seq<nat>, nOrb: nat, shell: seq<seq<int>>, k0: nat, k1: nat)
    modifies bc
    requires |nks| == 2 && k0 < nks[0] && k1 < nks[1] && FilledBelow(bc, nks, nOrb, shell, Flat(nks[1], k0, k1))
    ensures FilledBelow(bc, nks, nOrb, shell, Flat(nks[1], k0, k1) + 1)
  {
    var n0, n1 := nks[0], nks[1];
    StepsInMesh(nks, shell);
    for s := 0 to |shell|
      invariant forall a, b, s', o :: 0 <= a < n0 && 0 <= b < n1 && 0 <= s' < |shell| && 0 <= o < nOrb ==>
        bc[a, b, s', o] ==
          if a == k0 && b == k1 && s' < s then BoundaryRow(nks, nOrb, [a, b], shell[s'])[o] else old(bc[a, b, s', o])
    {
      var idxVec := shell[s];
      assert Step(nks, [k0, k1], idxVec);
      var kNbrIdx := [k0 + idxVec[0], k1 + idxVec[1]];
      var modIdx := [kNbrIdx[0] % n0, kNbrIdx[1] % n1];
      var g := [(kNbrIdx[0] - modIdx[0]) / n0, (kNbrIdx[1] - modIdx[1]) / n1];
      assert g == CrossedG(nks, [k0, k1], idxVec);
      if !(0 <= kNbrIdx[0] < n0) || !(0 <= kNbrIdx[1] < n1) {
        forall o | 0 <= o < nOrb {
          bc[k0, k1, s, o] := PbcPhase(o, g);
        }
      }
    }
    FlatUnique(n0, n1, k0, k1);
  }

  /** `Bloch.get_boundary_phase(idx_shell)` on an `n0 x n1` mesh with `nOrb`
      orbitals: a table of shape `(n0, n1, len(idx_shell[0]), nOrb)` that starts
      at `1` everywhere and, visiting the mesh indices in `_idx_arr` order and
      the offsets in order, overwrites the row of every step that leaves the
      mesh. An empty `idx_shell` makes `idx_shell[0]` raise `IndexError`. */
  method BoundaryPhase(nks: seq<nat>, nOrb: nat, idxShell: seq<seq<seq<int>>>) returns (r: Result<array4<Phase>>)
    requires |nks| == 2
    requires |idxShell| > 0 ==> ShellOffsets(idxShell[0])
    ensures r.Ok? <==> |idxShell| > 0
    ensures r.Err? ==> r.error == IndexError
    ensures r.Ok? ==> fresh(r.value) && PhaseTable(r.value, nks, nOrb, idxShell[0])
  {
    if |idxShell| == 0 {
      return Err(IndexError);
    }
    var shell := idxShell[0];
    var n0, n1 := nks[0], nks[1];
    var bc := new Phase[n0, n1, |shell|, nOrb]((_, _, _, _) => One);
    StepsInMesh(nks, shell);
    FillTable(bc, nks, nOrb, shell);
    FlatBound(n0, n1);
    return Ok(bc);
  }

  /** The outer loop of `get_boundary_phase` over the mesh indices of
      `_idx_arr`, which visits them in row-major order. */
  method FillTable(bc: array4<Phase>, nks: seq<nat>, nOrb: nat, shell: seq<seq<int>>)
    modifies bc
    requires FilledBelow(bc, nks, nOrb, shell, 0)
    ensures FilledBelow(bc, nks, nOrb, shell, nks[0] * nks[1])
  {
    var n0, n1 := nks[0], nks[1];
    var kIdxArr := IdxArr(nks);
    IdxArrLength(nks);
    assert Prod(nks) == n0 * n1 by {
      assert nks[1..] == [n1] && [n1][1..] == [];
      assert Prod([n1]) == n1 * Prod([]);
    }
    for t := 0 to |kIdxArr|
      invariant FilledBelow(bc, nks, nOrb, shell, t)
    {
      IdxArrAt2(n0, n1, t);
      assert nks == [n0, n1];
      var kIdx := kIdxArr[t];
      DivBelow(t, n0, n1);
      var k0, k1 := kIdx[0], kIdx[1];
      assert Flat(n1, k0, k1) == t;
      FillPoint(bc, nks, nOrb, shell, k0, k1);
    }
  }

  /** Every mesh index steps by every offset of the shell. */
  lemma StepsInMesh(nks: seq<nat>, shell: seq<seq<int>>)
    requires |nks| == 2 && ShellOffsets(shell)
    ensures forall a, b, s :: 0 <= a < nks[0] && 0 <= b < nks[1] && 0 <= s < |shell| ==> Step(nks, [a, b], shell[s])
  {
    forall a, b, s | 0 <= a < nks[0] && 0 <= b < nks[1] && 0 <= s < |shell| ensures Step(nks, [a, b], shell[s]) {
      assert InBounds(nks, [a, b]);
    }
  }

  /** Only `(k0, k1)` itself sits at its row-major position. */
  lemma FlatUnique(n0: nat, n1: nat, k0: nat, k1: nat)
    requires k1 < n1
    ensures forall a, b :: 0 <= a < n0 && 0 <= b < n1 ==> (Flat(n1, a, b) == Flat(n1, k0, k1) <==> a == k0 && b == k1)
  {
    forall a, b | 0 <= a < n0 && 0 <= b < n1 && Flat(n1, a, b) == Flat(n1, k0, k1) ensures a == k0 && b == k1 {
      ModUnique(Flat(n1, k0, k1), n1, a, b);
      ModUnique(Flat(n1, k0, k1), n1, k0, k1);
    }
  }

  /** Every mesh index has a row-major position below `n0 * n1`. */
  lemma FlatBound(n0: nat, n1: nat)
    ensures forall a, b :: 0 <= a < n0 && 0 <= b < n1 ==> Flat(n1, a, b) < n0 * n1
  {
    forall a, b | 0 <= a < n0 && 0 <= b < n1 ensures Flat(n1, a, b) < n0 * n1 {
      assert Flat(n1, a, b) < (a + 1) * n1 <= n0 * n1;
    }
  }

  /** Row-major position of `(k0, k1)` in a mesh with `n1` points along the second axis. */
  function Flat(n1: nat, k0: int, k1: int): int {
    k0 * n1 + k1
  }

  // ---------------------------------------------------------------------
  // The neighbour map k -> (k + b) mod n

  /** Stepping by `b` and then by `-b` (also a shell offset, by
      `KShell.ShellSymmetric`) returns to the starting mesh index, so the
      neighbour map of every offset is a bijection of the mesh. */
  lemma NeighbourBack(n0: nat, n1: nat, k0: nat, k1: nat, b0: int, b1: int)
    requires k0 < n0 && k1 < n1
    ensures var m0, m1 := (k0 + b0) % n0, (k1 + b1) % n1;
      0 <= m0 < n0 && 0 <= m1 < n1 && (m0 - b0) % n0 == k0 && (m1 - b1) % n1 == k1
  {
    ModBack(k0, b0, n0);
    ModBack(k1, b1, n1);
  }

  // ---------------------------------------------------------------------
  // k_overlap_mat

  /** `idx_shell[0]` of `get_k_shell(N_sh=1, tol_dp=8)`: the offsets of the
      nearest shell, or the error raised on the way. */
  function FirstShell(nks: seq<nat>, recip: seq<seq<real>>): Result<seq<seq<int>>>
    requires Square(recip) && forall i :: 0 <= i < |nks| ==> nks[i] > 0
  {
    match GetKShell(nks, recip, 1, 8)
    case Err(e) => Err(e)
    case Ok(sh) => if |sh.idxShell| == 0 then Err(IndexError) else Ok(sh.idxShell[0])
  }

  /** On a two-dimensional mesh the nearest shell exists exactly when there are
      two reciprocal vectors; it is never empty, and its offsets are nonzero
      with every component in `{-1, 0, 1}`, so `CrossesAsWritten` agrees with
      `Crosses` on them. */
  lemma FirstShellSpec(nks: seq<nat>, recip: seq<seq<real>>)
    requires |nks| == 2 && (forall i :: 0 <= i < |nks| ==> nks[i] > 0) && Square(recip)
    ensures FirstShell(nks, recip).Ok? <==> |recip| >= 2
    ensures FirstShell(nks, recip).Err? ==> FirstShell(nks, recip).error == IndexError
    ensures FirstShell(nks, recip).Ok? ==>
      var shell := FirstShell(nks, recip).value;
      |shell| > 0 && ShellOffsets(shell) &&
      forall x :: x in shell ==> |x| == 2 && InCube(x, 1) && x != [0, 0]
  {
    GetKShellDefined(nks, recip, 1, 8);
    if |recip| >= 2 {
      var dk := DK(recip, nks);
      var offs := NnbrIdx(2, 1).value;
      var keep := ShellDists(dk, offs, 1, 8);
      NearestShellExists(dk, 1, 8);
      ShellMember(dk, offs, 1, 8, 0, [1, 0]);
      var sh := GetKShell(nks, recip, 1, 8).value;
      forall x | x in sh.idxShell[0] ensures |x| == 2 && InCube(x, 1) && x != [0, 0] {
        GetKShellMember(nks, recip, 1, 8, 0, x);
      }
      forall i | 0 <= i < |sh.idxShell[0]| ensures |sh.idxShell[0][i]| == 2 {
        assert sh.idxShell[0][i] in sh.idxShell[0];
      }
    }
  }

  /** With `N_sh >= 1` the offset `(1, 0)` is listed, so at least one shell is kept. */
  lemma NearestShellExists(dk: seq<seq<real>>, nSh: int, tolDp: int)
    requires nSh >= 1 && NnbrIdx(2, nSh).Ok? && Fits(dk, NnbrIdx(2, nSh).value)
    ensures |ShellDists(dk, NnbrIdx(2, nSh).value, nSh, tolDp)| > 0
  {
    NnbrIdxMember(2, nSh, [1, 0]);
    ShellsComplete(dk, NnbrIdx(2, nSh).value, nSh, tolDp, [1, 0]);
  }

  /** `bc_phase[k0, k1, s, :]`. */
  function PhaseSlice(bc: array4<Phase>, k0: nat, k1: nat, s: nat): (row: seq<Phase>)
    reads bc
    requires k0 < bc.Length0 && k1 < bc.Length1 && s < bc.Length2
    ensures |row| == bc.Length3 && forall o :: 0 <= o < |row| ==> row[o] == bc[k0, k1, s, o]
  {
    seq(bc.Length3, o requires 0 <= o < bc.Length3 reads bc => bc[k0, k1, s, o])
  }

  /** The overlap the slot `M[k, s]` should hold: the state at `k` against
      the state at `(k + b) mod n`, phased by the boundary row of the step. */
  function Overlap<S, B>(nks: seq<nat>, nOrb: nat, u: seq<seq<S>>,
                         scale: (S, seq<Phase>) -> S, braket: (S, S) -> B, k0: nat, k1: nat, b: seq<int>): B
    requires Step(nks, [k0, k1], b) && Grid2(u, nks[0], nks[1])
  {
    braket(u[k0][k1], scale(u[(k0 + b[0]) % nks[0]][(k1 + b[1]) % nks[1]], BoundaryRow(nks, nOrb, [k0, k1], b)))
  }

  /** `M` has the shape `(n0, n1, len(shell))` and slot `M[k, s]` holds the
      overlap of the state at `k` with its neighbour across offset `shell[s]`. */
  ghost predicate OverlapTable<S, B>(m: array3<B>, nks: seq<nat>, nOrb: nat, u: seq<seq<S>>,
                               scale: (S, seq<Phase>) -> S, braket: (S, S) -> B, shell: seq<seq<int>>)
    reads m
  {
    |nks| == 2 && Grid2(u, nks[0], nks[1]) &&
    m.Length0 == nks[0] && m.Length1 == nks[1] && m.Length2 == |shell| &&
    forall k0, k1, s :: 0 <= k0 < nks[0] && 0 <= k1 < nks[1] && 0 <= s < |shell| ==>
      Step(nks, [k0, k1], shell[s]) && m[k0, k1, s] == Overlap(nks, nOrb, u, scale, braket, k0, k1, shell[s])
  }

  /** The slot computed from the rolled states (`np.roll(u, -b)[k]`) is the
      overlap with the neighbour state at `(k + b) mod n`. */
  lemma OverlapRolled<S, B>(nks: seq<nat>, nOrb: nat, u: seq<seq<S>>,
                            scale: (S, seq<Phase>) -> S, braket: (S, S) -> B, k0: nat, k1: nat, b: seq<int>)
    requires Step(nks, [k0, k1], b) && Grid2(u, nks[0], nks[1])
    ensures Grid2(Roll2(u, -b[0], -b[1]), nks[0], nks[1])
    ensures Overlap(nks, nOrb, u, scale, braket, k0, k1, b) ==
      braket(u[k0][k1], scale(Roll2(u, -b[0], -b[1])[k0][k1], BoundaryRow(nks, nOrb, [k0, k1], b)))
  {
    RollNeighbour(u, nks[0], nks[1], b[0], b[1], k0, k1);
  }

  /** One pass of the loop of `k_overlap_mat`: `M[..., idx, :, :]` gets the
      inner products with the states rolled by `-b`, times the phases
      `bc_phase[..., idx, :]`. */
  method FillSlot<S, B>(m: array3<B>, bc: array4<Phase>, nks: seq<nat>, nOrb: nat, u: seq<seq<S>>,
                        scale: (S, seq<Phase>) -> S, braket: (S, S) -> B, shell: seq<seq<int>>, idx: nat)
    modifies m
    requires PhaseTable(bc, nks, nOrb, shell) && Grid2(u, nks[0], nks[1]) && ShellOffsets(shell) && idx < |shell|
    requires m.Length0 == nks[0] && m.Length1 == nks[1] && m.Length2 == |shell|
    ensures forall k0, k1, s :: 0 <= k0 < nks[0] && 0 <= k1 < nks[1] && 0 <= s < |shell| ==>
      m[k0, k1, s] == if s == idx then Overlap(nks, nOrb, u, scale, braket, k0, k1, shell[s]) else old(m[k0, k1, s])
  {
    var n0, n1 := nks[0], nks[1];
    var idxVec := shell[idx];
    StepsInMesh(nks, shell);
    var statesPbc := Roll2(u, -idxVec[0], -idxVec[1]);
    RolledGrid(u, n0, n1, idxVec[0], idxVec[1]);
    assert |statesPbc| == n0 && forall k0 :: 0 <= k0 < n0 ==> |statesPbc[k0]| == n1;
    forall k0, k1 | 0 <= k0 < n0 && 0 <= k1 < n1
      ensures braket(u[k0][k1], scale(statesPbc[k0][k1], PhaseSlice(bc, k0, k1, idx)))
              == Overlap(nks, nOrb, u, scale, braket, k0, k1, idxVec)
    {
      PhaseSliceRow(bc, nks, nOrb, shell, k0, k1, idx);
      OverlapRolled(nks, nOrb, u, scale, braket, k0, k1, idxVec);
    }
    forall k0, k1 | 0 <= k0 < n0 && 0 <= k1 < n1 {
      m[k0, k1, idx] := braket(u[k0][k1], scale(statesPbc[k0][k1], PhaseSlice(bc, k0, k1, idx)));
    }
  }

  /** Reading a row back from the phase table gives the boundary row. */
  lemma PhaseSliceRow(bc: array4<Phase>, nks: seq<nat>, nOrb: nat, shell: seq<seq<int>>, k0: nat, k1: nat, s: nat)
    requires PhaseTable(bc, nks, nOrb, shell) && k0 < nks[0] && k1 < nks[1] && s < |shell| && ShellOffsets(shell)
    ensures Step(nks, [k0, k1], shell[s]) && PhaseSlice(bc, k0, k1, s) == BoundaryRow(nks, nOrb, [k0, k1], shell[s])
  {
    StepsInMesh(nks, shell);
    var row, want := PhaseSlice(bc, k0, k1, s), BoundaryRow(nks, nOrb, [k0, k1], shell[s]);
    assert |row| == |want|;
    forall o | 0 <= o < nOrb ensures row[o] == want[o] {
    }
  }

  /** `Bloch.k_overlap_mat()` on an `n0 x n1` mesh of states `u[k0][k1]` with
      `nOrb` orbitals. For each offset `b` of the nearest shell it rolls the
      states by `-b`, multiplies the orbital components by the boundary phases
      (`scale`) and takes the band-by-band inner products with the unrolled
      states (`braket`, one `n_states x n_states` block per mesh point).
      Slot `M[k, idx]` therefore pairs the state at `k` with the state at
      `(k + b) mod n`, phased exactly when the step crossed the zone edge. */
  method KOverlapMat<S, B>(nks: seq<nat>, recip: seq<seq<real>>, nOrb: nat, u: seq<seq<S>>,
                           scale: (S, seq<Phase>) -> S, braket: (S, S) -> B, zero: B)
    returns (r: Result<array3<B>>)
    requires |nks| == 2 && (forall i :: 0 <= i < |nks| ==> nks[i] > 0) && Square(recip) && Grid2(u, nks[0], nks[1])
    ensures r.Ok? <==> |recip| >= 2
    ensures r.Err? ==> r.error == IndexError
    ensures r.Ok? ==>
      FirstShell(nks, recip).Ok? && fresh(r.value) &&
      OverlapTable(r.value, nks, nOrb, u, scale, braket, FirstShell(nks, recip).value)
  {
    var shells := GetKShell(nks, recip, 1, 8);
    FirstShellSpec(nks, recip);
    if shells.Err? {
      return Err(shells.error);
    }
    var idxShell := shells.value.idxShell;
    var bcr := BoundaryPhase(nks, nOrb, idxShell);
    var bc := bcr.value;
    var m := NewOverlaps(bc, nks, nOrb, u, scale, braket, zero, idxShell[0]);
    return Ok(m);
  }

  /** `M = np.zeros(...)` followed by the loop that fills it. */
  method NewOverlaps<S, B>(bc: array4<Phase>, nks: seq<nat>, nOrb: nat, u: seq<seq<S>>,
                           scale: (S, seq<Phase>) -> S, braket: (S, S) -> B, zero: B, shell: seq<seq<int>>)
    returns (m: array3<B>)
    requires PhaseTable(bc, nks, nOrb, shell) && Grid2(u, nks[0], nks[1]) && ShellOffsets(shell)
    ensures fresh(m) && OverlapTable(m, nks, nOrb, u, scale, braket, shell)
  {
    m := new B[nks[0], nks[1], |shell|]((_, _, _) => zero);
    FillOverlaps(m, bc, nks, nOrb, u, scale, braket, shell);
  }

  /** The loop of `k_overlap_mat` over the offsets of the nearest shell. */
  method FillOverlaps<S, B>(m: array3<B>, bc: array4<Phase>, nks: seq<nat>, nOrb: nat, u: seq<seq<S>>,
                            scale: (S, seq<Phase>) -> S, braket: (S, S) -> B, shell: seq<seq<int>>)
    modifies m
    requires PhaseTable(bc, nks, nOrb, shell) && Grid2(u, nks[0], nks[1]) && ShellOffsets(shell)
    requires m.Length0 == nks[0] && m.Length1 == nks[1] && m.Length2 == |shell|
    ensures OverlapTable(m, nks, nOrb, u, scale, braket, shell)
  {
    StepsInMesh(nks, shell);
    for idx := 0 to |shell|
      invariant forall k0, k1, s :: 0 <= k0 < nks[0] && 0 <= k1 < nks[1] && 0 <= s < idx ==>
        m[k0, k1, s] == Overlap(nks, nOrb, u, scale, braket, k0, k1, shell[s])
    {
      FillSlot(m, bc, nks, nOrb, u, scale, braket, shell, idx);
    }
  }
}
