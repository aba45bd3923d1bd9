/** The linear system of `K_mesh.get_weights` (WanPy/pythTB_wan.py:119-135):
    one equation per Cartesian index pair `(alpha, beta)`, one unknown weight
    per shell, `A[j, s] = sum over shell s of b[alpha] * b[beta]` and
    `q[j] = 1` exactly on the diagonal pairs. A weight vector solves it exactly
    when `sum_s w_s sum_{b in shell s} b_alpha b_beta = delta_{alpha beta}`,
    the finite-difference condition of Marzari and Vanderbilt. */
module KWeights {
  import opened Errors
  import opened KShell

  /** The pairs `(a, b)` with `lo <= a <= b < d`, lexicographically. */
  function PairsFrom(lo: nat, d: nat): seq<(nat, nat)>
    decreases d - lo
  {
    if lo >= d then []
    else seq(d - lo, j requires 0 <= j < d - lo => (lo, lo + j)) + PairsFrom(lo + 1, d)
  }

  /** `list(combinations_with_replacement(range(d), 2))`. */
  function CartIdx(d: nat): seq<(nat, nat)> {
    PairsFrom(0, d)
  }

  lemma {:induction false} PairsFromMember(lo: nat, d: nat, p: (nat, nat))
    ensures p in PairsFrom(lo, d) <==> lo <= p.0 <= p.1 < d
    decreases d - lo
  {
    if lo < d {
      var row := seq(d - lo, j requires 0 <= j < d - lo => (lo, lo + j));
      PairsFromMember(lo + 1, d, p);
      if p.0 == lo && p.0 <= p.1 < d { assert row[p.1 - lo] == p; }
    }
  }

  lemma {:induction false} PairsFromLength(lo: nat, d: nat)
    ensures 2 * |PairsFrom(lo, d)| == if lo < d then (d - lo) * (d - lo + 1) else 0
    decreases d - lo
  {
    if lo < d { PairsFromLength(lo + 1, d); }
  }

  /** `Cart_idx` lists exactly the pairs with `alpha <= beta < d`, ... */
  lemma CartIdxMember(d: nat, p: (nat, nat))
    ensures p in CartIdx(d) <==> p.0 <= p.1 < d
  {
    PairsFromMember(0, d, p);
  }

  /** ... so `n_comb = d (d + 1) / 2`, ... */
  lemma CartIdxLength(d: nat)
    ensures 2 * |CartIdx(d)| == d * (d + 1)
  {
    PairsFromLength(0, d);
  }

  predicate PairLess(p: (nat, nat), q: (nat, nat)) {
    p.0 < q.0 || (p.0 == q.0 && p.1 < q.1)
  }

  lemma {:induction false} PairsFromSorted(lo: nat, d: nat)
    ensures forall i, j :: 0 <= i < j < |PairsFrom(lo, d)| ==> PairLess(PairsFrom(lo, d)[i], PairsFrom(lo, d)[j])
    decreases d - lo
  {
    if lo < d {
      var row := seq(d - lo, j requires 0 <= j < d - lo => (lo, lo + j));
      var rest := PairsFrom(lo + 1, d);
      PairsFromSorted(lo + 1, d);
      var all := row + rest;
      forall i, j | 0 <= i < j < |all| ensures PairLess(all[i], all[j]) {
        if j >= |row| {
          PairsFromMember(lo + 1, d, all[j]);
          assert all[j] == rest[j - |row|] && all[j] in rest;
          if i >= |row| { assert all[i] == rest[i - |row|]; }
        }
      }
    }
  }

  /** ... each once, in lexicographic order. */
  lemma CartIdxSorted(d: nat)
    ensures forall i, j :: 0 <= i < j < |CartIdx(d)| ==> PairLess(CartIdx(d)[i], CartIdx(d)[j])
  {
    PairsFromSorted(0, d);
  }

  // ---------------------------------------------------------------------
  // The entries of A and q

  /** Every vector of every shell has at least `d` components. */
  predicate Wide(kShell: seq<seq<seq<real>>>, d: nat) {
    forall s, i :: 0 <= s < |kShell| && 0 <= i < |kShell[s]| ==> |kShell[s][i]| >= d
  }

  /** `sum(b[alpha] * b[beta] for b in shell[:n])`. */
  function MomentUpTo(shell: seq<seq<real>>, alpha: nat, beta: nat, n: nat): real
    requires n <= |shell| && forall i :: 0 <= i < |shell| ==> alpha < |shell[i]| && beta < |shell[i]|
  {
    if n == 0 then 0.0 else MomentUpTo(shell, alpha, beta, n - 1) + shell[n - 1][alpha] * shell[n - 1][beta]
  }

  /** The second moment `sum_{b in shell} b_alpha b_beta` of a shell. */
  function Moment(shell: seq<seq<real>>, alpha: nat, beta: nat): real
    requires forall i :: 0 <= i < |shell| ==> alpha < |shell[i]| && beta < |shell[i]|
  {
    MomentUpTo(shell, alpha, beta, |shell|)
  }

  lemma {:induction false} MomentUpToSymmetric(shell: seq<seq<real>>, alpha: nat, beta: nat, n: nat)
    requires n <= |shell| && forall i :: 0 <= i < |shell| ==> alpha < |shell[i]| && beta < |shell[i]|
    ensures MomentUpTo(shell, alpha, beta, n) == MomentUpTo(shell, beta, alpha, n)
  {
    if n > 0 { MomentUpToSymmetric(shell, alpha, beta, n - 1); }
  }

  function Delta(alpha: nat, beta: nat): real {
    if alpha == beta then 1.0 else 0.0
  }

  /** `sum_{s < |w|} w[s] * Moment(kShell[s], alpha, beta)`. */
  function WeightedMoment(kShell: seq<seq<seq<real>>>, d: nat, w: seq<real>, alpha: nat, beta: nat): real
    requires |w| <= |kShell| && Wide(kShell, d) && alpha < d && beta < d
  {
    if |w| == 0 then 0.0
    else WeightedMoment(kShell, d, w[..|w| - 1], alpha, beta) + w[|w| - 1] * Moment(kShell[|w| - 1], alpha, beta)
  }

  lemma {:induction false} WeightedMomentSymmetric(kShell: seq<seq<seq<real>>>, d: nat, w: seq<real>, alpha: nat, beta: nat)
    requires |w| <= |kShell| && Wide(kShell, d) && alpha < d && beta < d
    ensures WeightedMoment(kShell, d, w, alpha, beta) == WeightedMoment(kShell, d, w, beta, alpha)
    decreases |w|
  {
    if |w| > 0 {
      WeightedMomentSymmetric(kShell, d, w[..|w| - 1], alpha, beta);
      MomentUpToSymmetric(kShell[|w| - 1], alpha, beta, |kShell[|w| - 1]|);
    }
  }

  /** `A w == q`, row by row, with `A[j, s] = Moment(kShell[s], Cart_idx[j])`. */
  predicate SolvesSystem(kShell: seq<seq<seq<real>>>, d: nat, w: seq<real>)
    requires |w| <= |kShell| && Wide(kShell, d)
  {
    forall j :: 0 <= j < |CartIdx(d)| ==>
      CartIdx(d)[j].0 < d && CartIdx(d)[j].1 < d &&
      WeightedMoment(kShell, d, w, CartIdx(d)[j].0, CartIdx(d)[j].1) == Delta(CartIdx(d)[j].0, CartIdx(d)[j].1)
  }

  /** `sum_s w_s sum_{b in shell s} b_alpha b_beta = delta_{alpha beta}` for every pair. */
  predicate Complete(kShell: seq<seq<seq<real>>>, d: nat, w: seq<real>)
    requires |w| <= |kShell| && Wide(kShell, d)
  {
    forall alpha: nat, beta: nat :: alpha < d && beta < d ==>
      WeightedMoment(kShell, d, w, alpha, beta) == Delta(alpha, beta)
  }

  /** Solving the `n_comb` equations of `get_weights` is the same as the
      completeness condition over all `d * d` pairs: the pairs with
      `alpha > beta` follow by symmetry. */
  lemma SolvesIffComplete(kShell: seq<seq<seq<real>>>, d: nat, w: seq<real>)
    requires |w| <= |kShell| && Wide(kShell, d)
    ensures SolvesSystem(kShell, d, w) <==> Complete(kShell, d, w)
  {
    var cart := CartIdx(d);
    forall j | 0 <= j < |cart| ensures cart[j].0 < d && cart[j].1 < d {
      CartIdxMember(d, cart[j]);
    }
    if SolvesSystem(kShell, d, w) {
      forall alpha: nat, beta: nat | alpha < d && beta < d
        ensures WeightedMoment(kShell, d, w, alpha, beta) == Delta(alpha, beta)
      {
        var p := if alpha <= beta then (alpha, beta) else (beta, alpha);
        CartIdxMember(d, p);
        var j :| 0 <= j < |cart| && cart[j] == p;
        WeightedMomentSymmetric(kShell, d, w, alpha, beta);
      }
    }
  }

  // ---------------------------------------------------------------------
  // Assembly

  /** The arrays `A` (`n_comb x N_sh`) and `q` (`n_comb`). */
  datatype WeightSystem = WeightSystem(A: array2<real>, q: array<real>)

  /** The loops of `get_weights` that fill `A` and `q`. Reading `k_shell[s]`
      for `s >= len(k_shell)` raises `IndexError`; with no Cartesian pair the
      loop body never runs. */
  method AssembleWeightSystem(kShell: seq<seq<seq<real>>>, d: nat, nSh: nat) returns (r: Result<WeightSystem>)
    requires Wide(kShell, d)
    ensures r.Ok? <==> |CartIdx(d)| == 0 || nSh <= |kShell|
    ensures r.Err? ==> r.error == IndexError
    ensures r.Ok? ==>
      var cart := CartIdx(d);
      var sys := r.value;
      fresh(sys.A) && fresh(sys.q) &&
      sys.A.Length0 == |cart| && sys.A.Length1 == nSh && sys.q.Length == |cart| &&
      (forall j :: 0 <= j < |cart| ==> cart[j].0 <= cart[j].1 < d && sys.q[j] == Delta(cart[j].0, cart[j].1)) &&
      (forall j, s :: 0 <= j < |cart| && 0 <= s < nSh ==>
         s < |kShell| && sys.A[j, s] == Moment(kShell[s], cart[j].0, cart[j].1))
  {
    var cart := CartIdx(d);
    forall j | 0 <= j < |cart| ensures cart[j].0 <= cart[j].1 < d {
      CartIdxMember(d, cart[j]);
    }
    var A := new real[|cart|, nSh]((_, _) => 0.0);
    var q := new real[|cart|](_ => 0.0);
    for j := 0 to |cart|
      invariant j > 0 ==> nSh <= |kShell|
      invariant forall j', s :: 0 <= j' < j && 0 <= s < nSh ==>
        s < |kShell| && A[j', s] == Moment(kShell[s], cart[j'].0, cart[j'].1)
      invariant forall j', s :: j <= j' < |cart| && 0 <= s < nSh ==> A[j', s] == 0.0
      invariant forall j' :: 0 <= j' < j ==> q[j'] == Delta(cart[j'].0, cart[j'].1)
      invariant forall j' :: j <= j' < |cart| ==> q[j'] == 0.0
    {
      var (alpha, beta) := cart[j];
      if alpha == beta {
        q[j] := 1.0;
      }
      var ok := FillPair(A, kShell, d, j, alpha, beta);
      if !ok {
        return Err(IndexError);
      }
    }
    return Ok(WeightSystem(A, q));
  }

  /** The loop over `s in range(N_sh)` for one Cartesian pair: row `j` of `A`
      gets the moments of the shells `0 .. N_sh - 1`, or `IndexError` is raised
      at the first missing shell. No other row changes. */
  method FillPair(A: array2<real>, kShell: seq<seq<seq<real>>>, d: nat, j: nat, alpha: nat, beta: nat)
    returns (ok: bool)
    modifies A
    requires Wide(kShell, d) && alpha < d && beta < d && j < A.Length0
    requires forall t :: 0 <= t < A.Length1 ==> A[j, t] == 0.0
    ensures ok <==> A.Length1 <= |kShell|
    ensures ok ==> forall t :: 0 <= t < A.Length1 ==> t < |kShell| && A[j, t] == Moment(kShell[t], alpha, beta)
    ensures forall a, t :: 0 <= a < A.Length0 && 0 <= t < A.Length1 && a != j ==> A[a, t] == old(A[a, t])
  {
    for s := 0 to A.Length1
      invariant s <= |kShell|
      invariant forall t :: 0 <= t < s ==> A[j, t] == Moment(kShell[t], alpha, beta)
      invariant forall t :: s <= t < A.Length1 ==> A[j, t] == 0.0
      invariant forall a, t :: 0 <= a < A.Length0 && 0 <= t < A.Length1 && a != j ==> A[a, t] == old(A[a, t])
    {
      if s >= |kShell| {
        return false;
      }
      AccumulateMoment(A, j, s, kShell[s], alpha, beta);
    }
    return true;
  }

  /** `for i in range(b_star.shape[0]): A[j, s] += b[alpha] * b[beta]` on a
      zero entry; no other entry changes. */
  method AccumulateMoment(A: array2<real>, j: nat, s: nat, bStar: seq<seq<real>>, alpha: nat, beta: nat)
    modifies A
    requires j < A.Length0 && s < A.Length1 && A[j, s] == 0.0
    requires forall i :: 0 <= i < |bStar| ==> alpha < |bStar[i]| && beta < |bStar[i]|
    ensures A[j, s] == Moment(bStar, alpha, beta)
    ensures forall a, t :: 0 <= a < A.Length0 && 0 <= t < A.Length1 && (a != j || t != s) ==> A[a, t] == old(A[a, t])
  {
    for i := 0 to |bStar|
      invariant A[j, s] == MomentUpTo(bStar, alpha, beta, i)
      invariant forall a, t :: 0 <= a < A.Length0 && 0 <= t < A.Length1 && (a != j || t != s) ==> A[a, t] == old(A[a, t])
    {
      var b := bStar[i];
      A[j, s] := A[j, s] + b[alpha] * b[beta];
    }
  }

  /** The vectors `b` of the shells have one component per reciprocal lattice vector. */
  lemma ShellsWide(nks: seq<nat>, recip: seq<seq<real>>, nSh: int, tolDp: int)
    requires Square(recip) && forall i :: 0 <= i < |nks| ==> nks[i] > 0
    requires GetKShell(nks, recip, nSh, tolDp).Ok?
    ensures Wide(GetKShell(nks, recip, nSh, tolDp).value.kShell, |nks|)
  {
    GetKShellDefined(nks, recip, nSh, tolDp);
    var dk := DK(recip, nks);
    var offs := NnbrIdx(2, nSh).value;
    var sh := GetKShell(nks, recip, nSh, tolDp).value;
    forall s, i | 0 <= s < |sh.kShell| && 0 <= i < |sh.kShell[s]| ensures |sh.kShell[s][i]| >= |nks| {
      ShellVectors(dk, offs, nSh, tolDp, s, i);
    }
  }

  /** `get_weights(N_sh)` up to the linear solve: the shells of
      `get_k_shell(N_sh)` (with its default `tol_dp = 8`) and the system
      `A`, `q` built from them. Fewer distinct distances than `N_sh` make
      `k_shell[s]` raise `IndexError`. */
  method GetWeightSystem(nks: seq<nat>, recip: seq<seq<real>>, nSh: int) returns (r: Result<(Shells, WeightSystem)>)
    requires Square(recip) && forall i :: 0 <= i < |nks| ==> nks[i] > 0
    ensures r.Ok? <==> GetKShell(nks, recip, nSh, 8).Ok? && nSh <= |GetKShell(nks, recip, nSh, 8).value.kShell|
    ensures r.Err? && GetKShell(nks, recip, nSh, 8).Err? ==> r.error == GetKShell(nks, recip, nSh, 8).error
    ensures r.Err? && GetKShell(nks, recip, nSh, 8).Ok? ==> r.error == IndexError
    ensures r.Ok? ==>
      var sh := GetKShell(nks, recip, nSh, 8).value;
      var sys := r.value.1;
      var cart := CartIdx(2);
      r.value.0 == sh && nSh >= 0 && |nks| == 2 && Wide(sh.kShell, 2) &&
      fresh(sys.A) && fresh(sys.q) &&
      sys.A.Length0 == |cart| == 3 && sys.A.Length1 == nSh && sys.q.Length == 3 &&
      (forall j :: 0 <= j < 3 ==> cart[j].0 <= cart[j].1 < 2 && sys.q[j] == Delta(cart[j].0, cart[j].1)) &&
      (forall j, s :: 0 <= j < 3 && 0 <= s < nSh ==>
         s < |sh.kShell| && sys.A[j, s] == Moment(sh.kShell[s], cart[j].0, cart[j].1))
  {
    var shells := GetKShell(nks, recip, nSh, 8);
    if shells.Err? {
      return Err(shells.error);
    }
    GetKShellDefined(nks, recip, nSh, 8);
    ShellsWide(nks, recip, nSh, 8);
    CartIdxLength(2);
    var sys := AssembleWeightSystem(shells.value.kShell, |nks|, nSh);
    if sys.Err? {
      return Err(sys.error);
    }
    return Ok((shells.value, sys.value));
  }
}
