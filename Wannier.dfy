/** The index bookkeeping of `Wannier` (WanPy/pythTB_wan.py:329-359 and
    708-712): the table of trial functions built from site or
    `(site, amplitude)` specifications, and the update of the overlap matrix
    by the gauge transformation `U`, which pairs every mesh point with its
    neighbour through `np.roll`.

    Amplitudes are real. Normalising divides by a square root, which Dafny's
    reals do not have, so an entry is kept symbolically as `num / sqrt(radicand)`. */
module Wannier {
  import opened Errors
  import opened Bloch

  // ---------------------------------------------------------------------
  // NumPy indexing along the orbital axis

  /** `tfs[j, i]` on an axis of length `n`: a negative index counts from the
      end, and anything outside `[-n, n)` raises `IndexError`. */
  function NpIndex(i: int, n: nat): (r: Result<nat>)
    ensures r.Ok? <==> -(n as int) <= i < n
    ensures r.Err? ==> r.error == IndexError
    ensures r.Ok? ==> r.value < n && r.value == i % n
  {
    if 0 <= i < n then
      ModUnique(i, n, 0, i);
      Ok(i)
    else if -(n as int) <= i < 0 then
      ModUnique(i, n, -1, i + n);
      Ok(i + n)
    else
      Err(IndexError)
  }

  /** Index `i` addresses orbital `o`. */
  predicate Hits(i: int, n: nat, o: nat) {
    NpIndex(i, n).Ok? && NpIndex(i, n).value == o
  }

  // ---------------------------------------------------------------------
  // Amplitudes

  /** The number `num / sqrt(radicand)`; a zero radicand stands for the NaN
      that NumPy produces when it divides a zero row by `sqrt(0)`. */
  datatype Amp = Amp(num: real, radicand: real)

  const Zero: Amp := Amp(0.0, 1.0)
  const Unit: Amp := Amp(1.0, 1.0)

  /** The product `x * y`, kept behind a function so that the solver treats it
      as one term. */
  function Mul(x: real, y: real): real {
    x * y
  }

  lemma MulPos(x: real, y: real)
    requires x > 0.0 && y > 0.0
    ensures Mul(x, y) > 0.0
  {
  }

  /** `|x|^2` of a real amplitude: never negative, and zero only for `0`. */
  function Sq(x: real): (r: real)
    ensures r >= 0.0
    ensures r == 0.0 <==> x == 0.0
  {
    if x == 0.0 then 0.0
    else if x > 0.0 then MulPos(x, x); Mul(x, x)
    else MulPos(-x, -x); Mul(-x, -x)
  }

  /** The squared length `sum_o |row[o]|^2` of a row of amplitudes (NaN entries
      contribute nothing). */
  function NormSq(row: seq<Amp>): (r: real)
  {
    if |row| == 0 then 0.0
    else (if row[0].radicand == 0.0 then 0.0 else Sq(row[0].num) / row[0].radicand) + NormSq(row[1..])
  }

  /** `sum(abs(row))` of a row of real amplitudes. */
  function AbsSum(row: seq<real>): (r: real)
    ensures r >= 0.0
  {
    if |row| == 0 then 0.0 else (if row[0] < 0.0 then -row[0] else row[0]) + AbsSum(row[1..])
  }

  /** `sum(abs(row)**2)` of a row of real amplitudes. */
  function SqSum(row: seq<real>): (r: real)
    ensures r >= 0.0
  {
    if |row| == 0 then 0.0 else Sq(row[0]) + SqSum(row[1..])
  }

  /** `row / sqrt(total)`, entry by entry. */
  function Scaled(row: seq<real>, total: real): (r: seq<Amp>)
    ensures |r| == |row| && forall o :: 0 <= o < |row| ==> r[o] == Amp(row[o], total)
  {
    if |row| == 0 then [] else [Amp(row[0], total)] + Scaled(row[1..], total)
  }

  /** Normalising a row as line 354 writes it: dividing by `sqrt(sum(abs(row)))`. */
  function NormaliseAsWritten(row: seq<real>): seq<Amp> {
    Scaled(row, AbsSum(row))
  }

  /** Normalising a row to unit length: dividing by `sqrt(sum(abs(row)**2))`. */
  function Normalise(row: seq<real>): seq<Amp> {
    Scaled(row, SqSum(row))
  }

  /** Dividing every entry by the same `sqrt(total)` divides the squared
      length by `total`. */
  lemma {:induction false} NormSqScaled(row: seq<real>, total: real)
    requires total > 0.0
    ensures NormSq(Scaled(row, total)) == SqSum(row) / total
  {
    if |row| > 0 {
      NormSqScaled(row[1..], total);
      assert Scaled(row, total)[1..] == Scaled(row[1..], total);
      DivAdd(Sq(row[0]), SqSum(row[1..]), total);
    }
  }

  /** A row with some nonzero amplitude is normalised to unit length. */
  lemma NormaliseUnit(row: seq<real>)
    requires SqSum(row) > 0.0
    ensures NormSq(Normalise(row)) == 1.0
  {
    NormSqScaled(row, SqSum(row));
    DivSelf(SqSum(row));
  }

  lemma DivAdd(a: real, b: real, t: real)
    requires t > 0.0
    ensures a / t + b / t == (a + b) / t
  {
  }

  lemma DivSelf(t: real)
    requires t > 0.0
    ensures t / t == 1.0
  {
  }

  /** The squared length vanishes exactly for an all-zero row, the case in
      which normalising leaves every entry NaN. */
  lemma {:induction false} SqSumZero(row: seq<real>)
    ensures SqSum(row) == 0.0 <==> forall o :: 0 <= o < |row| ==> row[o] == 0.0
  {
    if |row| > 0 {
      SqSumZero(row[1..]);
      assert forall o :: 1 <= o < |row| ==> row[o] == row[1..][o - 1];
    }
  }

  /** When every amplitude is `0` or `+-1`, `sum(abs(row))` and the squared
      length coincide, so the normalisation of line 354 is right on those rows. */
  lemma {:induction false} AsWrittenAgreesOnUnitAmplitudes(row: seq<real>)
    requires forall o :: 0 <= o < |row| ==> row[o] == 0.0 || row[o] == 1.0 || row[o] == -1.0
    ensures NormaliseAsWritten(row) == Normalise(row)
  {
    SumsAgree(row);
  }

  lemma {:induction false} SumsAgree(row: seq<real>)
    requires forall o :: 0 <= o < |row| ==> row[o] == 0.0 || row[o] == 1.0 || row[o] == -1.0
    ensures AbsSum(row) == SqSum(row)
  {
    if |row| > 0 {
      assert forall o :: 0 <= o < |row[1..]| ==> row[1..][o] == row[o + 1];
      SumsAgree(row[1..]);
    }
  }

  /** The single amplitude `2` is divided by `sqrt(2)` as written, which leaves
      a row of squared length `2` instead of `1`. */
  lemma AsWrittenNotUnit()
    ensures NormaliseAsWritten([2.0]) == [Amp(2.0, 2.0)]
    ensures NormSq(NormaliseAsWritten([2.0])) == 2.0
    ensures NormSq(Normalise([2.0])) == 1.0
  {
    assert [2.0][1..] == [];
    NormaliseUnit([2.0]);
  }

  // ---------------------------------------------------------------------
  // Trial-function rows

  /** One entry of `tf_list`: an integer site, a list of `(site, amplitude)`
      pairs, or anything else. */
  datatype TrialSpec = Site(site: int) | Pairs(pairs: seq<(int, real)>) | Other

  function Zeros(n: nat): (r: seq<real>)
    ensures |r| == n && forall o :: 0 <= o < n ==> r[o] == 0.0
  {
    seq(n, _ => 0.0)
  }

  /** `tfs[j, site] = amp` for every pair in order, on a row of `|row|`
      orbitals; the first site out of range raises `IndexError`. */
  function SetAll(row: seq<real>, ps: seq<(int, real)>): (r: Result<seq<real>>)
    ensures r.Ok? ==> |r.value| == |row|
    ensures r.Err? ==> r.error == IndexError
    decreases |ps|
  {
    if |ps| == 0 then Ok(row)
    else match SetAll(row, ps[..|ps| - 1])
      case Err(e) => Err(e)
      case Ok(prev) =>
        var last := ps[|ps| - 1];
        match NpIndex(last.0, |row|)
        case Err(e) => Err(e)
        case Ok(o) => Ok(prev[o := last.1])
  }

  /** The amplitude of the last pair whose site addresses orbital `o`, if any. */
  function Written(ps: seq<(int, real)>, n: nat, o: nat): (r: seq<real>)
    ensures |r| <= 1
    decreases |ps|
  {
    if |ps| == 0 then []
    else if Hits(ps[|ps| - 1].0, n, o) then [ps[|ps| - 1].1]
    else Written(ps[..|ps| - 1], n, o)
  }

  /** `Written` picks the amplitude of the last pair addressing `o`. */
  lemma {:induction false} WrittenLast(ps: seq<(int, real)>, n: nat, o: nat)
    ensures |Written(ps, n, o)| == 1 <==> exists p :: 0 <= p < |ps| && Hits(ps[p].0, n, o)
    ensures |Written(ps, n, o)| == 1 ==>
      exists p :: 0 <= p < |ps| && Hits(ps[p].0, n, o) && Written(ps, n, o)[0] == ps[p].1 &&
        forall q :: p < q < |ps| ==> !Hits(ps[q].0, n, o)
    decreases |ps|
  {
    if |ps| > 0 {
      var init := ps[..|ps| - 1];
      WrittenLast(init, n, o);
      assert forall p :: 0 <= p < |init| ==> init[p] == ps[p];
      if !Hits(ps[|ps| - 1].0, n, o) && |Written(init, n, o)| == 1 {
        var p :| 0 <= p < |init| && Hits(init[p].0, n, o) && Written(init, n, o)[0] == init[p].1 &&
          forall q :: p < q < |init| ==> !Hits(init[q].0, n, o);
        assert forall q :: p < q < |ps| ==> !Hits(ps[q].0, n, o) by {
          forall q | p < q < |ps| ensures !Hits(ps[q].0, n, o) {
            if q < |init| { assert !Hits(init[q].0, n, o); }
          }
        }
      }
      if exists p :: 0 <= p < |ps| && Hits(ps[p].0, n, o) {
        var p :| 0 <= p < |ps| && Hits(ps[p].0, n, o);
        if p < |init| { assert Hits(init[p].0, n, o); }
      }
    }
  }

  /** Setting the pairs in order succeeds exactly when every site is in range,
      and then leaves at each orbital the amplitude of the last pair addressing
      it (later duplicates overwrite earlier ones), and the old entry where no
      pair does. */
  lemma {:induction false} SetAllSpec(row: seq<real>, ps: seq<(int, real)>)
    ensures SetAll(row, ps).Ok? <==> forall p :: 0 <= p < |ps| ==> -(|row| as int) <= ps[p].0 < |row|
    ensures SetAll(row, ps).Ok? ==>
      forall o :: 0 <= o < |row| ==>
        SetAll(row, ps).value[o] == if |Written(ps, |row|, o)| == 1 then Written(ps, |row|, o)[0] else row[o]
    decreases |ps|
  {
    if |ps| > 0 {
      var init := ps[..|ps| - 1];
      SetAllSpec(row, init);
      assert forall p :: 0 <= p < |init| ==> init[p] == ps[p];
      if SetAll(row, ps).Ok? {
        forall p | 0 <= p < |ps| ensures -(|row| as int) <= ps[p].0 < |row| {
          if p < |init| { assert -(|row| as int) <= init[p].0 < |row|; }
        }
      }
    }
  }

  /** A one-hot row: `1` at `site`, `0` elsewhere. */
  function OneHot(n: nat, site: nat): (row: seq<Amp>)
    ensures |row| == n && forall o :: 0 <= o < n ==> row[o] == if o == site then Unit else Zero
  {
    seq(n, o => if o == site then Unit else Zero)
  }

  /** Row `j` of `get_trial_wfs` for the entry `tf` and `n` orbitals, with the
      normalisation giving unit length. */
  function TrialRow(tf: TrialSpec, n: nat): (r: Result<seq<Amp>>)
    ensures r.Ok? ==> |r.value| == n
  {
    match tf
    case Site(s) =>
      (match NpIndex(s, n)
       case Err(e) => Err(e)
       case Ok(o) => Ok(OneHot(n, o)))
    case Pairs(ps) =>
      (match SetAll(Zeros(n), ps)
       case Err(e) => Err(e)
       case Ok(raw) => Ok(Normalise(raw)))
    case Other => Err(TypeError)
  }

  /** Row `j` exactly as lines 346-356 compute it. */
  function TrialRowAsWritten(tf: TrialSpec, n: nat): (r: Result<seq<Amp>>)
    ensures r.Ok? ==> |r.value| == n
  {
    match tf
    case Site(s) =>
      (match NpIndex(s, n)
       case Err(e) => Err(e)
       case Ok(o) => Ok(OneHot(n, o)))
    case Pairs(ps) =>
      (match SetAll(Zeros(n), ps)
       case Err(e) => Err(e)
       case Ok(raw) => Ok(NormaliseAsWritten(raw)))
    case Other => Err(TypeError)
  }

  /** An integer entry gives a one-hot row at its (wrapped) site, which has
      unit length; a site outside `[-n, n)` raises `IndexError`. */
  lemma TrialRowSite(s: int, n: nat)
    ensures TrialRow(Site(s), n).Ok? <==> -(n as int) <= s < n
    ensures TrialRow(Site(s), n).Err? ==> TrialRow(Site(s), n).error == IndexError
    ensures TrialRow(Site(s), n).Ok? ==>
      var row := TrialRow(Site(s), n).value;
      |row| == n && NormSq(row) == 1.0 &&
      forall o :: 0 <= o < n ==> row[o] == if o == s % n then Unit else Zero
  {
    if -(n as int) <= s < n {
      OneHotUnit(n, s % n);
    }
  }

  lemma OneHotUnit(n: nat, site: nat)
    requires site < n
    ensures NormSq(OneHot(n, site)) == 1.0
  {
    NormSqOneHot(OneHot(n, site), site);
  }

  /** A row that is `1` at `site` and `0` elsewhere has squared length `1`
      when `site` is one of its positions and `0` otherwise. */
  lemma {:induction false} NormSqOneHot(row: seq<Amp>, site: int)
    requires forall o :: 0 <= o < |row| ==> row[o] == if o == site then Unit else Zero
    ensures NormSq(row) == if 0 <= site < |row| then 1.0 else 0.0
  {
    if |row| > 0 {
      assert forall o :: 0 <= o < |row[1..]| ==> row[1..][o] == row[o + 1];
      NormSqOneHot(row[1..], site - 1);
    }
  }

  /** A list entry sets each listed site to the amplitude of its last pair,
      leaves the other orbitals at `0`, and then has unit length unless every
      stored amplitude is zero; a site out of range raises `IndexError`. */
  lemma TrialRowPairs(ps: seq<(int, real)>, n: nat)
    ensures TrialRow(Pairs(ps), n).Ok? <==> forall p :: 0 <= p < |ps| ==> -(n as int) <= ps[p].0 < n
    ensures TrialRow(Pairs(ps), n).Err? ==> TrialRow(Pairs(ps), n).error == IndexError
    ensures TrialRow(Pairs(ps), n).Ok? ==>
      var row := TrialRow(Pairs(ps), n).value;
      var raw := SetAll(Zeros(n), ps).value;
      |row| == n &&
      (forall o :: 0 <= o < n ==>
        row[o] == Amp(if |Written(ps, n, o)| == 1 then Written(ps, n, o)[0] else 0.0, SqSum(raw))) &&
      ((exists o :: 0 <= o < n && raw[o] != 0.0) ==> NormSq(row) == 1.0)
  {
    SetAllSpec(Zeros(n), ps);
    if SetAll(Zeros(n), ps).Ok? {
      var raw := SetAll(Zeros(n), ps).value;
      SqSumZero(raw);
      if SqSum(raw) > 0.0 {
        NormaliseUnit(raw);
      }
    }
  }

  /** Any other entry raises `TypeError`. */
  lemma TrialRowOther(n: nat)
    ensures TrialRow(Other, n) == Err(TypeError)
  {
  }

  /** As written, a list entry fails exactly as the intended row does, and
      otherwise holds the same last-written amplitudes divided by
      `sqrt(sum(abs(row)))`, which gives squared length
      `sum(abs(row)**2) / sum(abs(row))`. */
  lemma TrialRowAsWrittenPairs(ps: seq<(int, real)>, n: nat)
    ensures TrialRowAsWritten(Pairs(ps), n).Ok? <==> forall p :: 0 <= p < |ps| ==> -(n as int) <= ps[p].0 < n
    ensures TrialRowAsWritten(Pairs(ps), n).Err? ==> TrialRowAsWritten(Pairs(ps), n).error == IndexError
    ensures TrialRowAsWritten(Pairs(ps), n).Ok? ==>
      var row := TrialRowAsWritten(Pairs(ps), n).value;
      var raw := SetAll(Zeros(n), ps).value;
      |row| == n &&
      (forall o :: 0 <= o < n ==>
        row[o] == Amp(if |Written(ps, n, o)| == 1 then Written(ps, n, o)[0] else 0.0, AbsSum(raw))) &&
      (AbsSum(raw) > 0.0 ==> NormSq(row) == SqSum(raw) / AbsSum(raw))
  {
    SetAllSpec(Zeros(n), ps);
    if SetAll(Zeros(n), ps).Ok? {
      var raw := SetAll(Zeros(n), ps).value;
      if AbsSum(raw) > 0.0 {
        NormSqScaled(raw, AbsSum(raw));
      }
    }
  }

  /** The row as written and the intended row succeed on the same entries,
      raise the same error otherwise, coincide for integer entries, and differ
      for list entries only in the divisor. */
  lemma AsWrittenSameOutcome(tf: TrialSpec, n: nat)
    ensures TrialRowAsWritten(tf, n).Ok? <==> TrialRow(tf, n).Ok?
    ensures TrialRowAsWritten(tf, n).Err? ==> TrialRowAsWritten(tf, n).error == TrialRow(tf, n).error
    ensures !tf.Pairs? ==> TrialRowAsWritten(tf, n) == TrialRow(tf, n)
    ensures TrialRow(tf, n).Ok? ==>
      forall o :: 0 <= o < n ==> TrialRowAsWritten(tf, n).value[o].num == TrialRow(tf, n).value[o].num
  {
  }

  // ---------------------------------------------------------------------
  // The table

  /** `get_trial_wfs(tf_list)` on `n` orbitals: the rows in order, or the
      error of the first entry that raises. */
  function TrialTable(tfs: seq<TrialSpec>, n: nat): (r: Result<seq<seq<Amp>>>)
    ensures r.Ok? ==> |r.value| == |tfs| && forall j :: 0 <= j < |tfs| ==> |r.value[j]| == n
    decreases |tfs|
  {
    if |tfs| == 0 then Ok([])
    else match TrialTable(tfs[..|tfs| - 1], n)
      case Err(e) => Err(e)
      case Ok(rows) =>
        match TrialRow(tfs[|tfs| - 1], n)
        case Err(e) => Err(e)
        case Ok(row) => Ok(rows + [row])
  }

  /** The table succeeds exactly when every entry does, and then row `j` is
      the row of entry `j`; otherwise the error is that of the first entry
      that fails. */
  lemma {:induction false} TrialTableSpec(tfs: seq<TrialSpec>, n: nat)
    ensures TrialTable(tfs, n).Ok? <==> forall j :: 0 <= j < |tfs| ==> TrialRow(tfs[j], n).Ok?
    ensures TrialTable(tfs, n).Ok? ==>
      |TrialTable(tfs, n).value| == |tfs| &&
      forall j :: 0 <= j < |tfs| ==> TrialTable(tfs, n).value[j] == TrialRow(tfs[j], n).value
    ensures TrialTable(tfs, n).Err? ==>
      exists j :: 0 <= j < |tfs| && TrialRow(tfs[j], n).Err? && TrialTable(tfs, n).error == TrialRow(tfs[j], n).error &&
        forall i :: 0 <= i < j ==> TrialRow(tfs[i], n).Ok?
    decreases |tfs|
  {
    if |tfs| > 0 {
      var init := tfs[..|tfs| - 1];
      TrialTableSpec(init, n);
      assert forall j :: 0 <= j < |init| ==> init[j] == tfs[j];
      if TrialTable(tfs, n).Err? && TrialTable(init, n).Err? {
        var j :| 0 <= j < |init| && TrialRow(init[j], n).Err? && TrialTable(init, n).error == TrialRow(init[j], n).error &&
          forall i :: 0 <= i < j ==> TrialRow(init[i], n).Ok?;
        assert TrialRow(tfs[j], n).Err?;
      }
      if TrialTable(tfs, n).Ok? {
        forall j | 0 <= j < |tfs| ensures TrialRow(tfs[j], n).Ok? {
          if j < |init| { assert TrialRow(init[j], n).Ok?; }
        }
      }
    }
  }

  /** The first entry that raises decides the error of the whole table. */
  lemma FirstError(tfs: seq<TrialSpec>, n: nat, j: nat)
    requires j < |tfs| && (forall a :: 0 <= a < j ==> TrialRow(tfs[a], n).Ok?) && TrialRow(tfs[j], n).Err?
    ensures TrialTable(tfs, n) == Err(TrialRow(tfs[j], n).error)
  {
    TrialTableSpec(tfs, n);
    var i :| 0 <= i < |tfs| && TrialRow(tfs[i], n).Err? && TrialTable(tfs, n).error == TrialRow(tfs[i], n).error &&
      forall a :: 0 <= a < i ==> TrialRow(tfs[a], n).Ok?;
  }

  /** Adding one more amplitude adds its square. */
  lemma {:induction false} SqSumSnoc(row: seq<real>, x: real)
    ensures SqSum(row + [x]) == SqSum(row) + Sq(x)
  {
    if |row| > 0 {
      assert (row + [x])[1..] == row[1..] + [x];
      SqSumSnoc(row[1..], x);
    }
  }

  // ---------------------------------------------------------------------
  // Filling the array

  /** `get_trial_wfs(tf_list)` with `nOrb` orbitals: the `len(tf_list) x nOrb`
      array whose row `j` is the (normalised) trial function of entry `j`, or
      the error of the first entry that raises. */
  method GetTrialWfs(tfList: seq<TrialSpec>, nOrb: nat) returns (r: Result<array2<Amp>>)
    ensures r.Ok? <==> TrialTable(tfList, nOrb).Ok?
    ensures r.Err? ==> r.error == TrialTable(tfList, nOrb).error
    ensures r.Ok? ==>
      fresh(r.value) && r.value.Length0 == |tfList| && r.value.Length1 == nOrb &&
      forall j, o :: 0 <= j < |tfList| && 0 <= o < nOrb ==> r.value[j, o] == TrialTable(tfList, nOrb).value[j][o]
  {
    var tfs := new Amp[|tfList|, nOrb]((_, _) => Zero);
    for j := 0 to |tfList|
      invariant forall a :: 0 <= a < j ==> TrialRow(tfList[a], nOrb).Ok?
      invariant forall a, o :: 0 <= a < j && 0 <= o < nOrb ==> tfs[a, o] == TrialRow(tfList[a], nOrb).value[o]
      invariant forall a, o :: j <= a < |tfList| && 0 <= o < nOrb ==> tfs[a, o] == Zero
    {
      var row := WriteRow(tfs, j, tfList[j]);
      if row.Err? {
        FirstError(tfList, nOrb, j);
        return Err(row.error);
      }
    }
    TrialTableSpec(tfList, nOrb);
    return Ok(tfs);
  }

  /** One pass of the loop over `tf_list`: row `j`, which is still zero, gets
      the trial function of `tf`; no other row changes. */
  method WriteRow(tfs: array2<Amp>, j: nat, tf: TrialSpec) returns (r: Result<()>)
    modifies tfs
    requires j < tfs.Length0 && forall o :: 0 <= o < tfs.Length1 ==> tfs[j, o] == Zero
    ensures r.Ok? <==> TrialRow(tf, tfs.Length1).Ok?
    ensures r.Err? ==> r.error == TrialRow(tf, tfs.Length1).error
    ensures r.Ok? ==> forall o :: 0 <= o < tfs.Length1 ==> tfs[j, o] == TrialRow(tf, tfs.Length1).value[o]
    ensures forall a, o :: 0 <= a < tfs.Length0 && a != j && 0 <= o < tfs.Length1 ==> tfs[a, o] == old(tfs[a, o])
  {
    var n := tfs.Length1;
    match tf {
      case Site(s) =>
        var site := NpIndex(s, n);
        if site.Err? {
          return Err(site.error);
        }
        tfs[j, site.value] := Unit;
      case Pairs(ps) =>
        var ok := WritePairs(tfs, j, ps);
        if !ok {
          return Err(IndexError);
        }
        ghost var raw := SetAll(Zeros(n), ps).value;
        var total := SquaredLength(tfs, j, raw);
        forall o | 0 <= o < n {
          tfs[j, o] := Amp(tfs[j, o].num, total);
        }
      case Other =>
        return Err(TypeError);
    }
    return Ok(());
  }

  /** `for site, amp in tf: tfs[j, site] = amp` on a zero row. */
  method WritePairs(tfs: array2<Amp>, j: nat, ps: seq<(int, real)>) returns (ok: bool)
    modifies tfs
    requires j < tfs.Length0 && forall o :: 0 <= o < tfs.Length1 ==> tfs[j, o] == Zero
    ensures ok <==> SetAll(Zeros(tfs.Length1), ps).Ok?
    ensures ok ==> forall o :: 0 <= o < tfs.Length1 ==> tfs[j, o] == Amp(SetAll(Zeros(tfs.Length1), ps).value[o], 1.0)
    ensures forall a, o :: 0 <= a < tfs.Length0 && a != j && 0 <= o < tfs.Length1 ==> tfs[a, o] == old(tfs[a, o])
  {
    var n := tfs.Length1;
    for p := 0 to |ps|
      invariant SetAll(Zeros(n), ps[..p]).Ok?
      invariant forall o :: 0 <= o < n ==> tfs[j, o] == Amp(SetAll(Zeros(n), ps[..p]).value[o], 1.0)
      invariant forall a, o :: 0 <= a < tfs.Length0 && a != j && 0 <= o < n ==> tfs[a, o] == old(tfs[a, o])
    {
      assert ps[..p + 1][..p] == ps[..p];
      var site := NpIndex(ps[p].0, n);
      if site.Err? {
        SetAllSpec(Zeros(n), ps);
        return false;
      }
      tfs[j, site.value] := Amp(ps[p].1, 1.0);
    }
    assert ps[..|ps|] == ps;
    return true;
  }

  /** `sum(abs(tfs[j, :])**2)`, accumulated orbital by orbital. */
  method SquaredLength(tfs: array2<Amp>, j: nat, ghost raw: seq<real>) returns (total: real)
    requires j < tfs.Length0 && |raw| == tfs.Length1
    requires forall o :: 0 <= o < tfs.Length1 ==> tfs[j, o].num == raw[o]
    ensures total == SqSum(raw)
  {
    total := 0.0;
    for o := 0 to tfs.Length1
      invariant total == SqSum(raw[..o])
    {
      assert raw[..o + 1] == raw[..o] + [raw[o]];
      SqSumSnoc(raw[..o], raw[o]);
      total := total + Sq(tfs[j, o].num);
    }
    assert raw[..tfs.Length1] == raw;
  }

  // ---------------------------------------------------------------------
  // Rotating the overlap matrix (find_min_unitary, lines 708-712)

  /** `U[k]^H A U[(k + b) mod n]`, with `sandwich(X, A, Y)` standing for
      `X^H A Y`: the slot `A` seen from the gauge `U` at both ends of the step. */
  function Sandwiched<W, B>(nks: seq<nat>, U: seq<seq<W>>, sandwich: (W, B, W) -> B, a: B,
                            k0: nat, k1: nat, b: seq<int>): B
    requires Step(nks, [k0, k1], b) && Grid2(U, nks[0], nks[1])
  {
    sandwich(U[k0][k1], a, U[(k0 + b[0]) % nks[0]][(k1 + b[1]) % nks[1]])
  }

  /** Taking the right-hand factor from `np.roll(U, -b)` at `k` is taking it
      from the neighbour `(k + b) mod n`. */
  lemma SandwichedRolled<W, B>(nks: seq<nat>, U: seq<seq<W>>, sandwich: (W, B, W) -> B, a: B,
                               k0: nat, k1: nat, b: seq<int>)
    requires Step(nks, [k0, k1], b) && Grid2(U, nks[0], nks[1])
    ensures Grid2(Roll2(U, -b[0], -b[1]), nks[0], nks[1])
    ensures Sandwiched(nks, U, sandwich, a, k0, k1, b) == sandwich(U[k0][k1], a, Roll2(U, -b[0], -b[1])[k0][k1])
  {
    RollNeighbour(U, nks[0], nks[1], b[0], b[1], k0, k1);
  }

  /** `M[k, s] = U[k]^H M0[k, s] U[(k + shell[s]) mod n]` at every mesh point
      and offset. */
  ghost predicate Rotated<W, B>(m: array3<B>, m0: array3<B>, nks: seq<nat>, U: seq<seq<W>>,
                                shell: seq<seq<int>>, sandwich: (W, B, W) -> B)
    reads m, m0
  {
    |nks| == 2 && Grid2(U, nks[0], nks[1]) && ShellOffsets(shell) &&
    m.Length0 == m0.Length0 == nks[0] && m.Length1 == m0.Length1 == nks[1] &&
    m.Length2 == m0.Length2 == |shell| &&
    forall k0, k1, s :: 0 <= k0 < nks[0] && 0 <= k1 < nks[1] && 0 <= s < |shell| ==>
      Step(nks, [k0, k1], shell[s]) && m[k0, k1, s] == Sandwiched(nks, U, sandwich, m0[k0, k1, s], k0, k1, shell[s])
  }

  /** The update of `M` inside the iteration of `find_min_unitary`: for every
      offset of the shell, the fresh copy `M` gets `U^H @ M0 @ roll(U, -b)`. */
  method UpdateOverlap<W, B>(m: array3<B>, m0: array3<B>, nks: seq<nat>, U: seq<seq<W>>,
                             shell: seq<seq<int>>, sandwich: (W, B, W) -> B)
    modifies m
    requires m != m0 && |nks| == 2 && Grid2(U, nks[0], nks[1]) && ShellOffsets(shell)
    requires m.Length0 == m0.Length0 == nks[0] && m.Length1 == m0.Length1 == nks[1]
    requires m.Length2 == m0.Length2 == |shell|
    ensures Rotated(m, m0, nks, U, shell, sandwich)
  {
    StepsInMesh(nks, shell);
    for idx := 0 to |shell|
      invariant forall k0, k1, s :: 0 <= k0 < nks[0] && 0 <= k1 < nks[1] && 0 <= s < idx ==>
        m[k0, k1, s] == Sandwiched(nks, U, sandwich, m0[k0, k1, s], k0, k1, shell[s])
    {
      RotateSlot(m, m0, nks, U, shell, sandwich, idx);
    }
  }

  /** One pass of that loop: slot `idx` of `M` from slot `idx` of `M0` and the
      `U` rolled by `-shell[idx]`; the other slots keep their values. */
  method RotateSlot<W, B>(m: array3<B>, m0: array3<B>, nks: seq<nat>, U: seq<seq<W>>,
                          shell: seq<seq<int>>, sandwich: (W, B, W) -> B, idx: nat)
    modifies m
    requires m != m0 && |nks| == 2 && Grid2(U, nks[0], nks[1]) && ShellOffsets(shell) && idx < |shell|
    requires m.Length0 == m0.Length0 == nks[0] && m.Length1 == m0.Length1 == nks[1]
    requires m.Length2 == m0.Length2 == |shell|
    ensures forall k0, k1, s :: 0 <= k0 < nks[0] && 0 <= k1 < nks[1] && 0 <= s < |shell| ==>
      Step(nks, [k0, k1], shell[s]) &&
      m[k0, k1, s] == if s == idx then Sandwiched(nks, U, sandwich, m0[k0, k1, s], k0, k1, shell[s]) else old(m[k0, k1, s])
  {
    var n0, n1 := nks[0], nks[1];
    var b := shell[idx];
    StepsInMesh(nks, shell);
    var uPbc := Roll2(U, -b[0], -b[1]);
    RolledGrid(U, n0, n1, b[0], b[1]);
    assert |uPbc| == n0 && forall k0 :: 0 <= k0 < n0 ==> |uPbc[k0]| == n1;
    forall k0, k1 | 0 <= k0 < n0 && 0 <= k1 < n1
      ensures sandwich(U[k0][k1], m0[k0, k1, idx], uPbc[k0][k1]) == Sandwiched(nks, U, sandwich, m0[k0, k1, idx], k0, k1, b)
    {
      SandwichedRolled(nks, U, sandwich, m0[k0, k1, idx], k0, k1, b);
    }
    forall k0, k1 | 0 <= k0 < n0 && 0 <= k1 < n1 {
      m[k0, k1, idx] := sandwich(U[k0][k1], m0[k0, k1, idx], uPbc[k0][k1]);
    }
  }

  /** The states `rot(u[k], U[k])` of the rotated gauge at every mesh point. */
  function Rotate<S, W>(u: seq<seq<S>>, U: seq<seq<W>>, rot: (S, W) -> S, n0: nat, n1: nat): (r: seq<seq<S>>)
    requires Grid2(u, n0, n1) && Grid2(U, n0, n1)
    ensures Grid2(r, n0, n1) && forall k0, k1 :: 0 <= k0 < n0 && 0 <= k1 < n1 ==> r[k0][k1] == rot(u[k0][k1], U[k0][k1])
  {
    seq(n0, k0 requires 0 <= k0 < n0 => seq(n1, k1 requires 0 <= k1 < n1 => rot(u[k0][k1], U[k0][k1])))
  }

  /** The update keeps `M` the overlap matrix of the rotated states: when `M0`
      holds the overlaps of `u` (as `k_overlap_mat` builds it) and the inner
      product turns a rotation of both states into the sandwich by the two
      rotations, the updated `M` holds the overlaps of the rotated states,
      taken with the same neighbours and the same boundary phases. */
  lemma RotatedOverlap<S, W, B>(m: array3<B>, m0: array3<B>, nks: seq<nat>, nOrb: nat, u: seq<seq<S>>, U: seq<seq<W>>,
                                scale: (S, seq<Phase>) -> S, braket: (S, S) -> B, rot: (S, W) -> S,
                                sandwich: (W, B, W) -> B, shell: seq<seq<int>>)
    requires OverlapTable(m0, nks, nOrb, u, scale, braket, shell)
    requires Rotated(m, m0, nks, U, shell, sandwich)
    requires forall a, c, x, y, ph :: braket(rot(a, x), scale(rot(c, y), ph)) == sandwich(x, braket(a, scale(c, ph)), y)
    ensures OverlapTable(m, nks, nOrb, Rotate(u, U, rot, nks[0], nks[1]), scale, braket, shell)
  {
    var n0, n1 := nks[0], nks[1];
    var v := Rotate(u, U, rot, n0, n1);
    forall k0, k1, s | 0 <= k0 < n0 && 0 <= k1 < n1 && 0 <= s < |shell|
      ensures Step(nks, [k0, k1], shell[s]) && m[k0, k1, s] == Overlap(nks, nOrb, v, scale, braket, k0, k1, shell[s])
    {
      assert m0[k0, k1, s] == Overlap(nks, nOrb, u, scale, braket, k0, k1, shell[s]);
      RotatedPoint(nks, nOrb, u, U, scale, braket, rot, sandwich, k0, k1, shell[s]);
    }
  }

  /** One slot of `RotatedOverlap`: sandwiching the overlap at `k` by the
      rotations at `k` and at its neighbour gives the overlap of the rotated
      states. */
  lemma RotatedPoint<S, W, B>(nks: seq<nat>, nOrb: nat, u: seq<seq<S>>, U: seq<seq<W>>,
                              scale: (S, seq<Phase>) -> S, braket: (S, S) -> B, rot: (S, W) -> S,
                              sandwich: (W, B, W) -> B, k0: nat, k1: nat, b: seq<int>)
    requires Step(nks, [k0, k1], b) && Grid2(u, nks[0], nks[1]) && Grid2(U, nks[0], nks[1])
    requires forall a, c, x, y, ph :: braket(rot(a, x), scale(rot(c, y), ph)) == sandwich(x, braket(a, scale(c, ph)), y)
    ensures Sandwiched(nks, U, sandwich, Overlap(nks, nOrb, u, scale, braket, k0, k1, b), k0, k1, b) ==
      Overlap(nks, nOrb, Rotate(u, U, rot, nks[0], nks[1]), scale, braket, k0, k1, b)
  {
    var v := Rotate(u, U, rot, nks[0], nks[1]);
    var j0, j1 := (k0 + b[0]) % nks[0], (k1 + b[1]) % nks[1];
    assert v[j0][j1] == rot(u[j0][j1], U[j0][j1]);
    assert v[k0][k1] == rot(u[k0][k1], U[k0][k1]);
  }
}
