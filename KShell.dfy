/** `K_mesh.get_k_shell` (WanPy/pythTB_wan.py:76-116): the integer offsets to
    neighbouring mesh points, their Cartesian vectors `b`, the rounded squared
    lengths `|b|^2`, and the grouping of the offsets into shells of equal
    rounded length, shortest first. */
module KShell {
  import opened Errors
  import opened Grid

  // ---------------------------------------------------------------------
  // Integer offsets

  /** `list(product(range(-n, n + 1), repeat=d))`. */
  function Cube(d: nat, n: int): seq<seq<int>> {
    Product(seq(d, _ => Range(-n, n + 1)))
  }

  /** The first position of `x` in `xs`. */
  function IndexOf<T(==)>(xs: seq<T>, x: T): (i: nat)
    requires x in xs
    ensures i < |xs| && xs[i] == x && x !in xs[..i]
  {
    if xs[0] == x then 0
    else
      var j := IndexOf(xs[1..], x);
      assert xs[1..][..j] == xs[1..j + 1];
      j + 1
  }

  /** Python's `list.remove(x)`: drops the first occurrence of `x`, and raises
      `ValueError` when there is none. */
  function RemoveFirst<T(==)>(xs: seq<T>, x: T): (r: Result<seq<T>>)
    ensures r.Ok? <==> x in xs
    ensures r.Err? ==> r.error == ValueError
    ensures r.Ok? ==> r.value == xs[..IndexOf(xs, x)] + xs[IndexOf(xs, x) + 1..]
  {
    if |xs| == 0 then Err(ValueError)
    else if xs[0] == x then Ok(xs[1..])
    else match RemoveFirst(xs[1..], x)
      case Err(e) => Err(e)
      case Ok(rest) =>
        assert xs == [xs[0]] + xs[1..];
        Ok([xs[0]] + rest)
  }

  /** `nnbr_idx` after `nnbr_idx.remove((0, 0))`. */
  function NnbrIdx(d: nat, n: int): Result<seq<seq<int>>> {
    RemoveFirst(Cube(d, n), [0, 0])
  }

  /** Every component of `x` lies in `[-n, n]`. */
  predicate InCube(x: seq<int>, n: int) {
    forall i :: 0 <= i < |x| ==> -n <= x[i] <= n
  }

  lemma CubeMember(d: nat, n: int, x: seq<int>)
    ensures x in Cube(d, n) <==> |x| == d && InCube(x, n)
  {
    ProductMember(seq(d, _ => Range(-n, n + 1)), x);
  }

  /** The zero offset is removed exactly when the mesh is two-dimensional and
      `N_sh >= 0`; in every other case `remove((0, 0))` raises `ValueError`. */
  lemma NnbrIdxDefined(d: nat, n: int)
    ensures NnbrIdx(d, n).Ok? <==> d == 2 && n >= 0
    ensures NnbrIdx(d, n).Err? ==> NnbrIdx(d, n).error == ValueError
  {
    CubeMember(d, n, [0, 0]);
  }

  /** The offsets are exactly the two-component integer vectors with both
      components in `[-N_sh, N_sh]`, except the zero vector. */
  lemma NnbrIdxMember(d: nat, n: int, x: seq<int>)
    requires NnbrIdx(d, n).Ok?
    ensures x in NnbrIdx(d, n).value <==> |x| == 2 && InCube(x, n) && x != [0, 0]
  {
    NnbrIdxDefined(d, n);
    var c := Cube(d, n);
    ProductSorted(seq(d, _ => Range(-n, n + 1)));
    LexSortedDistinct(c);
    SpliceMember(c, IndexOf(c, [0, 0]), x);
    CubeMember(d, n, x);
  }

  /** Dropping position `i` of a list without repetitions drops exactly `c[i]`. */
  lemma SpliceMember<T>(c: seq<T>, i: nat, x: T)
    requires i < |c|
    requires forall a, b :: 0 <= a < |c| && 0 <= b < |c| && a != b ==> c[a] != c[b]
    ensures x in c[..i] + c[i + 1..] <==> x in c && x != c[i]
  {
    var r := c[..i] + c[i + 1..];
    if x in r {
      var j :| 0 <= j < |r| && r[j] == x;
      if j < i { assert r[j] == c[j]; } else { assert r[j] == c[j + 1]; }
    }
    if x in c && x != c[i] {
      var j :| 0 <= j < |c| && c[j] == x;
      if j < i { assert r[j] == c[j]; } else { assert r[j - 1] == c[j]; }
    }
  }

  /** Dropping one position keeps a list sorted. */
  lemma SpliceSorted(c: seq<seq<int>>, i: nat)
    requires i < |c| && LexSorted(c)
    ensures LexSorted(c[..i] + c[i + 1..])
  {
    var r := c[..i] + c[i + 1..];
    forall a, b | 0 <= a < b < |r| ensures LexLess(r[a], r[b]) {
      var a' := if a < i then a else a + 1;
      var b' := if b < i then b else b + 1;
      assert r[a] == c[a'] && r[b] == c[b'];
    }
  }

  /** The offsets are listed in lexicographic order, each once. */
  lemma NnbrIdxSorted(d: nat, n: int)
    requires NnbrIdx(d, n).Ok?
    ensures LexSorted(NnbrIdx(d, n).value)
  {
    var c := Cube(d, n);
    ProductSorted(seq(d, _ => Range(-n, n + 1)));
    SpliceSorted(c, IndexOf(c, [0, 0]));
  }

  /** There are `(2 N_sh + 1)^2 - 1` offsets. */
  lemma NnbrIdxCount(d: nat, n: int)
    requires NnbrIdx(d, n).Ok?
    ensures |NnbrIdx(d, n).value| == (2 * n + 1) * (2 * n + 1) - 1
  {
    NnbrIdxDefined(d, n);
    var m := 2 * n + 1;
    var axes := seq(d, _ => Range(-n, n + 1));
    ProductLength(axes);
    assert Sizes(axes) == [m, m];
    assert Prod([m, m]) == m * Prod([m]) by { assert [m, m][1..] == [m]; }
    assert Prod([m]) == m by { assert [m][1..] == []; }
    var c := Cube(d, n);
    assert |c| == m * m;
  }

  /** Every offset has two components. */
  lemma NnbrIdxShape(d: nat, n: int)
    requires NnbrIdx(d, n).Ok?
    ensures d == 2 && n >= 0 && forall x :: x in NnbrIdx(d, n).value ==> |x| == 2
  {
    NnbrIdxDefined(d, n);
    forall x | x in NnbrIdx(d, n).value ensures |x| == 2 {
      NnbrIdxMember(d, n, x);
    }
  }

  // ---------------------------------------------------------------------
  // Cartesian vectors and rounded distances

  /** The reciprocal lattice vectors of a `Lattice` form a square matrix. */
  predicate Square(recip: seq<seq<real>>) {
    forall i :: 0 <= i < |recip| ==> |recip[i]| == |recip|
  }

  /** Every row has `Cols(m)` entries. */
  predicate Rect(m: seq<seq<real>>) {
    forall i :: 0 <= i < |m| ==> |m[i]| == |m[0]|
  }

  function Cols(m: seq<seq<real>>): nat {
    if |m| == 0 then 0 else |m[0]|
  }

  /** `dk = [recip[i] / nks[i] for i]`: the Cartesian step along each mesh axis. */
  function DK(recip: seq<seq<real>>, nks: seq<nat>): (dk: seq<seq<real>>)
    requires |nks| <= |recip| && Square(recip)
    requires forall i :: 0 <= i < |nks| ==> nks[i] > 0
    ensures |dk| == |nks| && Rect(dk)
  {
    seq(|nks|, i requires 0 <= i < |nks| =>
      seq(|recip[i]|, c requires 0 <= c < |recip[i]| => recip[i][c] / (nks[i] as real)))
  }

  /** Component `c` of `x @ dk`, summed over the first `|x|` rows. */
  function LinComb(dk: seq<seq<real>>, x: seq<int>, c: nat): real
    requires |x| <= |dk| && Rect(dk) && c < Cols(dk)
    decreases |x|
  {
    if |x| == 0 then 0.0
    else (x[|x| - 1] as real) * dk[|x| - 1][c] + LinComb(dk, x[..|x| - 1], c)
  }

  /** `b = nnbr_idx[i] @ dk`. */
  function BVec(dk: seq<seq<real>>, x: seq<int>): (b: seq<real>)
    requires |x| <= |dk| && Rect(dk)
    ensures |b| == Cols(dk)
  {
    seq(Cols(dk), c requires 0 <= c < Cols(dk) => LinComb(dk, x, c))
  }

  /** `np.vdot(b, b)` for a real vector. */
  function SqNorm(b: seq<real>): (r: real)
    ensures r >= 0.0
  {
    if |b| == 0 then 0.0 else b[0] * b[0] + SqNorm(b[1..])
  }

  function Pow10(n: nat): (p: nat)
    ensures p >= 1
  {
    if n == 0 then 1 else 10 * Pow10(n - 1)
  }

  /** NumPy's rounding to the nearest integer, ties to the even neighbour. */
  function RoundHalfEven(y: real): (r: int)
    ensures -0.5 <= (r as real) - y <= 0.5
    ensures (r as real) - y == 0.5 || (r as real) - y == -0.5 ==> r % 2 == 0
  {
    var f := y.Floor;
    var frac := y - f as real;
    if frac < 0.5 then f
    else if frac > 0.5 then f + 1
    else if f % 2 == 0 then f else f + 1
  }

  /** `x.round(dp)`: scale by `10^dp`, round half to even, scale back (a negative
      `dp` rounds to tens, hundreds, ...). */
  function Round(x: real, dp: int): (r: real)
    ensures var s := Scale(dp); -0.5 <= (r - x) * s <= 0.5
  {
    var s := Scale(dp);
    var n := RoundHalfEven(x * s);
    ScaleBack(n as real, x, s);
    n as real / s
  }

  lemma ScaleBack(n: real, x: real, s: real)
    requires s > 0.0
    ensures (n / s - x) * s == n - x * s
  {
  }

  function Scale(dp: int): (s: real)
    ensures s > 0.0
  {
    if dp >= 0 then Pow10(dp) as real else 1.0 / (Pow10(-dp) as real)
  }

  /** One offset together with its vector and its rounded squared length. */
  datatype Entry = Entry(idx: seq<int>, b: seq<real>, dist: real)

  /** The rounded squared length `dists[i]` of offset `x`. */
  function Dist(dk: seq<seq<real>>, tolDp: int, x: seq<int>): real
    requires |x| <= |dk| && Rect(dk)
  {
    Round(SqNorm(BVec(dk, x)), tolDp)
  }

  function MakeEntry(dk: seq<seq<real>>, tolDp: int, x: seq<int>): (e: Entry)
    requires |x| <= |dk| && Rect(dk)
    ensures e.idx == x && e.b == BVec(dk, x) && e.dist == Dist(dk, tolDp, x)
  {
    Entry(x, BVec(dk, x), Dist(dk, tolDp, x))
  }

  predicate Fits(dk: seq<seq<real>>, offs: seq<seq<int>>) {
    Rect(dk) && forall i :: 0 <= i < |offs| ==> |offs[i]| <= |dk|
  }

  /** The rows `(nnbr_idx[i], b_vecs[i], dists[i])` before sorting. */
  function Entries(dk: seq<seq<real>>, tolDp: int, offs: seq<seq<int>>): (es: seq<Entry>)
    requires Fits(dk, offs)
    ensures |es| == |offs|
    ensures forall i :: 0 <= i < |offs| ==> es[i] == MakeEntry(dk, tolDp, offs[i])
  {
    seq(|offs|, i requires 0 <= i < |offs| => MakeEntry(dk, tolDp, offs[i]))
  }

  lemma EntriesMember(dk: seq<seq<real>>, tolDp: int, offs: seq<seq<int>>, e: Entry)
    requires Fits(dk, offs)
    ensures e in Entries(dk, tolDp, offs) <==>
      e.idx in offs && |e.idx| <= |dk| && e == MakeEntry(dk, tolDp, e.idx)
  {
    var es := Entries(dk, tolDp, offs);
    if e.idx in offs && |e.idx| <= |dk| && e == MakeEntry(dk, tolDp, e.idx) {
      var i :| 0 <= i < |offs| && offs[i] == e.idx;
      assert es[i] == e;
    }
  }

  // ---------------------------------------------------------------------
  // Sorting by distance

  predicate SortedByDist(s: seq<Entry>) {
    forall i, j :: 0 <= i < j < |s| ==> s[i].dist <= s[j].dist
  }

  /** Inserts `e` in front of the first entry that is not closer. */
  function Insert(e: Entry, s: seq<Entry>): (r: seq<Entry>)
    requires SortedByDist(s)
    ensures SortedByDist(r) && multiset(r) == multiset(s) + multiset{e}
  {
    if |s| == 0 || e.dist <= s[0].dist then [e] + s
    else
      var t := Insert(e, s[1..]);
      assert s == [s[0]] + s[1..];
      InsertAfter(e, s, t);
      [s[0]] + t
  }

  lemma InsertAfter(e: Entry, s: seq<Entry>, t: seq<Entry>)
    requires |s| > 0 && SortedByDist(s) && SortedByDist(t) && s[0].dist < e.dist
    requires multiset(t) == multiset(s[1..]) + multiset{e}
    ensures SortedByDist([s[0]] + t)
  {
    forall y | y in t ensures s[0].dist <= y.dist {
      assert y in multiset(t);
      if y != e {
        assert y in s[1..];
        var j :| 0 <= j < |s[1..]| && s[1..][j] == y;
        assert s[j + 1] == y;
      }
    }
    var r := [s[0]] + t;
    forall i, j | 0 <= i < j < |r| ensures r[i].dist <= r[j].dist {
      if i == 0 { assert r[j] == t[j - 1]; assert t[j - 1] in t; }
      else { assert r[i] == t[i - 1] && r[j] == t[j - 1]; }
    }
  }

  /** `argsort(dists)` applied to the rows: a stable sort by rounded distance. */
  function SortByDist(es: seq<Entry>): (r: seq<Entry>)
    ensures SortedByDist(r) && multiset(r) == multiset(es)
  {
    if |es| == 0 then []
    else
      assert es == [es[0]] + es[1..];
      Insert(es[0], SortByDist(es[1..]))
  }

  predicate NonDecreasing(ds: seq<real>) {
    forall i, j :: 0 <= i < j < |ds| ==> ds[i] <= ds[j]
  }

  predicate Increasing(ds: seq<real>) {
    forall i, j :: 0 <= i < j < |ds| ==> ds[i] < ds[j]
  }

  function Dists(s: seq<Entry>): (ds: seq<real>)
    ensures |ds| == |s| && forall i :: 0 <= i < |s| ==> ds[i] == s[i].dist
  {
    seq(|s|, i requires 0 <= i < |s| => s[i].dist)
  }

  /** `sorted(list(set(dists)))`, computed from the sorted distances by dropping repeats. */
  function Dedup(ds: seq<real>): (r: seq<real>)
    requires NonDecreasing(ds)
    ensures Increasing(r) && forall x :: x in r <==> x in ds
    ensures |ds| > 0 ==> |r| > 0 && r[0] == ds[0]
  {
    if |ds| == 0 then []
    else
      var t := Dedup(ds[1..]);
      assert forall x :: x in ds <==> x == ds[0] || x in ds[1..] by {
        assert ds == [ds[0]] + ds[1..];
      }
      if |t| > 0 && t[0] == ds[0] then t
      else
        assert |t| > 0 ==> ds[0] < t[0] by {
          if |t| > 0 { assert t[0] == ds[1]; }
        }
        [ds[0]] + t
  }

  /** A strictly increasing list is determined by its elements, so `Dedup`
      is exactly `sorted(set(dists))`. */
  lemma {:induction false} IncreasingUnique(a: seq<real>, b: seq<real>)
    requires Increasing(a) && Increasing(b)
    requires forall x :: x in a <==> x in b
    ensures a == b
  {
    if |a| > 0 { assert a[0] in a; }
    if |b| > 0 { assert b[0] in b; }
    if |a| > 0 && |b| > 0 {
      HeadsEqual(a, b);
      TailsSame(a, b);
      IncreasingUnique(a[1..], b[1..]);
      assert a == [a[0]] + a[1..] && b == [b[0]] + b[1..];
    }
  }

  /** Both lists start with their common least element. */
  lemma HeadsEqual(a: seq<real>, b: seq<real>)
    requires Increasing(a) && Increasing(b) && |a| > 0 && |b| > 0
    requires forall x :: x in a <==> x in b
    ensures a[0] == b[0]
  {
    assert a[0] in a && b[0] in b;
    var j :| 0 <= j < |b| && b[j] == a[0];
    var i :| 0 <= i < |a| && a[i] == b[0];
    assert b[0] <= a[0] && a[0] <= b[0];
  }

  /** With the heads removed, both lists still hold the same elements. */
  lemma TailsSame(a: seq<real>, b: seq<real>)
    requires Increasing(a) && Increasing(b) && |a| > 0 && |b| > 0 && a[0] == b[0]
    requires forall x :: x in a <==> x in b
    ensures forall x :: x in a[1..] <==> x in b[1..]
  {
    forall x ensures x in a[1..] <==> x in b[1..] {
      if x in a[1..] {
        var i :| 1 <= i < |a| && a[i] == x;
        assert x in b && x != b[0];
      }
      if x in b[1..] {
        var i :| 1 <= i < |b| && b[i] == x;
        assert x in a && x != a[0];
      }
    }
  }

  /** `b_star[np.isin(dists_sorted, v)]`: the entries at rounded distance `v`, in order. */
  function Select(s: seq<Entry>, v: real): (r: seq<Entry>)
    ensures forall e :: e in r <==> e in s && e.dist == v
    ensures |r| <= |s|
  {
    if |s| == 0 then []
    else
      assert forall e :: e in s <==> e == s[0] || e in s[1..] by {
        assert s == [s[0]] + s[1..];
      }
      if s[0].dist == v then [s[0]] + Select(s[1..], v) else Select(s[1..], v)
  }

  // ---------------------------------------------------------------------
  // get_k_shell

  /** The pair `(k_shell, idx_shell)`. */
  datatype Shells = Shells(kShell: seq<seq<seq<real>>>, idxShell: seq<seq<seq<int>>>)

  function Vectors(s: seq<Entry>): seq<seq<real>> {
    seq(|s|, i requires 0 <= i < |s| => s[i].b)
  }

  function Indices(s: seq<Entry>): seq<seq<int>> {
    seq(|s|, i requires 0 <= i < |s| => s[i].idx)
  }

  /** `keep_dists = unique_dists[:N_sh]` for `N_sh >= 0`. */
  function Keep(sorted: seq<Entry>, nSh: nat): (keep: seq<real>)
    requires SortedByDist(sorted)
    ensures |keep| <= nSh
  {
    var unique := Dedup(Dists(sorted));
    unique[..if nSh <= |unique| then nSh else |unique|]
  }

  /** The rows sorted by rounded distance. */
  function Sorted(dk: seq<seq<real>>, offs: seq<seq<int>>, tolDp: int): seq<Entry>
    requires Fits(dk, offs)
  {
    SortByDist(Entries(dk, tolDp, offs))
  }

  /** `keep_dists`: the rounded distance of each shell. */
  function ShellDists(dk: seq<seq<real>>, offs: seq<seq<int>>, nSh: nat, tolDp: int): seq<real>
    requires Fits(dk, offs)
  {
    Keep(Sorted(dk, offs, tolDp), nSh)
  }

  /** The shells, given the offsets with the zero vector removed. */
  function ShellsOf(dk: seq<seq<real>>, offs: seq<seq<int>>, nSh: nat, tolDp: int): Shells
    requires Fits(dk, offs)
  {
    var sorted := Sorted(dk, offs, tolDp);
    var keep := ShellDists(dk, offs, nSh, tolDp);
    Shells(seq(|keep|, s requires 0 <= s < |keep| => Vectors(Select(sorted, keep[s]))),
           seq(|keep|, s requires 0 <= s < |keep| => Indices(Select(sorted, keep[s]))))
  }

  /** `K_mesh.get_k_shell(N_sh, tol_dp)`. Building `dk` indexes the reciprocal
      lattice vectors by mesh axis (`IndexError` when there are fewer vectors
      than axes); `remove((0, 0))` raises `ValueError` unless the mesh is
      two-dimensional and `N_sh >= 0`. */
  function GetKShell(nks: seq<nat>, recip: seq<seq<real>>, nSh: int, tolDp: int): Result<Shells>
    requires Square(recip) && forall i :: 0 <= i < |nks| ==> nks[i] > 0
  {
    if |recip| < |nks| then Err(IndexError)
    else match NnbrIdx(|nks|, nSh)
      case Err(e) => Err(e)
      case Ok(offs) =>
        NnbrIdxShape(|nks|, nSh);
        var dk := DK(recip, nks);
        assert Fits(dk, offs) by {
          forall i | 0 <= i < |offs| ensures |offs[i]| <= |dk| { assert offs[i] in offs; }
        }
        Ok(ShellsOf(dk, offs, nSh, tolDp))
  }

  // ---------------------------------------------------------------------
  // Properties of the shells

  /** `get_k_shell` succeeds exactly for a two-dimensional mesh with at least
      two reciprocal lattice vectors and `N_sh >= 0`, and then groups the
      offsets of `NnbrIdx` by the rounded lengths of their vectors. */
  lemma GetKShellDefined(nks: seq<nat>, recip: seq<seq<real>>, nSh: int, tolDp: int)
    requires Square(recip) && forall i :: 0 <= i < |nks| ==> nks[i] > 0
    ensures GetKShell(nks, recip, nSh, tolDp).Ok? <==> |nks| == 2 && |recip| >= 2 && nSh >= 0
    ensures GetKShell(nks, recip, nSh, tolDp).Err? ==>
      GetKShell(nks, recip, nSh, tolDp).error == if |recip| < |nks| then IndexError else ValueError
    ensures GetKShell(nks, recip, nSh, tolDp).Ok? ==>
      NnbrIdx(2, nSh).Ok? && Fits(DK(recip, nks), NnbrIdx(2, nSh).value) &&
      GetKShell(nks, recip, nSh, tolDp).value == ShellsOf(DK(recip, nks), NnbrIdx(2, nSh).value, nSh, tolDp)
  {
    NnbrIdxDefined(|nks|, nSh);
    if |recip| >= |nks| && NnbrIdx(|nks|, nSh).Ok? {
      NnbrIdxShape(|nks|, nSh);
      var offs := NnbrIdx(|nks|, nSh).value;
      var dk := DK(recip, nks);
      assert Fits(dk, offs) by {
        forall i | 0 <= i < |offs| ensures |offs[i]| <= |dk| { assert offs[i] in offs; }
      }
    }
  }

  lemma SortedMember(dk: seq<seq<real>>, offs: seq<seq<int>>, tolDp: int, e: Entry)
    requires Fits(dk, offs)
    ensures e in Sorted(dk, offs, tolDp) <==>
      e.idx in offs && |e.idx| <= |dk| && e == MakeEntry(dk, tolDp, e.idx)
  {
    var es := Entries(dk, tolDp, offs);
    assert multiset(Sorted(dk, offs, tolDp)) == multiset(es);
    assert e in Sorted(dk, offs, tolDp) <==> e in multiset(es);
    EntriesMember(dk, tolDp, offs, e);
  }

  /** The distinct rounded distances are exactly the distances of the offsets. */
  lemma UniqueMember(dk: seq<seq<real>>, offs: seq<seq<int>>, tolDp: int, v: real)
    requires Fits(dk, offs)
    ensures v in Dedup(Dists(Sorted(dk, offs, tolDp))) <==>
      exists x :: x in offs && |x| <= |dk| && Dist(dk, tolDp, x) == v
  {
    var sorted := Sorted(dk, offs, tolDp);
    var ds := Dists(sorted);
    if v in ds {
      var i :| 0 <= i < |ds| && ds[i] == v;
      SortedMember(dk, offs, tolDp, sorted[i]);
    }
    if exists x :: x in offs && |x| <= |dk| && Dist(dk, tolDp, x) == v {
      var x :| x in offs && |x| <= |dk| && Dist(dk, tolDp, x) == v;
      var e := MakeEntry(dk, tolDp, x);
      SortedMember(dk, offs, tolDp, e);
      var i :| 0 <= i < |sorted| && sorted[i] == e;
      assert ds[i] == v;
    }
  }

  lemma IndicesMember(s: seq<Entry>, x: seq<int>)
    ensures x in Indices(s) <==> exists e :: e in s && e.idx == x
  {
    if exists e :: e in s && e.idx == x {
      var e :| e in s && e.idx == x;
      var i :| 0 <= i < |s| && s[i] == e;
      assert Indices(s)[i] == x;
    }
  }

  /** Shell `s` holds exactly the offsets whose rounded distance is `keep_dists[s]`. */
  lemma ShellMember(dk: seq<seq<real>>, offs: seq<seq<int>>, nSh: nat, tolDp: int, s: nat, x: seq<int>)
    requires Fits(dk, offs) && s < |ShellDists(dk, offs, nSh, tolDp)|
    ensures var sh := ShellsOf(dk, offs, nSh, tolDp);
      |sh.idxShell| == |sh.kShell| == |ShellDists(dk, offs, nSh, tolDp)| &&
      (x in sh.idxShell[s] <==>
         x in offs && |x| <= |dk| && Dist(dk, tolDp, x) == ShellDists(dk, offs, nSh, tolDp)[s])
  {
    var sorted := Sorted(dk, offs, tolDp);
    var v := ShellDists(dk, offs, nSh, tolDp)[s];
    var sel := Select(sorted, v);
    IndicesMember(sel, x);
    if x in offs && |x| <= |dk| && Dist(dk, tolDp, x) == v {
      SortedMember(dk, offs, tolDp, MakeEntry(dk, tolDp, x));
      assert MakeEntry(dk, tolDp, x) in sel;
    }
    if x in Indices(sel) {
      var e :| e in sel && e.idx == x;
      SortedMember(dk, offs, tolDp, e);
    }
  }

  /** The shell distances are strictly increasing, there are at most `N_sh`
      of them, and every one is the rounded distance of some offset. */
  lemma ShellDistsIncreasing(dk: seq<seq<real>>, offs: seq<seq<int>>, nSh: nat, tolDp: int)
    requires Fits(dk, offs)
    ensures var keep := ShellDists(dk, offs, nSh, tolDp);
      Increasing(keep) && |keep| <= nSh &&
      forall s :: 0 <= s < |keep| ==> exists x :: x in offs && |x| <= |dk| && Dist(dk, tolDp, x) == keep[s]
  {
    var keep := ShellDists(dk, offs, nSh, tolDp);
    var unique := Dedup(Dists(Sorted(dk, offs, tolDp)));
    forall s | 0 <= s < |keep|
      ensures exists x :: x in offs && |x| <= |dk| && Dist(dk, tolDp, x) == keep[s]
    {
      assert keep[s] == unique[s];
      UniqueMember(dk, offs, tolDp, keep[s]);
    }
  }

  /** No offset lies in two shells. */
  lemma ShellsDisjoint(dk: seq<seq<real>>, offs: seq<seq<int>>, nSh: nat, tolDp: int, s: nat, t: nat, x: seq<int>)
    requires Fits(dk, offs) && s < t < |ShellDists(dk, offs, nSh, tolDp)|
    ensures var sh := ShellsOf(dk, offs, nSh, tolDp);
      |sh.idxShell| == |ShellDists(dk, offs, nSh, tolDp)| && !(x in sh.idxShell[s] && x in sh.idxShell[t])
  {
    ShellMember(dk, offs, nSh, tolDp, s, x);
    ShellMember(dk, offs, nSh, tolDp, t, x);
    ShellDistsIncreasing(dk, offs, nSh, tolDp);
  }

  /** Every offset of an earlier shell is strictly closer than every offset of a later one. */
  lemma ShellsOrdered(dk: seq<seq<real>>, offs: seq<seq<int>>, nSh: nat, tolDp: int,
                      s: nat, t: nat, x: seq<int>, y: seq<int>)
    requires Fits(dk, offs) && s < t < |ShellDists(dk, offs, nSh, tolDp)|
    requires x in ShellsOf(dk, offs, nSh, tolDp).idxShell[s]
    requires y in ShellsOf(dk, offs, nSh, tolDp).idxShell[t]
    ensures |x| <= |dk| && |y| <= |dk| && Dist(dk, tolDp, x) < Dist(dk, tolDp, y)
  {
    ShellMember(dk, offs, nSh, tolDp, s, x);
    ShellMember(dk, offs, nSh, tolDp, t, y);
    ShellDistsIncreasing(dk, offs, nSh, tolDp);
  }

  /** The shells are the `N_sh` smallest distinct distances, with no gap: an
      offset closer than shell `s` belongs to an earlier shell, and an offset
      in no shell is farther than every shell, which only happens when all
      `N_sh` shells are taken. */
  lemma ShellsComplete(dk: seq<seq<real>>, offs: seq<seq<int>>, nSh: nat, tolDp: int, x: seq<int>)
    requires Fits(dk, offs) && x in offs
    ensures var keep := ShellDists(dk, offs, nSh, tolDp);
      |x| <= |dk| &&
      (forall s :: 0 <= s < |keep| && Dist(dk, tolDp, x) < keep[s] ==> Dist(dk, tolDp, x) in keep[..s]) &&
      (Dist(dk, tolDp, x) in keep ||
        (|keep| == nSh && forall s :: 0 <= s < |keep| ==> keep[s] < Dist(dk, tolDp, x)))
  {
    var unique := Dedup(Dists(Sorted(dk, offs, tolDp)));
    var i :| 0 <= i < |offs| && offs[i] == x;
    var v := Dist(dk, tolDp, x);
    UniqueMember(dk, offs, tolDp, v);
    PrefixComplete(unique, nSh, v);
  }

  /** A prefix of `nSh` values of an increasing sequence holding `v` skips no
      value up to `v`, and leaves `v` out only when it is full and below `v`. */
  lemma PrefixComplete(unique: seq<real>, nSh: nat, v: real)
    requires Increasing(unique) && v in unique
    ensures var keep := unique[..if nSh <= |unique| then nSh else |unique|];
      (forall s :: 0 <= s < |keep| && v < keep[s] ==> v in keep[..s]) &&
      (v in keep || (|keep| == nSh && forall s :: 0 <= s < |keep| ==> keep[s] < v))
  {
    var keep := unique[..if nSh <= |unique| then nSh else |unique|];
    var j :| 0 <= j < |unique| && unique[j] == v;
    forall s | 0 <= s < |keep| && v < keep[s] ensures v in keep[..s] {
      assert keep[s] == unique[s];
      assert j < s;
      assert keep[..s][j] == v;
    }
    if j < |keep| {
      assert keep[j] == v;
    } else {
      forall s | 0 <= s < |keep| ensures keep[s] < v {
        assert keep[s] == unique[s];
      }
    }
  }

  /** `k_shell[s][i]` is the vector `idx_shell[s][i] @ dk`. */
  lemma ShellVectors(dk: seq<seq<real>>, offs: seq<seq<int>>, nSh: nat, tolDp: int, s: nat, i: nat)
    requires Fits(dk, offs) && s < |ShellDists(dk, offs, nSh, tolDp)|
    requires i < |ShellsOf(dk, offs, nSh, tolDp).idxShell[s]|
    ensures var sh := ShellsOf(dk, offs, nSh, tolDp);
      |sh.kShell| == |sh.idxShell| && |sh.kShell[s]| == |sh.idxShell[s]| &&
      |sh.idxShell[s][i]| <= |dk| && sh.kShell[s][i] == BVec(dk, sh.idxShell[s][i])
  {
    var sorted := Sorted(dk, offs, tolDp);
    var sel := Select(sorted, ShellDists(dk, offs, nSh, tolDp)[s]);
    assert sel[i] in sel;
    SortedMember(dk, offs, tolDp, sel[i]);
  }

  function Neg(x: seq<int>): (r: seq<int>)
    ensures |r| == |x| && forall i :: 0 <= i < |x| ==> r[i] == -x[i]
  {
    seq(|x|, i requires 0 <= i < |x| => -x[i])
  }

  /** `a == -b` for Cartesian vectors. */
  predicate Opposite(a: seq<real>, b: seq<real>) {
    |a| == |b| && forall i :: 0 <= i < |b| ==> a[i] == -b[i]
  }

  lemma {:induction false} LinCombNeg(dk: seq<seq<real>>, x: seq<int>, c: nat)
    requires |x| <= |dk| && Rect(dk) && c < Cols(dk)
    ensures LinComb(dk, Neg(x), c) == -LinComb(dk, x, c)
    decreases |x|
  {
    if |x| > 0 {
      assert Neg(x)[..|x| - 1] == Neg(x[..|x| - 1]);
      LinCombNeg(dk, x[..|x| - 1], c);
    }
  }

  lemma {:induction false} SqNormNeg(a: seq<real>, b: seq<real>)
    requires Opposite(a, b)
    ensures SqNorm(a) == SqNorm(b)
  {
    if |b| > 0 {
      assert Opposite(a[1..], b[1..]) by {
        forall i | 0 <= i < |b[1..]| ensures a[1..][i] == -b[1..][i] {
          assert a[1..][i] == a[i + 1] && b[1..][i] == b[i + 1];
        }
      }
      SqNormNeg(a[1..], b[1..]);
    }
  }

  /** The offset `-x` has the vector `-b` and the same rounded distance as `x`. */
  lemma DistNeg(dk: seq<seq<real>>, tolDp: int, x: seq<int>)
    requires |x| <= |dk| && Rect(dk)
    ensures Opposite(BVec(dk, Neg(x)), BVec(dk, x))
    ensures Dist(dk, tolDp, Neg(x)) == Dist(dk, tolDp, x)
  {
    forall c | 0 <= c < Cols(dk) ensures BVec(dk, Neg(x))[c] == -BVec(dk, x)[c] {
      LinCombNeg(dk, x, c);
    }
    SqNormNeg(BVec(dk, Neg(x)), BVec(dk, x));
  }

  /** Shell `s` of `get_k_shell` holds exactly the two-component offsets in
      `[-N_sh, N_sh]^2`, other than zero, at rounded distance `keep_dists[s]`. */
  lemma GetKShellMember(nks: seq<nat>, recip: seq<seq<real>>, nSh: int, tolDp: int, s: nat, x: seq<int>)
    requires Square(recip) && forall i :: 0 <= i < |nks| ==> nks[i] > 0
    requires GetKShell(nks, recip, nSh, tolDp).Ok?
    requires s < |GetKShell(nks, recip, nSh, tolDp).value.idxShell|
    ensures nSh >= 0 && |nks| == 2 && NnbrIdx(2, nSh).Ok? && Fits(DK(recip, nks), NnbrIdx(2, nSh).value)
    ensures s < |ShellDists(DK(recip, nks), NnbrIdx(2, nSh).value, nSh, tolDp)|
    ensures x in GetKShell(nks, recip, nSh, tolDp).value.idxShell[s] <==>
      |x| == 2 && InCube(x, nSh) && x != [0, 0] &&
      Dist(DK(recip, nks), tolDp, x) == ShellDists(DK(recip, nks), NnbrIdx(2, nSh).value, nSh, tolDp)[s]
  {
    GetKShellDefined(nks, recip, nSh, tolDp);
    var dk := DK(recip, nks);
    var offs := NnbrIdx(2, nSh).value;
    ShellMember(dk, offs, nSh, tolDp, s, x);
    NnbrIdxMember(2, nSh, x);
  }

  /** Every shell is symmetric under `b -> -b`. */
  lemma ShellSymmetric(nks: seq<nat>, recip: seq<seq<real>>, nSh: int, tolDp: int, s: nat, x: seq<int>)
    requires Square(recip) && forall i :: 0 <= i < |nks| ==> nks[i] > 0
    requires GetKShell(nks, recip, nSh, tolDp).Ok?
    requires s < |GetKShell(nks, recip, nSh, tolDp).value.idxShell|
    ensures var sh := GetKShell(nks, recip, nSh, tolDp).value;
      x in sh.idxShell[s] <==> Neg(x) in sh.idxShell[s]
  {
    GetKShellMember(nks, recip, nSh, tolDp, s, x);
    GetKShellMember(nks, recip, nSh, tolDp, s, Neg(x));
    if |x| == 2 {
      DistNeg(DK(recip, nks), tolDp, x);
      NegPair(x, nSh);
    }
  }

  /** Negating a pair keeps it nonzero and inside the cube. */
  lemma NegPair(x: seq<int>, n: int)
    requires |x| == 2
    ensures x == [0, 0] <==> Neg(x) == [0, 0]
    ensures InCube(x, n) <==> InCube(Neg(x), n)
  {
    if Neg(x) == [0, 0] { assert x[0] == -Neg(x)[0] && x[1] == -Neg(x)[1]; }
    if InCube(Neg(x), n) {
      forall i | 0 <= i < 2 ensures -n <= x[i] <= n { assert Neg(x)[i] == -x[i]; }
    }
  }
}
