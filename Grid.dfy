/** Index arithmetic the mesh is built from: Python's `range`,
    `itertools.product`, lexicographic order on index tuples and NumPy's
    row-major (C-order) addressing of a multi-dimensional array. */
module Grid {

  /** Python's `range(lo, hi)`. */
  function Range(lo: int, hi: int): (r: seq<int>)
    ensures |r| == if lo <= hi then hi - lo else 0
    ensures forall x :: x in r <==> lo <= x < hi
    ensures StrictlyIncreasing(r)
  {
    var r := seq(if lo <= hi then hi - lo else 0, i => lo + i);
    assert forall x :: lo <= x < hi ==> x in r by {
      forall x | lo <= x < hi ensures x in r { assert r[x - lo] == x; }
    }
    r
  }

  predicate StrictlyIncreasing(s: seq<int>) {
    forall i, j :: 0 <= i < j < |s| ==> s[i] < s[j]
  }

  // ---------------------------------------------------------------------
  // itertools.product

  /** `[x] + t` for every tuple `t` of `tails`, in order. */
  function Cons<T>(x: T, tails: seq<seq<T>>): seq<seq<T>> {
    seq(|tails|, i requires 0 <= i < |tails| => [x] + tails[i])
  }

  /** `[(x,) + t for x in xs for t in tails]`. */
  function Prepend<T>(xs: seq<T>, tails: seq<seq<T>>): seq<seq<T>>
    decreases |xs|
  {
    if |xs| == 0 then [] else Cons(xs[0], tails) + Prepend(xs[1..], tails)
  }

  /** `list(itertools.product(*axes))`: the first axis varies slowest. */
  function Product<T>(axes: seq<seq<T>>): seq<seq<T>>
    decreases |axes|
  {
    if |axes| == 0 then [[]] else Prepend(axes[0], Product(axes[1..]))
  }

  function Sizes<T>(axes: seq<seq<T>>): seq<nat> {
    seq(|axes|, i requires 0 <= i < |axes| => |axes[i]|)
  }

  /** `numpy.prod` of a list of counts. */
  function Prod(ns: seq<nat>): nat {
    if |ns| == 0 then 1 else ns[0] * Prod(ns[1..])
  }

  /** Every component of `k` is a valid index along its axis. */
  predicate InBounds(dims: seq<nat>, k: seq<int>) {
    |k| == |dims| && forall i :: 0 <= i < |k| ==> 0 <= k[i] < dims[i]
  }

  /** Row-major (C-order) flat position of the multi-index `k` in an array of shape `dims`. */
  function RowMajor(dims: seq<nat>, k: seq<int>): int
    requires |k| == |dims|
  {
    if |dims| == 0 then 0 else k[0] * Prod(dims[1..]) + RowMajor(dims[1..], k[1..])
  }

  /** Every in-bounds multi-index has a flat position inside the array. */
  lemma {:induction false} RowMajorBounds(dims: seq<nat>, k: seq<int>)
    requires InBounds(dims, k)
    ensures 0 <= RowMajor(dims, k) < Prod(dims)
  {
    if |dims| > 0 {
      assert InBounds(dims[1..], k[1..]) by {
        forall i | 0 <= i < |k[1..]| ensures 0 <= k[1..][i] < dims[1..][i] {
          assert k[1..][i] == k[i + 1];
        }
      }
      RowMajorBounds(dims[1..], k[1..]);
      var p := Prod(dims[1..]);
      assert k[0] * p + RowMajor(dims[1..], k[1..]) < (k[0] + 1) * p <= dims[0] * p;
    }
  }

  lemma {:induction false} PrependLength<T>(xs: seq<T>, tails: seq<seq<T>>)
    ensures |Prepend(xs, tails)| == |xs| * |tails|
  {
    if |xs| > 0 {
      PrependLength(xs[1..], tails);
      assert |xs| * |tails| == |tails| + (|xs| - 1) * |tails|;
    }
  }

  lemma {:induction false} PrependAt<T>(xs: seq<T>, tails: seq<seq<T>>, a: nat, r: nat)
    requires a < |xs| && r < |tails|
    ensures a * |tails| + r < |Prepend(xs, tails)|
    ensures Prepend(xs, tails)[a * |tails| + r] == [xs[a]] + tails[r]
  {
    PrependLength(xs, tails);
    BlockIndex(a, |tails|, r, |xs|);
    if a > 0 {
      PrependAt(xs[1..], tails, a - 1, r);
    }
  }

  /** Position `r` of block `a` of `m` blocks of `n` lies inside the blocks,
      and past the first block when `a > 0`. */
  lemma BlockIndex(a: nat, n: nat, r: nat, m: nat)
    requires a < m && r < n
    ensures a * n + r < m * n
    ensures a > 0 ==> a * n + r == n + ((a - 1) * n + r)
  {
    assert a * n + r < (a + 1) * n <= m * n;
  }

  lemma {:induction false} PrependMember<T>(xs: seq<T>, tails: seq<seq<T>>, t: seq<T>)
    ensures t in Prepend(xs, tails) <==> |t| > 0 && t[0] in xs && t[1..] in tails
  {
    if |xs| > 0 {
      PrependMember(xs[1..], tails, t);
      var c := Cons(xs[0], tails);
      assert Prepend(xs, tails) == c + Prepend(xs[1..], tails);
      if t in c {
        var i :| 0 <= i < |c| && c[i] == t;
        assert t[1..] == tails[i];
      }
      if |t| > 0 && t[0] == xs[0] && t[1..] in tails {
        var i :| 0 <= i < |tails| && tails[i] == t[1..];
        assert c[i] == t;
      }
    }
  }

  lemma {:induction false} ProductLength<T>(axes: seq<seq<T>>)
    ensures |Product(axes)| == Prod(Sizes(axes))
  {
    if |axes| > 0 {
      ProductLength(axes[1..]);
      PrependLength(axes[0], Product(axes[1..]));
      assert Sizes(axes)[1..] == Sizes(axes[1..]);
    }
  }

  /** A tuple is produced exactly when each component comes from its own axis. */
  lemma {:induction false} ProductMember<T>(axes: seq<seq<T>>, t: seq<T>)
    ensures t in Product(axes) <==> |t| == |axes| && forall i :: 0 <= i < |t| ==> t[i] in axes[i]
  {
    if |axes| > 0 {
      PrependMember(axes[0], Product(axes[1..]), t);
      if |t| > 0 {
        ProductMember(axes[1..], t[1..]);
        if |t| == |axes| && forall i :: 0 <= i < |t| ==> t[i] in axes[i] {
          assert forall i :: 0 <= i < |t[1..]| ==> t[1..][i] in axes[1..][i] by {
            forall i | 0 <= i < |t[1..]| ensures t[1..][i] in axes[1..][i] {
              assert t[1..][i] == t[i + 1] && axes[1..][i] == axes[i + 1];
            }
          }
        }
        if t in Product(axes) {
          forall i | 0 <= i < |t| ensures t[i] in axes[i] {
            if i > 0 { assert t[1..][i - 1] == t[i] && axes[1..][i - 1] == axes[i]; }
          }
        }
      }
    }
  }

  /** The tuple at row-major position `RowMajor(k)` picks element `k[i]` of each axis. */
  lemma {:induction false} ProductAt<T>(axes: seq<seq<T>>, k: seq<int>)
    requires InBounds(Sizes(axes), k)
    ensures 0 <= RowMajor(Sizes(axes), k) < |Product(axes)|
    ensures Product(axes)[RowMajor(Sizes(axes), k)]
            == seq(|axes|, i requires 0 <= i < |axes| => axes[i][k[i]])
  {
    if |axes| > 0 {
      var rest := Product(axes[1..]);
      assert Sizes(axes)[1..] == Sizes(axes[1..]);
      assert InBounds(Sizes(axes[1..]), k[1..]) by {
        forall i | 0 <= i < |k[1..]| ensures 0 <= k[1..][i] < Sizes(axes[1..])[i] {
          assert k[1..][i] == k[i + 1];
        }
      }
      ProductAt(axes[1..], k[1..]);
      ProductLength(axes[1..]);
      RowMajorBounds(Sizes(axes[1..]), k[1..]);
      var r := RowMajor(Sizes(axes[1..]), k[1..]);
      PrependAt(axes[0], rest, k[0], r);
      assert RowMajor(Sizes(axes), k) == k[0] * |rest| + r;
      ConsAt(axes, k, rest[r]);
    }
  }

  /** Picking `k[0]` from the first axis in front of the picks from the others
      is picking `k[i]` from every axis. */
  lemma ConsAt<T>(axes: seq<seq<T>>, k: seq<int>, tail: seq<T>)
    requires |axes| > 0 && InBounds(Sizes(axes), k)
    requires tail == seq(|axes| - 1, i requires 0 <= i < |axes| - 1 => axes[1..][i][k[1..][i]])
    ensures [axes[0][k[0]]] + tail == seq(|axes|, i requires 0 <= i < |axes| => axes[i][k[i]])
  {
    var want := seq(|axes|, i requires 0 <= i < |axes| => axes[i][k[i]]);
    var got := [axes[0][k[0]]] + tail;
    forall i | 0 <= i < |want| ensures got[i] == want[i] {
      if i > 0 { assert got[i] == tail[i - 1] == axes[1..][i - 1][k[1..][i - 1]]; }
    }
  }

  // ---------------------------------------------------------------------
  // Lexicographic order on integer tuples

  predicate LexLess(a: seq<int>, b: seq<int>)
    decreases |a|
  {
    |a| > 0 && |b| > 0 && (a[0] < b[0] || (a[0] == b[0] && LexLess(a[1..], b[1..])))
  }

  /** Strictly increasing in lexicographic order, hence without repetitions. */
  predicate LexSorted(r: seq<seq<int>>) {
    forall i, j :: 0 <= i < j < |r| ==> LexLess(r[i], r[j])
  }

  lemma {:induction false} LexLessIrreflexive(a: seq<int>)
    ensures !LexLess(a, a)
  {
    if |a| > 0 { LexLessIrreflexive(a[1..]); }
  }

  lemma {:induction false} LexLessTransitive(a: seq<int>, b: seq<int>, c: seq<int>)
    requires LexLess(a, b) && LexLess(b, c)
    ensures LexLess(a, c)
  {
    if a[0] == b[0] && b[0] == c[0] { LexLessTransitive(a[1..], b[1..], c[1..]); }
  }

  /** A lexicographically sorted list never lists a tuple twice. */
  lemma LexSortedDistinct(r: seq<seq<int>>)
    requires LexSorted(r)
    ensures forall i, j :: 0 <= i < |r| && 0 <= j < |r| && i != j ==> r[i] != r[j]
  {
    forall i, j | 0 <= i < |r| && 0 <= j < |r| && i != j ensures r[i] != r[j] {
      if i < j { LexLessIrreflexive(r[i]); } else { LexLessIrreflexive(r[j]); }
    }
  }

  lemma LexSortedConcat(a: seq<seq<int>>, b: seq<seq<int>>)
    requires LexSorted(a) && LexSorted(b)
    requires forall x, y :: x in a && y in b ==> LexLess(x, y)
    ensures LexSorted(a + b)
  {
    var c := a + b;
    forall i, j | 0 <= i < j < |c| ensures LexLess(c[i], c[j]) {
      if j < |a| {
        assert c[i] == a[i] && c[j] == a[j];
      } else if i >= |a| {
        assert c[i] == b[i - |a|] && c[j] == b[j - |a|];
      } else {
        assert c[i] in a && c[j] in b;
      }
    }
  }

  lemma {:induction false} PrependSorted(xs: seq<int>, tails: seq<seq<int>>)
    requires StrictlyIncreasing(xs) && LexSorted(tails)
    ensures LexSorted(Prepend(xs, tails))
  {
    if |xs| > 0 {
      var c := Cons(xs[0], tails);
      var rest := Prepend(xs[1..], tails);
      PrependSorted(xs[1..], tails);
      forall i, j | 0 <= i < j < |c| ensures LexLess(c[i], c[j]) {
        assert c[i][1..] == tails[i] && c[j][1..] == tails[j];
      }
      forall x, y | x in c && y in rest ensures LexLess(x, y) {
        PrependMember(xs[1..], tails, y);
        assert x[0] == xs[0];
      }
      LexSortedConcat(c, rest);
    }
  }

  /** The product of strictly increasing axes is strictly increasing in lexicographic order. */
  lemma {:induction false} ProductSorted(axes: seq<seq<int>>)
    requires forall i :: 0 <= i < |axes| ==> StrictlyIncreasing(axes[i])
    ensures LexSorted(Product(axes))
  {
    if |axes| > 0 {
      ProductSorted(axes[1..]);
      PrependSorted(axes[0], Product(axes[1..]));
    }
  }
}
