/** Divided differences and the Newton form of the interpolating polynomial. */
module NewtonForm {

  /** The nodes x_lo, ..., x_hi are pairwise different. */
  predicate DistinctRange(x: seq<real>, lo: nat, hi: nat)
    requires hi < |x|
  {
    forall i, j :: lo <= i < j <= hi ==> x[i] != x[j]
  }

  /** No two nodes coincide. */
  predicate DistinctNodes(x: seq<real>)
  {
    forall i, j :: 0 <= i < j < |x| ==> x[i] != x[j]
  }

  /** f[x_k, ..., x_(k+s)]: f_k for s = 0, else (f[x_(k+1), ..., x_(k+s)] - f[x_k, ..., x_(k+s-1)]) / (x_(k+s) - x_k). */
  function DividedDifference(x: seq<real>, f: seq<real>, k: nat, s: nat): real
    requires |f| == |x| && k + s < |x| && DistinctRange(x, k, k + s)
    decreases s
  {
    if s == 0 then f[k]
    else (DividedDifference(x, f, k + 1, s - 1) - DividedDifference(x, f, k, s - 1)) / (x[k + s] - x[k])
  }

  /** (t - x_i) (t - x_(i+1)) ... (t - x_(i+s-1)). */
  function NodeProduct(x: seq<real>, i: nat, s: nat, t: real): real
    requires i + s <= |x|
  {
    if s == 0 then 1.0 else NodeProduct(x, i, s - 1, t) * (t - x[i + s - 1])
  }

  /** The Newton form through the nodes x_i, ..., x_(i+s): the sum over m <= s of f[x_i, ..., x_(i+m)] (t - x_i) ... (t - x_(i+m-1)). */
  function Interpolant(x: seq<real>, f: seq<real>, i: nat, s: nat, t: real): real
    requires |f| == |x| && i + s < |x| && DistinctRange(x, i, i + s)
    decreases s
  {
    if s == 0 then f[i]
    else Interpolant(x, f, i, s - 1, t) + DividedDifference(x, f, i, s) * NodeProduct(x, i, s, t)
  }

  /** The Newton form with coefficients d: d_0 + d_1 (t - x_0) + ... + d_(m-1) (t - x_0) ... (t - x_(m-2)) with m = |d|. */
  function NewtonSum(d: seq<real>, x: seq<real>, t: real): real
    requires |d| <= |x| + 1
  {
    if |d| == 0 then 0.0 else NewtonSum(d[..|d| - 1], x, t) + d[|d| - 1] * NodeProduct(x, 0, |d| - 1, t)
  }

  // ---------------------------------------------------------------------------
  // Node products

  lemma {:induction false} DividedDifferenceUnfold(x: seq<real>, f: seq<real>, k: nat, s: nat)
    requires |f| == |x| && k + s < |x| && DistinctRange(x, k, k + s) && s > 0
    ensures DistinctRange(x, k + 1, k + s) && DistinctRange(x, k, k + s - 1) && x[k + s] != x[k]
    ensures DividedDifference(x, f, k, s)
      == (DividedDifference(x, f, k + 1, s - 1) - DividedDifference(x, f, k, s - 1)) / (x[k + s] - x[k])
  {
  }

  lemma {:induction false} InterpolantUnfold(x: seq<real>, f: seq<real>, i: nat, s: nat, t: real)
    requires |f| == |x| && i + s < |x| && DistinctRange(x, i, i + s) && s > 0
    ensures DistinctRange(x, i, i + s - 1)
    ensures Interpolant(x, f, i, s, t) == Interpolant(x, f, i, s - 1, t) + DividedDifference(x, f, i, s) * NodeProduct(x, i, s, t)
  {
  }

  lemma {:induction false} InterpolantZero(x: seq<real>, f: seq<real>, i: nat, t: real)
    requires |f| == |x| && i < |x|
    ensures DistinctRange(x, i, i) && Interpolant(x, f, i, 0, t) == f[i]
  {
  }

  lemma {:induction false} DividedDifferenceZero(x: seq<real>, f: seq<real>, k: nat)
    requires |f| == |x| && k < |x|
    ensures DistinctRange(x, k, k) && DividedDifference(x, f, k, 0) == f[k]
  {
  }

  lemma {:induction false} NodeProductZero(x: seq<real>, i: nat, t: real)
    requires i <= |x|
    ensures NodeProduct(x, i, 0, t) == 1.0
  {
  }

  lemma {:induction false} NodeProductUnfold(x: seq<real>, i: nat, s: nat, t: real)
    requires i + s <= |x| && s > 0
    ensures NodeProduct(x, i, s, t) == NodeProduct(x, i, s - 1, t) * (t - x[i + s - 1])
  {
  }

  lemma {:induction false} DistinctSubRange(x: seq<real>, lo: nat, hi: nat, lo': nat, hi': nat)
    requires hi < |x| && DistinctRange(x, lo, hi) && lo <= lo' && hi' <= hi
    ensures DistinctRange(x, lo', hi')
  {
  }

  /** Peeling the first factor: (t - x_i) times the product over x_(i+1), ..., x_(i+s-1). */
  lemma {:induction false} NodeProductFront(x: seq<real>, i: nat, s: nat, t: real)
    requires 1 <= s && i + s <= |x|
    ensures NodeProduct(x, i, s, t) == (t - x[i]) * NodeProduct(x, i + 1, s - 1, t)
  {
    if s > 1 {
      NodeProductFront(x, i, s - 1, t);
      assert NodeProduct(x, i + 1, s - 1, t) == NodeProduct(x, i + 1, s - 2, t) * (t - x[i + s - 1]);
    }
  }

  /** The product vanishes at each of its own nodes. */
  lemma {:induction false} NodeProductVanishes(x: seq<real>, i: nat, s: nat, j: nat)
    requires j < s && i + s <= |x|
    ensures NodeProduct(x, i, s, x[i + j]) == 0.0
  {
    if j < s - 1 {
      NodeProductVanishes(x, i, s - 1, j);
    }
  }

  // ---------------------------------------------------------------------------
  // Interpolation

  /**
   * Two Newton forms through overlapping nodes differ by a multiple of the product over the shared ones:
   * P_(i+1,s)(t) - P_(i,s)(t) == (f[x_(i+1), ..., x_(i+s+1)] - f[x_i, ..., x_(i+s)]) (t - x_(i+1)) ... (t - x_(i+s)).
   */
  lemma {:induction false} InterpolantDifference(x: seq<real>, f: seq<real>, i: nat, s: nat, t: real)
    requires |f| == |x| && i + s + 1 < |x| && DistinctRange(x, i, i + s + 1)
    ensures Interpolant(x, f, i + 1, s, t) - Interpolant(x, f, i, s, t)
      == (DividedDifference(x, f, i + 1, s) - DividedDifference(x, f, i, s)) * NodeProduct(x, i + 1, s, t)
    decreases s
  {
    hide *;
    if s == 0 {
      InterpolantZero(x, f, i, t);
      InterpolantZero(x, f, i + 1, t);
      assert DistinctRange(x, i, i + 1);
      DividedDifferenceUnfold(x, f, i, 1);
      DividedDifferenceZero(x, f, i);
      DividedDifferenceZero(x, f, i + 1);
      NodeProductZero(x, i + 1, t);
    } else {
      DistinctSubRange(x, i, i + s + 1, i, i + s);
      DistinctSubRange(x, i, i + s + 1, i + 1, i + s + 1);
      InterpolantDifference(x, f, i, s - 1, t);
      InterpolantUnfold(x, f, i, s, t);
      InterpolantUnfold(x, f, i + 1, s, t);
      DividedDifferenceUnfold(x, f, i, s);
      NodeProductUnfold(x, i + 1, s, t);
      NodeProductFront(x, i, s, t);
      DifferenceArith(
        Interpolant(x, f, i + 1, s - 1, t), Interpolant(x, f, i, s - 1, t),
        DividedDifference(x, f, i + 1, s - 1) - DividedDifference(x, f, i, s - 1),
        DividedDifference(x, f, i, s), DividedDifference(x, f, i + 1, s),
        NodeProduct(x, i + 1, s - 1, t), x[i], x[i + s], t);
      assert NodeProduct(x, i + 1, s, t) == NodeProduct(x, i + 1, s - 1, t) * (t - x[i + s]);
      assert Interpolant(x, f, i + 1, s, t) == Interpolant(x, f, i + 1, s - 1, t) + DividedDifference(x, f, i + 1, s) * (NodeProduct(x, i + 1, s - 1, t) * (t - x[i + s]));
      assert Interpolant(x, f, i, s, t) == Interpolant(x, f, i, s - 1, t) + DividedDifference(x, f, i, s) * ((t - x[i]) * NodeProduct(x, i + 1, s - 1, t));
    }
  }

  lemma {:induction false} DifferenceArith(a: real, b: real, dd: real, q: real, e: real, p: real, xi: real, xs: real, t: real)
    requires xs != xi && a - b == dd * p && q == dd / (xs - xi)
    ensures (a + e * (p * (t - xs))) - (b + q * ((t - xi) * p)) == (e - q) * (p * (t - xs))
  {
    assert dd == q * (xs - xi);
    calc {
      (a + e * (p * (t - xs))) - (b + q * ((t - xi) * p));
      (a - b) + e * (p * (t - xs)) - q * ((t - xi) * p);
      q * (xs - xi) * p + e * (p * (t - xs)) - q * ((t - xi) * p);
      (e - q) * (p * (t - xs));
    }
  }

  /** The Newton form through x_i, ..., x_(i+s) takes the value f_(i+j) at x_(i+j). */
  lemma {:induction false} InterpolantAtNode(x: seq<real>, f: seq<real>, i: nat, s: nat, j: nat)
    requires |f| == |x| && i + s < |x| && DistinctRange(x, i, i + s) && j <= s
    ensures Interpolant(x, f, i, s, x[i + j]) == f[i + j]
    decreases s
  {
    hide *;
    if s == 0 {
      InterpolantZero(x, f, i, x[i + j]);
    } else {
      var t := x[i + j];
      InterpolantUnfold(x, f, i, s, t);
      if j < s {
        InterpolantAtNode(x, f, i, s - 1, j);
        NodeProductVanishes(x, i, s, j);
      } else {
        DistinctSubRange(x, i, i + s, i + 1, i + s);
        DividedDifferenceUnfold(x, f, i, s);
        InterpolantAtNode(x, f, i + 1, s - 1, s - 1);
        InterpolantAtNode(x, f, i, s - 1, s - 1);
        InterpolantDifference(x, f, i, s - 1, t);
        NodeProductFront(x, i, s, t);
        LastNodeArith(
          Interpolant(x, f, i + 1, s - 1, t), Interpolant(x, f, i, s - 1, t),
          DividedDifference(x, f, i + 1, s - 1) - DividedDifference(x, f, i, s - 1),
          DividedDifference(x, f, i, s), NodeProduct(x, i + 1, s - 1, t), x[i], t);
      }
    }
  }

  lemma {:induction false} LastNodeArith(a: real, b: real, dd: real, q: real, p: real, xi: real, t: real)
    requires t != xi && a - b == dd * p && q == dd / (t - xi)
    ensures b + q * ((t - xi) * p) == a
  {
    assert dd == q * (t - xi);
  }

  /** The Newton form with the divided differences f[x_0, ..., x_m] as coefficients is the interpolant through x_0, ..., x_s. */
  lemma {:induction false} NewtonSumIsInterpolant(d: seq<real>, x: seq<real>, f: seq<real>, s: nat, t: real)
    requires |f| == |x| && s < |x| && DistinctRange(x, 0, s) && |d| == s + 1
    requires forall m :: 0 <= m <= s ==> d[m] == DividedDifference(x, f, 0, m)
    ensures NewtonSum(d, x, t) == Interpolant(x, f, 0, s, t)
    decreases s
  {
    hide *;
    NewtonSumUnfold(d, x, t);
    if s == 0 {
      NewtonSumEmpty(d[..0], x, t);
      NodeProductZero(x, 0, t);
      InterpolantZero(x, f, 0, t);
      DividedDifferenceZero(x, f, 0);
    } else {
      var d' := d[..s];
      forall m | 0 <= m <= s - 1
        ensures DistinctRange(x, 0, m) && d'[m] == DividedDifference(x, f, 0, m)
      {
        DistinctSubRange(x, 0, s, 0, m);
      }
      DistinctSubRange(x, 0, s, 0, s - 1);
      NewtonSumIsInterpolant(d', x, f, s - 1, t);
      InterpolantUnfold(x, f, 0, s, t);
    }
  }

  lemma {:induction false} NewtonSumUnfold(d: seq<real>, x: seq<real>, t: real)
    requires 1 <= |d| <= |x| + 1
    ensures NewtonSum(d, x, t) == NewtonSum(d[..|d| - 1], x, t) + d[|d| - 1] * NodeProduct(x, 0, |d| - 1, t)
  {
  }

  lemma {:induction false} NewtonSumEmpty(d: seq<real>, x: seq<real>, t: real)
    requires |d| == 0
    ensures NewtonSum(d, x, t) == 0.0
  {
  }

  /** Hence the Newton form with the divided differences f[x_0, ..., x_m] as coefficients takes the value f_k at every node x_k. */
  lemma {:induction false} NewtonSumInterpolates(d: seq<real>, x: seq<real>, f: seq<real>, k: nat)
    requires |f| == |x| && |d| == |x| && DistinctNodes(x) && k < |x|
    requires forall m :: 0 <= m < |d| ==> d[m] == DividedDifference(x, f, 0, m)
    ensures NewtonSum(d, x, x[k]) == f[k]
  {
    NewtonSumIsInterpolant(d, x, f, |x| - 1, x[k]);
    InterpolantAtNode(x, f, 0, |x| - 1, k);
  }

  // ---------------------------------------------------------------------------
  // The divided-difference table

  /** Entry (k, s) of the table: f[x_k, ..., x_(k+s)] where it is defined, and 0 elsewhere. */
  function TableEntry(x: seq<real>, f: seq<real>, k: nat, s: nat): real
    requires |f| == |x|
  {
    if k + s < |x| && DistinctRange(x, k, k + s) then DividedDifference(x, f, k, s) else 0.0
  }

  /** dd is the (n + 1) x (n + 1) divided-difference table of the nodes x and the data f. */
  ghost predicate IsTable(dd: array2<real>, x: seq<real>, f: seq<real>)
    requires |f| == |x|
    reads dd
  {
    dd.Length0 == |x| && dd.Length1 == |x|
    && forall k, s :: 0 <= k < |x| && 0 <= s < |x| ==> dd[k, s] == TableEntry(x, f, k, s)
  }

  /** Row 0 of a table: the coefficients f[x_0, ..., x_m] of the Newton form. */
  function FirstRow(dd: array2<real>): (r: seq<real>)
    requires dd.Length0 >= 1
    reads dd
    ensures |r| == dd.Length1
  {
    seq(dd.Length1, m requires 0 <= m < dd.Length1 reads dd => dd[0, m])
  }

  /** The nodes whose indices differ by less than g are pairwise different. */
  predicate Gapped(x: seq<real>, g: nat)
  {
    forall i, j :: 0 <= i < j < |x| && j - i < g ==> x[i] != x[j]
  }

  /** Comparing every pair at distance g extends the distinctness to distance g + 1, and distance |x| covers all pairs. */
  lemma {:induction false} GappedStep(x: seq<real>, g: nat)
    requires Gapped(x, g) && forall i :: 0 <= i && i + g < |x| ==> x[i] != x[i + g]
    ensures Gapped(x, g + 1)
  {
    forall i, j | 0 <= i < j < |x| && j - i < g + 1
      ensures x[i] != x[j]
    {
      if j - i == g {
        assert x[i] != x[i + g];
      }
    }
  }

  lemma {:induction false} GappedAll(x: seq<real>)
    requires Gapped(x, |x|)
    ensures DistinctNodes(x)
  {
  }

  /** A range of length at most g is distinct once its two ends differ. */
  lemma {:induction false} GappedRange(x: seq<real>, g: nat, k: nat)
    requires Gapped(x, g) && k + g < |x| && x[k] != x[k + g]
    ensures DistinctRange(x, k, k + g)
  {
  }

  /** The table's recurrence: for s >= 1 on a distinct range, entry (k, s) comes from entries (k + 1, s - 1) and (k, s - 1). */
  lemma {:induction false} TableEntryStep(x: seq<real>, f: seq<real>, k: nat, s: nat)
    requires |f| == |x| && s >= 1 && k + s < |x| && DistinctRange(x, k, k + s)
    ensures TableEntry(x, f, k, s) == (TableEntry(x, f, k + 1, s - 1) - TableEntry(x, f, k, s - 1)) / (x[k + s] - x[k])
  {
    DividedDifferenceUnfold(x, f, k, s);
  }

  /** Under distinct nodes, row 0 of a table holds the divided differences f[x_0, ..., x_m]. */
  lemma {:induction false} TableFirstRow(dd: array2<real>, x: seq<real>, f: seq<real>)
    requires |f| == |x| >= 1 && DistinctNodes(x) && IsTable(dd, x, f)
    ensures |FirstRow(dd)| == |x|
    ensures forall m :: 0 <= m < |x| ==> DistinctRange(x, 0, m) && FirstRow(dd)[m] == DividedDifference(x, f, 0, m)
  {
    forall m | 0 <= m < |x|
      ensures DistinctRange(x, 0, m) && FirstRow(dd)[m] == DividedDifference(x, f, 0, m)
    {
      assert dd[0, m] == TableEntry(x, f, 0, m);
    }
  }
}
