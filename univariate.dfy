/**
 * The univariate Newton-Bernstein interpolator: an object that caches its divided-difference table
 * and its Bernstein control points, and evaluates the interpolant in Newton form or in Bernstein form.
 */
module Univariate {
  import opened Wrappers
  import opened Sums
  import opened Binomial
  import opened BernsteinBasis
  import opened NewtonForm
  import opened DegreeRaising
  import Bernstein

  /**
   * The parameter in [0, 1] of a point, relative to the smallest and the largest node. With a single node
   * the program divides 0 by 0; the degree is then 0 and the Bernstein sum is c_0 whatever the parameter,
   * so 0 stands in for it.
   */
  function NodeParameter(x: seq<real>, xEval: real): real
    requires |x| >= 1
  {
    var lo := Bernstein.MinOf(x);
    var hi := Bernstein.MaxOf(x);
    if hi == lo then 0.0 else (xEval - lo) / (hi - lo)
  }

  /** When the nodes span a proper interval, the parameter is undone by lo + t (hi - lo) and lies in [0, 1] exactly for points between the nodes. */
  lemma {:induction false} NodeParameterRange(x: seq<real>, xEval: real)
    requires |x| >= 1 && Bernstein.MinOf(x) < Bernstein.MaxOf(x)
    ensures Bernstein.MinOf(x) + NodeParameter(x, xEval) * (Bernstein.MaxOf(x) - Bernstein.MinOf(x)) == xEval
    ensures 0.0 <= NodeParameter(x, xEval) <= 1.0 <==> Bernstein.MinOf(x) <= xEval <= Bernstein.MaxOf(x)
  {
    hide *;
    NodeParameterUnfold(x, xEval);
    RescaleRange(Bernstein.MinOf(x), Bernstein.MaxOf(x), xEval, NodeParameter(x, xEval));
  }

  lemma {:induction false} NodeParameterUnfold(x: seq<real>, xEval: real)
    requires |x| >= 1 && Bernstein.MinOf(x) != Bernstein.MaxOf(x)
    ensures NodeParameter(x, xEval) == (xEval - Bernstein.MinOf(x)) / (Bernstein.MaxOf(x) - Bernstein.MinOf(x))
  {
  }

  lemma {:induction false} SignOfProduct(u: real, h: real, p: real)
    requires h > 0.0 && p == u * h
    ensures u < 0.0 <==> p < 0.0
    ensures u > 0.0 <==> p > 0.0
  {
  }

  /** The linear core of the rescale's range: p = t (hi - lo) and q = (t - 1) (hi - lo) carry the signs of t and t - 1. */
  lemma {:induction false} RangeBySigns(lo: real, hi: real, y: real, t: real, p: real, q: real)
    requires lo < hi && p == y - lo && q == p - (hi - lo)
    requires (t < 0.0 <==> p < 0.0) && (t - 1.0 > 0.0 <==> q > 0.0)
    ensures 0.0 <= t <= 1.0 <==> lo <= y <= hi
  {
  }

  /** The rescale t = (y - lo) / (hi - lo) is undone by lo + t (hi - lo), and maps [lo, hi] onto [0, 1]. */
  lemma {:induction false} RescaleRange(lo: real, hi: real, y: real, t: real)
    requires lo < hi && t == (y - lo) / (hi - lo)
    ensures lo + t * (hi - lo) == y
    ensures 0.0 <= t <= 1.0 <==> lo <= y <= hi
  {
    Bernstein.ParameterInverse(lo, hi, y, t);
    var p := t * (hi - lo);
    var q := (t - 1.0) * (hi - lo);
    assert q == p - (hi - lo);
    SignOfProduct(t, hi - lo, p);
    SignOfProduct(t - 1.0, hi - lo, q);
    RangeBySigns(lo, hi, y, t, p, q);
  }

  /** On nodes spanning exactly [0, 1] the parameter is the point itself. */
  lemma {:induction false} NodeParameterOnUnitInterval(x: seq<real>, xEval: real)
    requires |x| >= 1 && Bernstein.MinOf(x) == 0.0 && Bernstein.MaxOf(x) == 1.0
    ensures NodeParameter(x, xEval) == xEval
  {
  }

  /** Distinct nodes whose smallest and largest coincide are a single node. */
  lemma {:induction false} SingleNode(x: seq<real>)
    requires |x| >= 1 && DistinctNodes(x) && Bernstein.MinOf(x) == Bernstein.MaxOf(x)
    ensures |x| == 1
  {
    if |x| > 1 {
      assert false;
    }
  }

  /**
   * On nodes whose smallest is 0 and largest is 1 the parameter is the point itself, so the Bernstein sum of
   * the computed control points at the parameter is the Newton form at the point.
   */
  lemma {:induction false} BernsteinMatchesNewtonOnUnitNodes(x: seq<real>, d: seq<real>, xEval: real)
    requires |d| == |x| >= 1 && Bernstein.MinOf(x) == 0.0 && Bernstein.MaxOf(x) == 1.0
    ensures BSum(ControlVector(x, d, |x| - 1), NodeParameter(x, xEval)) == NewtonSum(d, x, xEval)
  {
    NodeParameterOnUnitInterval(x, xEval);
    ControlPointsNewtonForm(x, d, xEval);
  }

  /**
   * Elsewhere the rescaling breaks interpolation: for the nodes 1, 2 and the data 1, 2 the divided differences
   * are 1, 1 and the control points 0, 1, whose Bernstein sum at the parameter of the node 2 is 1 instead of 2.
   */
  lemma {:induction false} RescaledParameterMissesData()
    ensures DistinctNodes([1.0, 2.0])
    ensures DividedDifference([1.0, 2.0], [1.0, 2.0], 0, 0) == 1.0 && DividedDifference([1.0, 2.0], [1.0, 2.0], 0, 1) == 1.0
    ensures ControlVector([1.0, 2.0], [1.0, 1.0], 1) == [0.0, 1.0]
    ensures NodeParameter([1.0, 2.0], 2.0) == 1.0
    ensures BSum([0.0, 1.0], NodeParameter([1.0, 2.0], 2.0)) == 1.0 != 2.0
  {
    var x := [1.0, 2.0];
    var d := [1.0, 1.0];
    assert DividedDifference(x, x, 0, 1) == (x[1] - x[0]) / (x[1] - x[0]) == 1.0;
    assert NodeVector(x, 0) == Initial(1.0, 2) == [1.0, 0.0];
    var w := NodeVector(x, 1);
    assert w == RaiseNode([1.0, 0.0], 1.0, 1);
    assert w[0] == -1.0 && w[1] == RaiseEntry([1.0, 0.0], 1.0, 1, 1) == 0.0;
    assert w == [-1.0, 0.0];
    assert ControlVector(x, d, 0) == Initial(1.0, 2) == [1.0, 0.0];
    var c := ControlVector(x, d, 1);
    assert c == ElevateControl([1.0, 0.0], w, 1.0, 1);
    assert c[0] == 1.0 + 1.0 * -1.0 == 0.0;
    assert c[1] == ElevateEntry([1.0, 0.0], 0.0, 1.0, 1, 1) == 1.0;
    assert c == [0.0, 1.0];
    assert Bernstein.MinOf(x) == 1.0 && Bernstein.MaxOf(x) == 2.0;
    BSumAtOne([0.0, 1.0]);
  }

  lemma {:induction false} EqualNodes(x: seq<real>, i: nat, j: nat)
    requires i < j < |x| && x[i] == x[j]
    ensures !DistinctNodes(x)
  {
  }

  class NewtonBernsteinUnivariate {
    const xNodes: seq<real>
    const fValues: seq<real>
    const n: int
    /** null until the control points are computed */
    var controlPoints: array?<real>
    /** null until the table is computed */
    var dividedDifferences: array2?<real>

    /** A stored table is the divided-difference table of distinct nodes, and stored control points have one entry per node. */
    ghost predicate Valid()
      reads this, dividedDifferences
    {
      n == |xNodes| - 1 && |fValues| == |xNodes|
      && (dividedDifferences != null ==> |xNodes| >= 1 && DistinctNodes(xNodes) && IsTable(dividedDifferences, xNodes, fValues))
      && (controlPoints != null ==> dividedDifferences != null && controlPoints.Length == |xNodes|)
    }

    /** What Valid says about the lengths of the nodes, the data and the stored arrays. */
    lemma ValidShape()
      requires Valid()
      ensures n == |xNodes| - 1 && |fValues| == |xNodes|
      ensures dividedDifferences != null ==> |xNodes| >= 1 && DistinctNodes(xNodes) && IsTable(dividedDifferences, xNodes, fValues)
      ensures controlPoints != null ==> dividedDifferences != null && |xNodes| >= 1 && controlPoints.Length == |xNodes|
    {
    }

    lemma ValidFromShape()
      requires n == |xNodes| - 1 && |fValues| == |xNodes|
      requires dividedDifferences != null ==> |xNodes| >= 1 && DistinctNodes(xNodes) && IsTable(dividedDifferences, xNodes, fValues)
      requires controlPoints != null ==> dividedDifferences != null && controlPoints.Length == |xNodes|
      ensures Valid()
    {
    }

    constructor (xNodes: seq<real>, fValues: seq<real>)
      requires |fValues| == |xNodes|
      ensures Valid()
      ensures this.xNodes == xNodes && this.fValues == fValues && n == |xNodes| - 1
      ensures controlPoints == null && dividedDifferences == null
    {
      this.xNodes := xNodes;
      this.fValues := fValues;
      n := |xNodes| - 1;
      controlPoints := null;
      dividedDifferences := null;
    }

    /** Construction fails exactly when the data and the nodes differ in length. */
    static method Create(xNodes: seq<real>, fValues: seq<real>) returns (r: Result<NewtonBernsteinUnivariate>)
      ensures r.Failure? <==> |fValues| != |xNodes|
      ensures r.Success? ==> fresh(r.value) && r.value.Valid() && r.value.xNodes == xNodes && r.value.fValues == fValues
      ensures r.Success? ==> r.value.controlPoints == null && r.value.dividedDifferences == null
    {
      if |fValues| != |xNodes| {
        return Failure("ValueError: x_nodes and f_values must have the same length");
      }
      var nb := new NewtonBernsteinUnivariate(xNodes, fValues);
      return Success(nb);
    }

    /**
     * Fills the table column by column, entry (k, s) from entries (k + 1, s - 1) and (k, s - 1), and stores it.
     * It fails on no nodes (column 0 does not exist) and on two equal nodes, and then stores nothing.
     */
    method ComputeDividedDifferences() returns (r: Result<array2<real>>)
      requires Valid()
      modifies this
      ensures Valid()
      ensures r.Failure? <==> |xNodes| == 0 || !DistinctNodes(xNodes)
      ensures r.Failure? ==> dividedDifferences == old(dividedDifferences) && controlPoints == old(controlPoints)
      ensures r.Success? ==> fresh(r.value) && dividedDifferences == r.value && controlPoints == old(controlPoints)
      ensures r.Success? ==> IsTable(r.value, xNodes, fValues)
    {
      if n < 0 {
        return Failure("IndexError: index 0 is out of bounds for axis 1 with size 0");
      }
      var dd := new real[n + 1, n + 1]((k: int, s: int) requires 0 <= k < n + 1 => if s == 0 then fValues[k] else 0.0);
      for s := 1 to n + 1
        modifies dd
        invariant Gapped(xNodes, s)
        invariant forall k, s' {:trigger dd[k, s']} :: 0 <= k < n + 1 && 0 <= s' < n + 1 ==>
          dd[k, s'] == if s' < s then TableEntry(xNodes, fValues, k, s') else 0.0
      {
        for k := 0 to n + 1 - s
          modifies dd
          invariant Gapped(xNodes, s) && forall i :: 0 <= i < k ==> xNodes[i] != xNodes[i + s]
          invariant forall k', s' {:trigger dd[k', s']} :: 0 <= k' < n + 1 && 0 <= s' < n + 1 ==>
            dd[k', s'] == if s' < s || (s' == s && k' < k) then TableEntry(xNodes, fValues, k', s') else 0.0
        {
          if xNodes[k + s] == xNodes[k] {
            EqualNodes(xNodes, k, k + s);
            return Failure("ValueError: duplicate nodes");
          }
          GappedRange(xNodes, s, k);
          TableEntryStep(xNodes, fValues, k, s);
          dd[k, s] := (dd[k + 1, s - 1] - dd[k, s - 1]) / (xNodes[k + s] - xNodes[k]);
        }
        GappedStep(xNodes, s);
      }
      GappedAll(xNodes);
      dividedDifferences := dd;
      return Success(dd);
    }

    /**
     * The Newton-Bernstein algorithm: from w = [1, 0, ...] and c = [f[x_0], 0, ...], step k raises w to the
     * coefficients of (t - x_0) ... (t - x_(k-1)) and elevates c before adding f[x_0, ..., x_k] w, running j
     * from k down to 1 and then updating entry 0. The table is computed first when none is stored.
     */
    method AlgorithmNewtonBernstein() returns (r: Result<array<real>>)
      requires Valid()
      modifies this
      ensures Valid()
      ensures r.Failure? <==> old(dividedDifferences) == null && (|xNodes| == 0 || !DistinctNodes(xNodes))
      ensures r.Failure? ==> dividedDifferences == old(dividedDifferences) && controlPoints == old(controlPoints)
      ensures old(dividedDifferences) != null ==> dividedDifferences == old(dividedDifferences)
      ensures r.Success? ==> dividedDifferences != null && fresh(r.value) && controlPoints == r.value
      ensures r.Success? ==> r.value[..] == ControlVector(xNodes, FirstRow(dividedDifferences), |xNodes| - 1)
      ensures r.Success? ==> forall k :: 0 <= k < |xNodes| ==> BSum(r.value[..], xNodes[k]) == fValues[k]
    {
      hide *;
      ValidShape();
      if dividedDifferences == null {
        var table := ComputeDividedDifferences();
        if table.Failure? {
          return Failure(table.error);
        }
      }
      var dd := dividedDifferences;
      ValidShape();
      var c := Steps(dd, xNodes);
      TableFirstRow(dd, xNodes, fValues);
      forall k | 0 <= k < |xNodes|
        ensures BSum(c[..], xNodes[k]) == fValues[k]
      {
        ControlPointsInterpolate(xNodes, fValues, FirstRow(dd), k);
      }
      controlPoints := c;
      ValidFromShape();
      return Success(c);
    }

    /** The initial vectors w = [1, 0, ...] and c = [f[x_0], 0, ...] followed by the steps k = 1..n, reading row 0 of the table. */
    static method Steps(dd: array2<real>, xNodes: seq<real>) returns (c: array<real>)
      requires dd.Length0 == |xNodes| && dd.Length1 == |xNodes| && |xNodes| >= 1
      ensures fresh(c)
      ensures c[..] == ControlVector(xNodes, FirstRow(dd), |xNodes| - 1)
    {
      hide NodeVector, ControlVector, RaiseNode, ElevateControl;
      var n := |xNodes| - 1;
      ghost var d := FirstRow(dd);
      c := new real[n + 1](_ => 0.0);
      var w := new real[n + 1](_ => 0.0);
      c[0] := dd[0, 0];
      w[0] := 1.0;
      VectorStart(xNodes, d);
      assert w[..] == Initial(1.0, n + 1) && c[..] == Initial(d[0], n + 1);
      for k := 1 to n + 1
        modifies {}
        invariant fresh(c) && c.Length == n + 1 && w.Length == n + 1
        invariant w[..] == NodeVector(xNodes, k - 1) && c[..] == ControlVector(xNodes, d, k - 1)
      {
        VectorStep(xNodes, d, k);
        var wNew, cNew := DegreeStep(w, c, xNodes[k - 1], dd[0, k], k);
        c := cNew;
        w := wNew;
      }
    }

    /**
     * Step k of the algorithm: entries k down to 1 of the raised node coefficients and of the elevated
     * control points, then entry 0 of each.
     */
    static method DegreeStep(w: array<real>, c: array<real>, xk: real, dk: real, k: nat) returns (wNew: array<real>, cNew: array<real>)
      requires w.Length == c.Length && 1 <= k < w.Length
      ensures fresh(wNew) && fresh(cNew)
      ensures wNew[..] == RaiseNode(w[..], xk, k) && cNew[..] == ElevateControl(c[..], wNew[..], dk, k)
    {
      ghost var ws, cs := w[..], c[..];
      wNew, cNew := UpperEntries(w, c, xk, dk, k);
      wNew[0] := -w[0] * xk;
      cNew[0] := c[0] + dk * wNew[0];
      AssembleStep(ws, cs, xk, dk, k, wNew[..], cNew[..]);
    }

    /** Fresh zero-filled arrays with entries k down to 1 of step k filled in; entry 0 and the entries above k stay 0. */
    static method UpperEntries(w: array<real>, c: array<real>, xk: real, dk: real, k: nat) returns (wNew: array<real>, cNew: array<real>)
      requires w.Length == c.Length && 1 <= k < w.Length
      ensures fresh(wNew) && fresh(cNew) && wNew != cNew && wNew.Length == cNew.Length == w.Length
      ensures forall i :: i == 0 || k < i < w.Length ==> wNew[i] == 0.0 && cNew[i] == 0.0
      ensures forall i :: 0 < i <= k ==> wNew[i] == RaiseEntry(w[..], xk, k, i)
      ensures forall i :: 0 < i <= k ==> cNew[i] == ElevateEntry(c[..], RaiseEntry(w[..], xk, k, i), dk, k, i)
    {
      hide RaiseEntry, ElevateEntry;
      ghost var ws, cs := w[..], c[..];
      cNew := new real[c.Length](_ => 0.0);
      wNew := new real[w.Length](_ => 0.0);
      var j := k;
      while j > 0
        modifies cNew, wNew
        invariant 0 <= j <= k
        invariant forall i :: 0 <= i <= j || k < i < w.Length ==> wNew[i] == 0.0 && cNew[i] == 0.0
        invariant forall i :: j < i <= k ==> wNew[i] == RaiseEntry(ws, xk, k, i)
        invariant forall i :: j < i <= k ==> cNew[i] == ElevateEntry(cs, RaiseEntry(ws, xk, k, i), dk, k, i)
      {
        wNew[j] := ((j as real) / (k as real)) * w[j - 1] * (1.0 - xk) - (((k - j) as real) / (k as real)) * w[j] * xk;
        cNew[j] := (((j as real) / (k as real)) * c[j - 1] + (((k - j) as real) / (k as real)) * c[j]) + wNew[j] * dk;
        EntryValues(ws, cs, xk, dk, k, j, wNew[j], cNew[j]);
        j := j - 1;
      }
    }

    /** Evaluates the Newton form d_0 + d_1 (t - x_0) + ... with the stored row 0; at a node it gives that node's data. */
    method EvaluateNewton(xEval: real) returns (r: Result<real>)
      requires Valid()
      ensures r.Failure? <==> dividedDifferences == null
      ensures r.Success? ==> r.value == NewtonSum(FirstRow(dividedDifferences), xNodes, xEval)
      ensures r.Success? ==> forall k :: 0 <= k < |xNodes| && xEval == xNodes[k] ==> r.value == fValues[k]
    {
      hide Valid, NewtonSum, NodeProduct, IsTable;
      ValidShape();
      if dividedDifferences == null {
        return Failure("RuntimeError: compute_divided_differences must run first");
      }
      var dd := dividedDifferences;
      ghost var d := FirstRow(dd);
      var result := 0.0;
      var product := 1.0;
      NewtonSumEmpty(d[..0], xNodes, xEval);
      NodeProductZero(xNodes, 0, xEval);
      for k := 0 to n + 1
        invariant result == NewtonSum(d[..k], xNodes, xEval)
        invariant product == NodeProduct(xNodes, 0, if k <= n then k else n, xEval)
      {
        NewtonSumUnfold(d[..k + 1], xNodes, xEval);
        assert d[..k + 1][..k] == d[..k];
        result := result + dd[0, k] * product;
        if k < n {
          NodeProductUnfold(xNodes, 0, k + 1, xEval);
          product := product * (xEval - xNodes[k]);
        }
      }
      assert d[..n + 1] == d;
      TableFirstRow(dd, xNodes, fValues);
      forall k | 0 <= k < |xNodes| && xEval == xNodes[k]
        ensures result == fValues[k]
      {
        NewtonSumInterpolates(d, xNodes, fValues, k);
      }
      return Success(result);
    }

    /** Evaluates the Bernstein form sum of c_j C(n, j) t^j (1 - t)^(n - j) at the parameter of xEval between the smallest and largest node. */
    method EvaluateBernstein(xEval: real) returns (r: Result<real>)
      requires Valid()
      ensures r.Failure? <==> controlPoints == null
      ensures r.Success? ==> r.value == BSum(controlPoints[..], NodeParameter(xNodes, xEval))
      ensures r.Success? && |xNodes| == 1 ==> r.value == controlPoints[0]
    {
      hide Valid, Sum, BTerms, Binom, Pow;
      ValidShape();
      if controlPoints == null {
        return Failure("RuntimeError: algorithm_newton_bernstein must run first");
      }
      var c := controlPoints;
      var lo := Bernstein.MinOf(xNodes);
      var hi := Bernstein.MaxOf(xNodes);
      var t := if hi == lo then 0.0 else (xEval - lo) / (hi - lo);
      var result := 0.0;
      BSumPrefixEmpty(c[..], t);
      for j := 0 to n + 1
        invariant result == Sum(j, BTerms(c[..], t))
      {
        BSumPrefixStep(c[..], t, j);
        assert c[..][j] == c[j] && |c[..]| - 1 == n;
        var binomCoeff := Binom(n, j) as real;
        var bernsteinBasis := binomCoeff * Pow(t, j) * Pow(1.0 - t, n - j);
        result := result + c[j] * bernsteinBasis;
      }
      assert c[..][..n + 1] == c[..];
      if |xNodes| == 1 {
        assert c[..] == [c[0]];
        BSumSingle(c[0], t);
      }
      return Success(result);
    }
  }

  /** The entries of one step, assembled: entries 1..k as computed by the loop, entries above k zero, and entry 0 updated last. */
  lemma {:induction false} AssembleStep(ws: seq<real>, cs: seq<real>, xk: real, dk: real, k: nat, wn: seq<real>, cn: seq<real>)
    requires |cs| == |ws| == |wn| == |cn| && 1 <= k < |ws|
    requires forall i :: k < i < |ws| ==> wn[i] == 0.0 && cn[i] == 0.0
    requires forall i :: 0 < i <= k ==> wn[i] == RaiseEntry(ws, xk, k, i)
    requires forall i :: 0 < i <= k ==> cn[i] == ElevateEntry(cs, RaiseEntry(ws, xk, k, i), dk, k, i)
    requires wn[0] == -ws[0] * xk && cn[0] == cs[0] + dk * wn[0]
    ensures wn == RaiseNode(ws, xk, k) && cn == ElevateControl(cs, wn, dk, k)
  {
    hide *;
    forall i | 0 <= i < |ws|
      ensures wn[i] == RaiseNode(ws, xk, k)[i] && cn[i] == ElevateControl(cs, wn, dk, k)[i]
    {
      RaiseNodeAt(ws, xk, k, i);
      ElevateControlAt(cs, wn, dk, k, i);
    }
  }

  lemma {:induction false} EntryValues(ws: seq<real>, cs: seq<real>, xk: real, dk: real, k: nat, j: nat, wj: real, cj: real)
    requires |cs| == |ws| && 1 <= j <= k < |ws|
    requires wj == ((j as real) / (k as real)) * ws[j - 1] * (1.0 - xk) - (((k - j) as real) / (k as real)) * ws[j] * xk
    requires cj == (((j as real) / (k as real)) * cs[j - 1] + (((k - j) as real) / (k as real)) * cs[j]) + wj * dk
    ensures wj == RaiseEntry(ws, xk, k, j) && cj == ElevateEntry(cs, RaiseEntry(ws, xk, k, j), dk, k, j)
  {
  }
}
