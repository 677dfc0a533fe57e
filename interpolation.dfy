/**
 * The stand-alone Newton-Bernstein scripts: the divided-difference table, the Bernstein basis and the
 * evaluation of a Bernstein polynomial, the algorithm as the scripts write it (entry 0 of the raised node
 * coefficients is never set), the interpolation error at the nodes, and the data of the uniform-node example.
 */
module Interpolation {
  import opened Wrappers
  import opened Sums
  import opened Binomial
  import opened BernsteinBasis
  import opened NewtonForm
  import opened DegreeRaising
  import Utils
  import Bernstein

  // ---------------------------------------------------------------------------
  // Divided differences
  // ---------------------------------------------------------------------------

  /** The table of f[x_k, ..., x_(k+s)], filled column by column; with no nodes column 0 does not exist. */
  method DividedDifferences(x: seq<real>, f: seq<real>) returns (r: Result<array2<real>>)
    requires |f| == |x| && DistinctNodes(x)
    ensures r.Failure? <==> |x| == 0
    ensures r.Success? ==> fresh(r.value) && IsTable(r.value, x, f)
  {
    var n := |x|;
    if n == 0 {
      return Failure("IndexError: index 0 is out of bounds for axis 1 with size 0");
    }
    var dd := new real[n, n]((k: int, s: int) requires 0 <= k < n => if s == 0 then f[k] else 0.0);
    for s := 1 to n
      invariant forall k, s' {:trigger dd[k, s']} :: 0 <= k < n && 0 <= s' < n ==>
        dd[k, s'] == if s' < s then TableEntry(x, f, k, s') else 0.0
    {
      for k := 0 to n - s
        invariant forall k', s' {:trigger dd[k', s']} :: 0 <= k' < n && 0 <= s' < n ==>
          dd[k', s'] == if s' < s || (s' == s && k' < k) then TableEntry(x, f, k', s') else 0.0
      {
        assert DistinctRange(x, k, k + s);
        TableEntryStep(x, f, k, s);
        dd[k, s] := (dd[k + 1, s - 1] - dd[k, s - 1]) / (x[k + s] - x[k]);
      }
    }
    return Success(dd);
  }

  // ---------------------------------------------------------------------------
  // Bernstein basis and evaluation
  // ---------------------------------------------------------------------------

  /** C(n, j) x^j (1 - x)^(n - j). */
  function BernsteinBasisValue(x: real, n: nat, j: nat): (r: real)
    requires j <= n
    ensures 0.0 <= x <= 1.0 ==> r >= 0.0
    ensures x == 0.0 ==> r == if j == 0 then 1.0 else 0.0
    ensures x == 1.0 ==> r == if j == n then 1.0 else 0.0
  {
    var r := (Binom(n, j) as real) * Pow(x, j) * Pow(1.0 - x, n - j);
    BasisUnfold(n, j, x);
    BasisAtZero(n, j);
    BasisAtOne(n, j);
    if 0.0 <= x <= 1.0 then BasisNonNegative(n, j, x); r else r
  }

  /** The script's basis is the Bernstein basis: non-negative on [0, 1], and summing to 1 over j = 0..n. */
  lemma {:induction false} BernsteinBasisValueProperties(x: real, n: nat)
    ensures forall j :: 0 <= j <= n ==> BernsteinBasisValue(x, n, j) == Basis(n, j, x)
    ensures 0.0 <= x <= 1.0 ==> forall j :: 0 <= j <= n ==> BernsteinBasisValue(x, n, j) >= 0.0
    ensures Sum(n + 1, BasisTerms(n, x)) == 1.0
  {
    forall j | 0 <= j <= n
      ensures BernsteinBasisValue(x, n, j) == Basis(n, j, x)
      ensures 0.0 <= x <= 1.0 ==> BernsteinBasisValue(x, n, j) >= 0.0
    {
      BasisUnfold(n, j, x);
      if 0.0 <= x <= 1.0 {
        BasisNonNegative(n, j, x);
      }
    }
    PartitionOfUnity(n, x);
  }

  /** Accumulates c_j B^n_j(x) for j = 0..n with n = |c| - 1; at 0 and at 1 the sum is the first and the last control point. */
  method EvaluateBernsteinPoly(xEval: real, c: seq<real>) returns (result: real)
    ensures result == BSum(c, xEval)
    ensures |c| >= 1 && xEval == 0.0 ==> result == c[0]
    ensures |c| >= 1 && xEval == 1.0 ==> result == c[|c| - 1]
  {
    hide Sum, BTerms, Binom, Pow;
    var n := |c| - 1;
    result := 0.0;
    BSumPrefixEmpty(c, xEval);
    for j := 0 to n + 1
      invariant result == Sum(j, BTerms(c, xEval))
    {
      BSumPrefixStep(c, xEval, j);
      var bj := BernsteinBasisValue(xEval, n, j);
      result := result + c[j] * bj;
    }
    if |c| >= 1 {
      BSumAtZero(c);
      BSumAtOne(c);
    }
  }

  // ---------------------------------------------------------------------------
  // The algorithm as the scripts write it
  // ---------------------------------------------------------------------------

  /**
   * The scripts' Newton-Bernstein algorithm: the table, then steps k = 1..n that fill entries 1..k of the new
   * node coefficients and of the new control points in ascending order, copy control point 0 and never set
   * node coefficient 0. The first control point is the first data value and the last one is the Newton
   * form's value at 1.
   */
  method AlgorithmNewtonBernstein(x: seq<real>, f: seq<real>) returns (r: Result<(array<real>, array2<real>)>)
    requires |f| == |x| && DistinctNodes(x)
    ensures r.Failure? <==> |x| == 0
    ensures r.Success? ==> fresh(r.value.0) && fresh(r.value.1) && IsTable(r.value.1, x, f)
    ensures r.Success? ==> r.value.0[..] == ControlVectorAsWritten(x, FirstRow(r.value.1), |x| - 1)
    ensures r.Success? ==> r.value.0[0] == f[0] && r.value.0[|x| - 1] == NewtonSum(FirstRow(r.value.1), x, 1.0)
  {
    hide *;
    var table := DividedDifferences(x, f);
    if table.Failure? {
      return Failure(table.error);
    }
    var dd := table.value;
    var c := AsWrittenSteps(dd, x);
    TableFirstRow(dd, x, f);
    DividedDifferenceZero(x, f, 0);
    AsWrittenFirstEntries(x, FirstRow(dd), |x| - 1);
    AsWrittenLastEntries(x, FirstRow(dd), |x| - 1);
    assert FirstRow(dd)[..|x|] == FirstRow(dd);
    return Success((c, dd));
  }

  /** The initial vectors c = [f[x_0], 0, ...] and w = [1, 0, ...] followed by the steps k = 1..n, reading row 0 of the table. */
  method AsWrittenSteps(dd: array2<real>, x: seq<real>) returns (c: array<real>)
    requires dd.Length0 == |x| && dd.Length1 == |x| && |x| >= 1
    ensures fresh(c) && c[..] == ControlVectorAsWritten(x, FirstRow(dd), |x| - 1)
  {
    hide NodeVectorAsWritten, ControlVectorAsWritten, RaiseNodeAsWritten, ElevateControlAsWritten, NodeVector, ControlVector;
    var n := |x| - 1;
    ghost var d := FirstRow(dd);
    c := new real[n + 1](_ => 0.0);
    c[0] := dd[0, 0];
    var w := new real[n + 1](_ => 0.0);
    w[0] := 1.0;
    VectorStart(x, d);
    assert w[..] == Initial(1.0, n + 1) && c[..] == Initial(d[0], n + 1);
    for k := 1 to n + 1
      invariant fresh(c) && c.Length == n + 1 && w.Length == n + 1
      invariant w[..] == NodeVectorAsWritten(x, k - 1) && c[..] == ControlVectorAsWritten(x, d, k - 1)
    {
      VectorStep(x, d, k);
      var wNew, cNew := AsWrittenStep(w, c, x[k - 1], dd[0, k], k);
      w := wNew;
      c := cNew;
    }
  }

  /** Step k as the scripts write it: the new node coefficients first, then the new control points from them. */
  method AsWrittenStep(w: array<real>, c: array<real>, xk: real, dk: real, k: nat) returns (wNew: array<real>, cNew: array<real>)
    requires w.Length == c.Length && 1 <= k < w.Length
    ensures fresh(wNew) && fresh(cNew)
    ensures wNew[..] == RaiseNodeAsWritten(w[..], xk, k) && cNew[..] == ElevateControlAsWritten(c[..], wNew[..], dk, k)
  {
    wNew := RaisedEntries(w, xk, k);
    cNew := ElevatedEntries(c, wNew, dk, k);
  }

  /** A zero-filled array with entries 1..k of the raised node coefficients filled in ascending order; entry 0 stays 0. */
  method RaisedEntries(w: array<real>, xk: real, k: nat) returns (wNew: array<real>)
    requires 1 <= k < w.Length
    ensures fresh(wNew) && wNew[..] == RaiseNodeAsWritten(w[..], xk, k)
  {
    ghost var ws := w[..];
    wNew := new real[w.Length](_ => 0.0);
    for j := 1 to k + 1
      invariant forall i :: 0 <= i < wNew.Length ==> wNew[i] == if 1 <= i < j then RaiseEntry(ws, xk, k, i) else 0.0
    {
      wNew[j] := ((j as real) / (k as real)) * w[j - 1] * (1.0 - xk) - (((k - j) as real) / (k as real)) * w[j] * xk;
    }
    forall i | 0 <= i < wNew.Length
      ensures wNew[..][i] == RaiseNodeAsWritten(ws, xk, k)[i]
    {
      RaiseNodeAt(ws, xk, k, i);
    }
  }

  /** A zero-filled array holding control point 0 copied and entries 1..k of the elevated control points in ascending order. */
  method ElevatedEntries(c: array<real>, wNew: array<real>, dk: real, k: nat) returns (cNew: array<real>)
    requires 1 <= k < c.Length && wNew.Length == c.Length
    ensures fresh(cNew) && cNew[..] == ElevateControlAsWritten(c[..], wNew[..], dk, k)
  {
    ghost var cs, ws := c[..], wNew[..];
    cNew := new real[c.Length](_ => 0.0);
    cNew[0] := c[0];
    for j := 1 to k + 1
      invariant forall i :: 0 <= i < cNew.Length ==>
        cNew[i] == if i == 0 then cs[0] else if i < j then ElevateEntry(cs, ws[i], dk, k, i) else 0.0
    {
      cNew[j] := (((j as real) / (k as real)) * c[j - 1] + (((k - j) as real) / (k as real)) * c[j]) + wNew[j] * dk;
    }
    forall i | 0 <= i < cNew.Length
      ensures cNew[..][i] == ElevateControlAsWritten(cs, ws, dk, k)[i]
    {
      ElevateControlAt(cs, ws, dk, k, i);
    }
  }

  // ---------------------------------------------------------------------------
  // Interpolation error
  // ---------------------------------------------------------------------------

  /** The absolute errors |p(x_k) - f_k| at the nodes, with their largest value and their mean. */
  datatype ErrorSummary = ErrorSummary(maxError: real, meanError: real, errors: seq<real>)

  function Total(s: seq<real>): real
  {
    if |s| == 0 then 0.0 else Total(s[..|s| - 1]) + s[|s| - 1]
  }

  /** A sum of values in [0, m] lies in [0, |s| m]. */
  lemma {:induction false} TotalBounds(s: seq<real>, m: real)
    requires forall i :: 0 <= i < |s| ==> 0.0 <= s[i] <= m
    ensures 0.0 <= Total(s) <= (|s| as real) * m
  {
    if |s| > 0 {
      TotalBounds(s[..|s| - 1], m);
    }
  }

  lemma {:induction false} MeanBound(total: real, len: nat, m: real)
    requires len >= 1 && 0.0 <= total <= (len as real) * m
    ensures 0.0 <= total / (len as real) <= m
  {
  }

  /**
   * The error of control points c at the nodes. With no nodes the maximum of an empty array is an error.
   * The maximum bounds every error and is one of them, the mean lies between 0 and the maximum, and the
   * maximum is 0 exactly when the Bernstein polynomial takes the data value at every node.
   */
  function InterpolationError(x: seq<real>, f: seq<real>, c: seq<real>): (r: Result<ErrorSummary>)
    requires |f| == |x|
    ensures r.Failure? <==> |x| == 0
    ensures r.Success? ==> |r.value.errors| == |x|
    ensures r.Success? ==> forall k :: 0 <= k < |x| ==> 0.0 <= r.value.errors[k] <= r.value.maxError
    ensures r.Success? ==> exists k :: 0 <= k < |x| && r.value.errors[k] == r.value.maxError
    ensures r.Success? ==> 0.0 <= r.value.meanError <= r.value.maxError
    ensures r.Success? ==> (r.value.maxError == 0.0 <==> forall k :: 0 <= k < |x| ==> BSum(c, x[k]) == f[k])
  {
    if |x| == 0 then
      Failure("ValueError: zero-size array to reduction operation maximum which has no identity")
    else
      var errors := NodeErrors(x, f, c);
      var m := Bernstein.MaxOf(errors);
      ErrorBounds(x, f, c, m);
      Success(ErrorSummary(m, Total(errors) / (|x| as real), errors))
  }

  /** |p(x_k) - f_k| for each node x_k, where p has Bernstein coefficients c. */
  function NodeErrors(x: seq<real>, f: seq<real>, c: seq<real>): (e: seq<real>)
    requires |f| == |x|
    ensures |e| == |x| && forall k :: 0 <= k < |x| ==> e[k] >= 0.0 && (e[k] == 0.0 <==> BSum(c, x[k]) == f[k])
  {
    seq(|x|, k requires 0 <= k < |x| => Utils.Abs(BSum(c, x[k]) - f[k]))
  }

  lemma {:induction false} ErrorBounds(x: seq<real>, f: seq<real>, c: seq<real>, m: real)
    requires |f| == |x| >= 1 && m == Bernstein.MaxOf(NodeErrors(x, f, c))
    ensures 0.0 <= Total(NodeErrors(x, f, c)) / (|x| as real) <= m
    ensures m == 0.0 <==> forall k :: 0 <= k < |x| ==> BSum(c, x[k]) == f[k]
  {
    hide *;
    var e := NodeErrors(x, f, c);
    TotalBounds(e, m);
    MeanBound(Total(e), |x|, m);
    if m != 0.0 {
      var k :| 0 <= k < |e| && e[k] == m;
      assert BSum(c, x[k]) != f[k];
    }
  }

  /** Control points from the corrected algorithm leave no error at the nodes. */
  lemma {:induction false} CorrectedHasNoError(x: seq<real>, f: seq<real>, d: seq<real>)
    requires |f| == |x| >= 1 && |d| == |x| && DistinctNodes(x)
    requires forall m :: 0 <= m < |d| ==> d[m] == DividedDifference(x, f, 0, m)
    ensures InterpolationError(x, f, ControlVector(x, d, |x| - 1)).value.maxError == 0.0
    ensures InterpolationError(x, f, ControlVector(x, d, |x| - 1)).value.meanError == 0.0
  {
    forall k | 0 <= k < |x|
      ensures BSum(ControlVector(x, d, |x| - 1), x[k]) == f[k]
    {
      ControlPointsInterpolate(x, f, d, k);
    }
  }

  /** On nodes [0.5, 1] with data [0, 1] the scripts' control points are [0, 1], which miss the first data value by 0.5. */
  lemma {:induction false} ScriptMissesFirstNode(dd: array2<real>)
    requires IsTable(dd, [0.5, 1.0], [0.0, 1.0])
    ensures ControlVectorAsWritten([0.5, 1.0], FirstRow(dd), 1) == [0.0, 1.0]
    ensures InterpolationError([0.5, 1.0], [0.0, 1.0], ControlVectorAsWritten([0.5, 1.0], FirstRow(dd), 1)).value.maxError == 0.5
  {
    var x, f := [0.5, 1.0], [0.0, 1.0];
    AsWrittenMissesFirstNode();
    TableFirstRow(dd, x, f);
    assert FirstRow(dd) == [0.0, 2.0];
    BSumAtOne([0.0, 1.0]);
    var e := InterpolationError(x, f, [0.0, 1.0]).value;
    assert e.errors[0] == 0.5 && e.errors[1] == 0.0;
  }

  // ---------------------------------------------------------------------------
  // Example 2.1: uniform nodes
  // ---------------------------------------------------------------------------

  /** The nodes (i + 1) / (n + 2) for i = 0..n: strictly increasing inside (0, 1). */
  function Example21Nodes(n: nat): (x: seq<real>)
    ensures |x| == n + 1
    ensures forall i :: 0 <= i < |x| ==> x[i] == ((i + 1) as real) / ((n + 2) as real)
    ensures forall i :: 0 <= i < |x| ==> 0.0 < x[i] < 1.0
    ensures forall i, j :: 0 <= i < j < |x| ==> x[i] < x[j]
  {
    NodeFractions(n);
    seq(n + 1, i requires 0 <= i < n + 1 => Fraction(i, n))
  }

  function Fraction(i: nat, n: nat): real
  {
    ((i + 1) as real) / ((n + 2) as real)
  }

  lemma {:induction false} NodeFractions(n: nat)
    ensures forall i :: 0 <= i <= n ==> 0.0 < Fraction(i, n) < 1.0
    ensures forall i, j :: 0 <= i < j <= n ==> Fraction(i, n) < Fraction(j, n)
  {
    forall i | 0 <= i <= n
      ensures 0.0 < Fraction(i, n) < 1.0
    {
      Quotient((i + 1) as real, (n + 2) as real, (n + 2) as real);
    }
    forall i, j | 0 <= i < j <= n
      ensures Fraction(i, n) < Fraction(j, n)
    {
      Quotient((i + 1) as real, (j + 1) as real, (n + 2) as real);
    }
  }

  lemma {:induction false} Quotient(a: real, b: real, d: real)
    requires 0.0 < a < b && d > 0.0
    ensures 0.0 < a / d < b / d
  {
  }

  /** The data (1 - x_i)^n, which are the values of the Bernstein basis polynomial B^n_0 at the nodes. */
  function Example21Powers(x: seq<real>, n: nat): (f: seq<real>)
    ensures |f| == |x| && forall i :: 0 <= i < |x| ==> f[i] == Basis(n, 0, x[i])
  {
    seq(|x|, i requires 0 <= i < |x| => BasisZeroValue(n, x[i]); Pow(1.0 - x[i], n))
  }

  lemma {:induction false} BasisZeroValue(n: nat, t: real)
    ensures Pow(1.0 - t, n) == Basis(n, 0, t)
  {
    BasisUnfold(n, 0, t);
    assert Binom(n, 0) == 1;
    assert Pow(t, 0) == 1.0;
  }

  const Example21Vector2: seq<real> := [2.0, 1.0, 2.0, 3.0, -1.0, 0.0, 1.0, -2.0, 4.0, 1.0, 1.0, -3.0, 0.0, -1.0, -1.0, 2.0]
  const Example21Vector3: seq<real> := [1.0, -2.0, 1.0, -1.0, 3.0, -1.0, 2.0, -1.0, 4.0, -1.0, 2.0, -1.0, 1.0, -3.0, 1.0, -4.0]

  /**
   * The nodes of Example 2.1 and three labelled data sets. The nodes are distinct, and a data set has one
   * value per node exactly when it is the first one or n is 15 (the two fixed vectors have 16 entries).
   */
  function Example21UniformNodes(n: nat := 15): (r: (seq<real>, seq<(string, seq<real>)>))
    ensures r.0 == Example21Nodes(n) && DistinctNodes(r.0) && |r.1| == 3
    ensures r.1[0].1 == Example21Powers(r.0, n) && r.1[1].1 == Example21Vector2 && r.1[2].1 == Example21Vector3
    ensures forall i :: 0 <= i < 3 ==> (|r.1[i].1| == |r.0| <==> i == 0 || n == 15)
  {
    var x := Example21Nodes(n);
    (x, [("f\U{2081} = (1-x)^15", Example21Powers(x, n)),
         ("f\U{2082} = [2,1,2,3,-1,0,1,-2,4,1,1,-3,0,-1,-1,2]", Example21Vector2),
         ("f\U{2083} = [1,-2,1,-1,3,-1,2,-1,4,-1,2,-1,1,-3,1,-4]", Example21Vector3)])
  }

  /** The same nodes and data sets under the short labels of the core script. */
  function Example21Data(n: nat := 15): (r: (seq<real>, seq<(string, seq<real>)>))
    ensures r.0 == Example21Nodes(n) && DistinctNodes(r.0) && |r.1| == 3
    ensures r.1[0].1 == Example21Powers(r.0, n) && r.1[1].1 == Example21Vector2 && r.1[2].1 == Example21Vector3
    ensures forall i :: 0 <= i < 3 ==> (|r.1[i].1| == |r.0| <==> i == 0 || n == 15)
  {
    var x := Example21Nodes(n);
    (x, [("f1=(1-x)^15", Example21Powers(x, n)), ("f2=vector", Example21Vector2), ("f3=vector", Example21Vector3)])
  }
}
