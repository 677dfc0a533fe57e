/**
 * The degree-raising recurrence of the Newton-Bernstein algorithm. Step k turns the degree k - 1
 * Bernstein coefficients w of the node polynomial (t - x_0) ... (t - x_(k-2)) into the degree k
 * coefficients of (t - x_0) ... (t - x_(k-1)), and elevates the control points c of the Newton form
 * of degree k - 1 to degree k before adding f[x_0, ..., x_k] times the new w.
 *
 * Vectors have the full length n + 1 = |x| throughout, as the zero-filled arrays of the program;
 * after step k only the entries 0..k are in use.
 */
module DegreeRaising {
  import opened BernsteinBasis
  import opened NewtonForm

  /** Entry j (1 <= j <= k) of the raised node coefficients: (j / k) w_(j-1) (1 - xk) - ((k - j) / k) w_j xk. */
  function RaiseEntry(w: seq<real>, xk: real, k: nat, j: nat): real
    requires 1 <= j <= k < |w|
  {
    ((j as real) / (k as real)) * w[j - 1] * (1.0 - xk) - (((k - j) as real) / (k as real)) * w[j] * xk
  }

  /** Entry j (1 <= j <= k) of the elevated control points: (j / k) c_(j-1) + ((k - j) / k) c_j + wj d. */
  function ElevateEntry(c: seq<real>, wj: real, d: real, k: nat, j: nat): real
    requires 1 <= j <= k < |c|
  {
    (((j as real) / (k as real)) * c[j - 1] + (((k - j) as real) / (k as real)) * c[j]) + wj * d
  }

  /** The vector of length len whose first entry is v and whose other entries are 0. */
  function Initial(v: real, len: nat): (r: seq<real>)
    requires len >= 1
    ensures |r| == len && r[0] == v
  {
    seq(len, j requires 0 <= j < len => if j == 0 then v else 0.0)
  }

  // ---------------------------------------------------------------------------
  // The recurrence with the first entries updated

  /** Step k of the node coefficients, multiplying by (t - xk): entry 0 becomes -w_0 xk. */
  function RaiseNode(w: seq<real>, xk: real, k: nat): (r: seq<real>)
    requires 1 <= k < |w|
    ensures |r| == |w|
  {
    seq(|w|, j requires 0 <= j < |w| => if j == 0 then -w[0] * xk else if j <= k then RaiseEntry(w, xk, k, j) else 0.0)
  }

  /** Step k of the control points with the new node coefficients wNew and the divided difference d: entry 0 becomes c_0 + d wNew_0. */
  function ElevateControl(c: seq<real>, wNew: seq<real>, d: real, k: nat): (r: seq<real>)
    requires 1 <= k < |c| && |wNew| == |c|
    ensures |r| == |c|
  {
    seq(|c|, j requires 0 <= j < |c| => if j == 0 then c[0] + d * wNew[0] else if j <= k then ElevateEntry(c, wNew[j], d, k, j) else 0.0)
  }

  /** The node coefficients after step k, starting from w = [1, 0, ..., 0]. */
  function NodeVector(x: seq<real>, k: nat): (r: seq<real>)
    requires k < |x|
    ensures |r| == |x|
    decreases k
  {
    if k == 0 then Initial(1.0, |x|) else RaiseNode(NodeVector(x, k - 1), x[k - 1], k)
  }

  /** The control points after step k, starting from c = [d_0, 0, ..., 0]; d holds f[x_0, ..., x_m] at m. */
  function ControlVector(x: seq<real>, d: seq<real>, k: nat): (r: seq<real>)
    requires |d| == |x| && k < |x|
    ensures |r| == |x|
    decreases k
  {
    if k == 0 then Initial(d[0], |x|) else ElevateControl(ControlVector(x, d, k - 1), NodeVector(x, k), d[k], k)
  }

  // ---------------------------------------------------------------------------
  // The same recurrence with entry 0 of w never assigned after step 0

  /** Step k of the node coefficients as the scripts compute it: entry 0 stays 0. */
  function RaiseNodeAsWritten(w: seq<real>, xk: real, k: nat): (r: seq<real>)
    requires 1 <= k < |w|
    ensures |r| == |w|
  {
    seq(|w|, j requires 0 <= j < |w| => if j == 0 then 0.0 else if j <= k then RaiseEntry(w, xk, k, j) else 0.0)
  }

  /** Step k of the control points as the scripts compute it: entry 0 is copied. */
  function ElevateControlAsWritten(c: seq<real>, wNew: seq<real>, d: real, k: nat): (r: seq<real>)
    requires 1 <= k < |c| && |wNew| == |c|
    ensures |r| == |c|
  {
    seq(|c|, j requires 0 <= j < |c| => if j == 0 then c[0] else if j <= k then ElevateEntry(c, wNew[j], d, k, j) else 0.0)
  }

  function NodeVectorAsWritten(x: seq<real>, k: nat): (r: seq<real>)
    requires k < |x|
    ensures |r| == |x|
    decreases k
  {
    if k == 0 then Initial(1.0, |x|) else RaiseNodeAsWritten(NodeVectorAsWritten(x, k - 1), x[k - 1], k)
  }

  function ControlVectorAsWritten(x: seq<real>, d: seq<real>, k: nat): (r: seq<real>)
    requires |d| == |x| && k < |x|
    ensures |r| == |x|
    decreases k
  {
    if k == 0 then Initial(d[0], |x|) else ElevateControlAsWritten(ControlVectorAsWritten(x, d, k - 1), NodeVectorAsWritten(x, k), d[k], k)
  }

  // ---------------------------------------------------------------------------
  // Unfolding the definitions one entry or one step at a time

  lemma {:induction false} RatioOne(k: nat)
    requires k >= 1
    ensures (k as real) / (k as real) == 1.0 && (((k - k) as real) / (k as real)) == 0.0
  {
  }

  lemma {:induction false} RaiseNodeAt(w: seq<real>, xk: real, k: nat, j: nat)
    requires 1 <= k < |w| && j < |w|
    ensures RaiseNode(w, xk, k)[j] == if j == 0 then -w[0] * xk else if j <= k then RaiseEntry(w, xk, k, j) else 0.0
    ensures RaiseNodeAsWritten(w, xk, k)[j] == if j == 0 then 0.0 else if j <= k then RaiseEntry(w, xk, k, j) else 0.0
  {
  }

  lemma {:induction false} ElevateControlAt(c: seq<real>, wNew: seq<real>, d: real, k: nat, j: nat)
    requires 1 <= k < |c| && |wNew| == |c| && j < |c|
    ensures ElevateControl(c, wNew, d, k)[j] == if j == 0 then c[0] + d * wNew[0] else if j <= k then ElevateEntry(c, wNew[j], d, k, j) else 0.0
    ensures ElevateControlAsWritten(c, wNew, d, k)[j] == if j == 0 then c[0] else if j <= k then ElevateEntry(c, wNew[j], d, k, j) else 0.0
  {
  }

  lemma {:induction false} TimesAt(w: seq<real>, j: nat)
    requires 1 <= |w| && j <= |w|
    ensures TimesT(w)[j] == if j == 0 then 0.0 else ((j as real) / (|w| as real)) * w[j - 1]
    ensures TimesOneMinusT(w)[j] == if j == |w| then 0.0 else (((|w| - j) as real) / (|w| as real)) * w[j]
  {
  }

  lemma {:induction false} VectorStep(x: seq<real>, d: seq<real>, k: nat)
    requires |d| == |x| && 1 <= k < |x|
    ensures NodeVector(x, k) == RaiseNode(NodeVector(x, k - 1), x[k - 1], k)
    ensures ControlVector(x, d, k) == ElevateControl(ControlVector(x, d, k - 1), NodeVector(x, k), d[k], k)
    ensures NodeVectorAsWritten(x, k) == RaiseNodeAsWritten(NodeVectorAsWritten(x, k - 1), x[k - 1], k)
    ensures ControlVectorAsWritten(x, d, k) == ElevateControlAsWritten(ControlVectorAsWritten(x, d, k - 1), NodeVectorAsWritten(x, k), d[k], k)
  {
  }

  lemma {:induction false} VectorStart(x: seq<real>, d: seq<real>)
    requires |d| == |x| >= 1
    ensures NodeVector(x, 0) == Initial(1.0, |x|) && ControlVector(x, d, 0) == Initial(d[0], |x|)
    ensures NodeVector(x, 0)[..1] == [1.0] && ControlVector(x, d, 0)[..1] == [d[0]]
    ensures NodeVectorAsWritten(x, 0) == NodeVector(x, 0) && ControlVectorAsWritten(x, d, 0) == ControlVector(x, d, 0)
  {
  }

  // ---------------------------------------------------------------------------
  // One step of the corrected recurrence

  /** Raising multiplies the polynomial by (t - xk): its degree k coefficients combine TimesT and TimesOneMinusT of the old ones. */
  lemma {:induction false} RaiseValue(w: seq<real>, xk: real, k: nat, t: real)
    requires 1 <= k < |w|
    ensures BSum(RaiseNode(w, xk, k)[..k + 1], t) == (t - xk) * BSum(w[..k], t)
  {
    hide BSum, RaiseNode, RaiseNodeAsWritten, TimesT, TimesOneMinusT;
    var W := w[..k];
    var A := TimesT(W);
    var B := TimesOneMinusT(W);
    var R := RaiseNode(w, xk, k)[..k + 1];
    RatioOne(k);
    forall j | 0 <= j < k + 1
      ensures R[j] == (1.0 - xk) * A[j] + (-xk) * B[j]
    {
      RaiseNodeAt(w, xk, k, j);
      TimesAt(W, j);
      if j == 0 {
        assert B[0] == 1.0 * w[0];
      } else if j < k {
        RaiseArith(R[j], A[j], B[j], (j as real) / (k as real), (((k - j) as real) / (k as real)), w[j - 1], w[j], xk);
      } else {
        assert B[j] == 0.0 && A[j] == 1.0 * w[k - 1];
        assert R[j] == 1.0 * w[k - 1] * (1.0 - xk) - 0.0 * w[k] * xk;
      }
    }
    BSumCombination(A, B, R, 1.0 - xk, -xk, t);
    TimesTCorrect(W, t);
    TimesOneMinusTCorrect(W, t);
    RaiseTotal(BSum(R, t), BSum(A, t), BSum(B, t), BSum(W, t), xk, t);
  }

  lemma {:induction false} RaiseArith(r: real, a: real, b: real, p: real, q: real, u: real, v: real, xk: real)
    requires r == p * u * (1.0 - xk) - q * v * xk && a == p * u && b == q * v
    ensures r == (1.0 - xk) * a + (-xk) * b
  {
  }

  lemma {:induction false} RaiseTotal(r: real, a: real, b: real, s: real, xk: real, t: real)
    requires r == (1.0 - xk) * a + (-xk) * b && a == t * s && b == (1.0 - t) * s
    ensures r == (t - xk) * s
  {
  }

  /** Elevating keeps the polynomial of c and adds d times the polynomial of the new node coefficients. */
  lemma {:induction false} ElevateValue(c: seq<real>, wNew: seq<real>, d: real, k: nat, t: real)
    requires 1 <= k < |c| && |wNew| == |c|
    ensures BSum(ElevateControl(c, wNew, d, k)[..k + 1], t) == BSum(c[..k], t) + d * BSum(wNew[..k + 1], t)
  {
    hide BSum, ElevateControl, ElevateControlAsWritten, TimesT, TimesOneMinusT;
    var C := c[..k];
    var A := TimesT(C);
    var B := TimesOneMinusT(C);
    var E := seq(k + 1, j requires 0 <= j < k + 1 => A[j] + B[j]);
    var Wn := wNew[..k + 1];
    var R := ElevateControl(c, wNew, d, k)[..k + 1];
    RatioOne(k);
    forall j | 0 <= j < k + 1
      ensures R[j] == 1.0 * E[j] + d * Wn[j]
    {
      ElevateControlAt(c, wNew, d, k, j);
      TimesAt(C, j);
      if j == 0 {
        assert B[0] == 1.0 * c[0];
      } else if j < k {
        assert E[j] == ((j as real) / (k as real)) * c[j - 1] + (((k - j) as real) / (k as real)) * c[j];
      } else {
        assert B[j] == 0.0 && A[j] == 1.0 * c[k - 1];
        assert R[j] == (1.0 * c[k - 1] + 0.0 * c[k]) + wNew[k] * d;
      }
    }
    BSumCombination(A, B, E, 1.0, 1.0, t);
    TimesTCorrect(C, t);
    TimesOneMinusTCorrect(C, t);
    BSumCombination(E, Wn, R, 1.0, d, t);
  }

  // ---------------------------------------------------------------------------
  // What the corrected recurrence computes

  /** After step k, w[0..k] are the degree k Bernstein coefficients of (t - x_0) ... (t - x_(k-1)). */
  lemma {:induction false} NodeVectorValue(x: seq<real>, k: nat, t: real)
    requires k < |x|
    ensures BSum(NodeVector(x, k)[..k + 1], t) == NodeProduct(x, 0, k, t)
    decreases k
  {
    hide *;
    if k == 0 {
      VectorStart(x, x);
      BSumSingle(1.0, t);
      NodeProductZero(x, 0, t);
    } else {
      VectorStep(x, x, k);
      NodeVectorValue(x, k - 1, t);
      RaiseValue(NodeVector(x, k - 1), x[k - 1], k, t);
      NodeProductUnfold(x, 0, k, t);
    }
  }

  /** After step k, c[0..k] are the degree k Bernstein coefficients of the Newton form d_0 + ... + d_k (t - x_0) ... (t - x_(k-1)). */
  lemma {:induction false} ControlVectorValue(x: seq<real>, d: seq<real>, k: nat, t: real)
    requires |d| == |x| && k < |x|
    ensures BSum(ControlVector(x, d, k)[..k + 1], t) == NewtonSum(d[..k + 1], x, t)
    decreases k
  {
    hide *;
    NewtonSumUnfold(d[..k + 1], x, t);
    if k == 0 {
      VectorStart(x, d);
      BSumSingle(d[0], t);
      NewtonSumEmpty(d[..1][..0], x, t);
      NodeProductZero(x, 0, t);
    } else {
      VectorStep(x, d, k);
      ControlVectorValue(x, d, k - 1, t);
      NodeVectorValue(x, k, t);
      ElevateValue(ControlVector(x, d, k - 1), NodeVector(x, k), d[k], k, t);
      assert d[..k + 1][..k] == d[..k];
    }
  }

  /** Entries above k are still zero after step k, in both versions of the recurrence. */
  lemma {:induction false} ZeroAbove(x: seq<real>, d: seq<real>, k: nat, j: nat)
    requires |d| == |x| && k < j < |x|
    ensures NodeVector(x, k)[j] == 0.0 && ControlVector(x, d, k)[j] == 0.0
    ensures NodeVectorAsWritten(x, k)[j] == 0.0 && ControlVectorAsWritten(x, d, k)[j] == 0.0
  {
    hide *;
    if k == 0 {
      VectorStart(x, d);
      InitialAt(1.0, |x|, j);
      InitialAt(d[0], |x|, j);
    } else {
      VectorStep(x, d, k);
      RaiseNodeAt(NodeVector(x, k - 1), x[k - 1], k, j);
      RaiseNodeAt(NodeVectorAsWritten(x, k - 1), x[k - 1], k, j);
      ElevateControlAt(ControlVector(x, d, k - 1), NodeVector(x, k), d[k], k, j);
      ElevateControlAt(ControlVectorAsWritten(x, d, k - 1), NodeVectorAsWritten(x, k), d[k], k, j);
    }
  }

  lemma {:induction false} InitialAt(v: real, len: nat, j: nat)
    requires 1 <= j < len
    ensures Initial(v, len)[j] == 0.0
  {
  }

  /** The control points of the whole run give the Newton form on [0, 1]; in particular c_0 is its value at 0 and c_n its value at 1. */
  lemma {:induction false} ControlPointsNewtonForm(x: seq<real>, d: seq<real>, t: real)
    requires |d| == |x| >= 1
    ensures BSum(ControlVector(x, d, |x| - 1), t) == NewtonSum(d, x, t)
    ensures ControlVector(x, d, |x| - 1)[0] == NewtonSum(d, x, 0.0)
    ensures ControlVector(x, d, |x| - 1)[|x| - 1] == NewtonSum(d, x, 1.0)
  {
    hide *;
    var c := ControlVector(x, d, |x| - 1);
    assert c[..|x|] == c && d[..|x|] == d;
    ControlVectorValue(x, d, |x| - 1, t);
    ControlVectorValue(x, d, |x| - 1, 0.0);
    ControlVectorValue(x, d, |x| - 1, 1.0);
    BSumAtZero(c);
    BSumAtOne(c);
  }

  /** With the divided differences f[x_0, ..., x_m] as d and distinct nodes, the control points interpolate f at every node. */
  lemma {:induction false} ControlPointsInterpolate(x: seq<real>, f: seq<real>, d: seq<real>, k: nat)
    requires |f| == |x| && |d| == |x| && DistinctNodes(x) && k < |x|
    requires forall m :: 0 <= m < |d| ==> d[m] == DividedDifference(x, f, 0, m)
    ensures BSum(ControlVector(x, d, |x| - 1), x[k]) == f[k]
  {
    ControlPointsNewtonForm(x, d, x[k]);
    NewtonSumInterpolates(d, x, f, k);
  }

  // ---------------------------------------------------------------------------
  // What the recurrence without the entry-0 updates computes

  /** Without the entry-0 updates, w_0 is 0 after every step and c_0 stays d_0. */
  lemma {:induction false} AsWrittenFirstEntries(x: seq<real>, d: seq<real>, k: nat)
    requires |d| == |x| && k < |x|
    ensures ControlVectorAsWritten(x, d, k)[0] == d[0]
    ensures k >= 1 ==> NodeVectorAsWritten(x, k)[0] == 0.0
    decreases k
  {
    hide *;
    if k == 0 {
      VectorStart(x, d);
    } else {
      VectorStep(x, d, k);
      AsWrittenFirstEntries(x, d, k - 1);
      RaiseNodeAt(NodeVectorAsWritten(x, k - 1), x[k - 1], k, 0);
      ElevateControlAt(ControlVectorAsWritten(x, d, k - 1), NodeVectorAsWritten(x, k), d[k], k, 0);
    }
  }

  /** The top entries still follow the product and the Newton form at t = 1: w_k = (1 - x_0) ... (1 - x_(k-1)) and c_k is the Newton form at 1. */
  lemma {:induction false} AsWrittenLastEntries(x: seq<real>, d: seq<real>, k: nat)
    requires |d| == |x| && k < |x|
    ensures NodeVectorAsWritten(x, k)[k] == NodeProduct(x, 0, k, 1.0)
    ensures ControlVectorAsWritten(x, d, k)[k] == NewtonSum(d[..k + 1], x, 1.0)
    decreases k
  {
    hide *;
    NewtonSumUnfold(d[..k + 1], x, 1.0);
    if k == 0 {
      VectorStart(x, d);
      NewtonSumEmpty(d[..1][..0], x, 1.0);
      NodeProductZero(x, 0, 1.0);
    } else {
      VectorStep(x, d, k);
      AsWrittenLastEntries(x, d, k - 1);
      NodeProductUnfold(x, 0, k, 1.0);
      var w := NodeVectorAsWritten(x, k - 1);
      var c := ControlVectorAsWritten(x, d, k - 1);
      var w' := NodeVectorAsWritten(x, k);
      RaiseNodeAt(w, x[k - 1], k, k);
      ElevateControlAt(c, w', d[k], k, k);
      TopEntries(w, c, x[k - 1], w'[k], d[k], k);
      assert d[..k + 1][..k] == d[..k];
      assert d[..k + 1][k] == d[k];
      assert c[k - 1] == NewtonSum(d[..k], x, 1.0);
    }
  }

  lemma {:induction false} TopEntries(w: seq<real>, c: seq<real>, xk: real, wk: real, dk: real, k: nat)
    requires 1 <= k < |w| && k < |c|
    ensures RaiseEntry(w, xk, k, k) == w[k - 1] * (1.0 - xk)
    ensures ElevateEntry(c, wk, dk, k, k) == c[k - 1] + wk * dk
  {
    RatioOne(k);
  }

  /**
   * The omission changes the result: for the nodes 0.5, 1 and the data 0, 1 the divided differences are 0, 2;
   * the corrected control points are -1, 1 and the ones computed without the entry-0 updates are 0, 1,
   * whose polynomial is 0.5 at the node 0.5 instead of 0.
   */
  lemma {:induction false} AsWrittenMissesFirstNode()
    ensures DistinctNodes([0.5, 1.0])
    ensures DividedDifference([0.5, 1.0], [0.0, 1.0], 0, 0) == 0.0 && DividedDifference([0.5, 1.0], [0.0, 1.0], 0, 1) == 2.0
    ensures ControlVector([0.5, 1.0], [0.0, 2.0], 1) == [-1.0, 1.0]
    ensures ControlVectorAsWritten([0.5, 1.0], [0.0, 2.0], 1) == [0.0, 1.0]
    ensures BSum([0.0, 1.0], 0.5) == 0.5 != 0.0
  {
    var x := [0.5, 1.0];
    var d := [0.0, 2.0];
    assert NodeVector(x, 1) == [-0.5, 0.5];
    assert NodeVectorAsWritten(x, 1) == [0.0, 0.5];
    BSumSplit([0.0, 1.0], 0.5);
    assert [0.0, 1.0][..1] == [0.0] && [0.0, 1.0][1..] == [1.0];
    BSumSingle(0.0, 0.5);
    BSumSingle(1.0, 0.5);
  }
}
