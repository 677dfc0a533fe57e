/** BernsteinPolynomial: a polynomial kept as Bernstein coefficients on an interval (a, b), with its conversions, evaluation, derivative, subdivision, bounds and sign changes. */
module Bernstein {
  import opened Wrappers
  import opened Sums
  import opened Binomial
  import opened Poly
  import opened BernsteinBasis
  import opened Conversion
  import Utils

  /** c_0 B_0^n(t) + ... + c_n B_n^n(t) with t = (x - a) / (b - a); the constructor keeps the coefficients and the interval as given. */
  datatype BernsteinPolynomial = BernsteinPolynomial(coefficients: seq<real>, a: real, b: real)
  {
    /** degree is len(coefficients) - 1, so -1 for no coefficients. */
    function Degree(): int
    {
      |coefficients| - 1
    }
  }

  /** The value at x of the polynomial that p stands for. */
  function Value(p: BernsteinPolynomial, x: real): real
    requires p.a != p.b
  {
    BSum(p.coefficients, (x - p.a) / (p.b - p.a))
  }

  // ---------------------------------------------------------------------------
  // From the power basis

  /** _transform_to_unit_interval: the power coefficients of t |-> p(a + t (b - a)). */
  method TransformToUnitInterval(coeffs: seq<real>, a: real, b: real) returns (newCoeffs: seq<real>)
    ensures newCoeffs == Shifted(coeffs, a, b - a)
    ensures forall t :: PolyEval(newCoeffs, t) == PolyEval(coeffs, a + t * (b - a))
  {
    hide Pow, Binom, PolyEval, Shifted, Sum, ShiftCoeff, ShiftTerms;
    var acc := new real[|coeffs|](_ => 0.0);
    for i := 0 to |coeffs|
      invariant forall k :: 0 <= k < i ==> acc[k] == ShiftCoeff(coeffs, a, b - a, k)
      invariant forall k :: i <= k < |coeffs| ==> acc[k] == 0.0
    {
      ShiftSumBelow(coeffs, a, b - a, i);
      for j := i to |coeffs|
        invariant acc[i] == Sum(j, ShiftTerms(coeffs, a, b - a, i))
        invariant forall k :: 0 <= k < i ==> acc[k] == ShiftCoeff(coeffs, a, b - a, k)
        invariant forall k :: i < k < |coeffs| ==> acc[k] == 0.0
      {
        ShiftSumStep(coeffs, a, b - a, i, j);
        acc[i] := acc[i] + coeffs[j] * (Binom(j, i) as real) * Pow(a, j - i) * Pow(b - a, i);
      }
      ShiftCoeffIsSum(coeffs, a, b - a, i);
    }
    newCoeffs := acc[..];
    ShiftedEntries(coeffs, a, b - a);
    assert newCoeffs == Shifted(coeffs, a, b - a);
    ShiftedToUnit(coeffs, a, b, newCoeffs);
  }

  /** No a_j with j < i contributes to the coefficient of t^i. */
  lemma {:induction false} ShiftSumBelow(p: seq<real>, a: real, h: real, i: nat)
    ensures Sum(i, ShiftTerms(p, a, h, i)) == 0.0
  {
    SumZero(i, ShiftTerms(p, a, h, i));
  }

  /** One more term of the inner loop of _transform_to_unit_interval. */
  lemma {:induction false} ShiftSumStep(p: seq<real>, a: real, h: real, i: nat, j: nat)
    requires i <= j < |p|
    ensures Sum(j + 1, ShiftTerms(p, a, h, i)) == Sum(j, ShiftTerms(p, a, h, i)) + p[j] * (Binom(j, i) as real) * Pow(a, j - i) * Pow(h, i)
  {
    hide Pow, Binom;
    assert ShiftTerms(p, a, h, i)(j) == ShiftTerm(p, a, h, i, j);
  }

  lemma {:induction false} ShiftCoeffIsSum(p: seq<real>, a: real, h: real, i: nat)
    ensures ShiftCoeff(p, a, h, i) == Sum(|p|, ShiftTerms(p, a, h, i))
  {
  }

  lemma {:induction false} ShiftedToUnit(p: seq<real>, a: real, b: real, q: seq<real>)
    requires q == Shifted(p, a, b - a)
    ensures forall t :: PolyEval(q, t) == PolyEval(p, a + t * (b - a))
  {
    forall t {
      ShiftedCorrect(p, a, b - a, t);
    }
  }

  lemma {:induction false} ShiftedEntries(p: seq<real>, a: real, h: real)
    ensures forall i :: 0 <= i < |p| ==> Shifted(p, a, h)[i] == ShiftCoeff(p, a, h, i)
  {
  }

  /** What from_power_basis makes of the shifted coefficients q: c_i = q_i / C(n, i), since comb(j, i) vanishes for j < i. */
  function DividedByBinomials(q: seq<real>): (c: seq<real>)
    ensures |c| == |q|
  {
    seq(|q|, i requires 0 <= i < |q| => BinomPositive(|q| - 1, i); q[i] / (Binom(|q| - 1, i) as real))
  }

  /** from_power_basis as written: shift to [0, 1], then accumulate transformed[j] comb(j, i) / comb(n, i) over j <= i. */
  method FromPowerBasis(powerCoeffs: seq<real>, a: real := 0.0, b: real := 1.0) returns (p: BernsteinPolynomial)
    ensures p == BernsteinPolynomial(DividedByBinomials(Shifted(powerCoeffs, a, b - a)), a, b)
  {
    var transformed := TransformToUnitInterval(powerCoeffs, a, b);
    var c := new real[|powerCoeffs|](_ => 0.0);
    for i := 0 to |powerCoeffs|
      invariant forall k :: 0 <= k < i ==> c[k] == DividedByBinomials(transformed)[k]
      invariant forall k :: i <= k < |powerCoeffs| ==> c[k] == 0.0
    {
      var n: nat := |powerCoeffs| - 1;
      BinomPositive(n, i);
      for j := 0 to |powerCoeffs|
        invariant c[i] == if j > i then transformed[i] / (Binom(n, i) as real) else 0.0
        invariant forall k :: 0 <= k < i ==> c[k] == DividedByBinomials(transformed)[k]
        invariant forall k :: i < k < |powerCoeffs| ==> c[k] == 0.0
      {
        if j <= i {
          if j < i {
            BinomZeroAbove(j, i);
          } else {
            BinomDiagonal(i);
          }
          c[i] := c[i] + transformed[j] * (Binom(j, i) as real) / (Binom(n, i) as real);
        }
      }
    }
    p := BernsteinPolynomial(c[..], a, b);
  }

  /** Each coefficient from_power_basis produces has the sign of the shifted power coefficient it comes from. */
  lemma {:induction false} DividedByBinomialsSigns(q: seq<real>, i: nat)
    requires i < |q|
    ensures DividedByBinomials(q)[i] > 0.0 <==> q[i] > 0.0
    ensures DividedByBinomials(q)[i] < 0.0 <==> q[i] < 0.0
    ensures DividedByBinomials(q)[i] == 0.0 <==> q[i] == 0.0
  {
    BinomPositive(|q| - 1, i);
    var k := Binom(|q| - 1, i) as real;
    assert DividedByBinomials(q)[i] == q[i] / k;
    assert DividedByBinomials(q)[i] * k == q[i];
  }

  /** When only the leading shifted coefficient is nonzero, as for x^2 on [0, 1], the as-written conversion is exact. */
  lemma {:induction false} DividedByBinomialsLeadingOnly(q: seq<real>, t: real)
    requires |q| >= 1
    requires forall i :: 0 <= i < |q| - 1 ==> q[i] == 0.0
    ensures BSum(DividedByBinomials(q), t) == PolyEval(q, t)
  {
    var n := |q| - 1;
    var c := DividedByBinomials(q);
    var d := BernsteinForm(q);
    forall i | 0 <= i < |q|
      ensures c[i] == d[i]
    {
      var f := ConversionTerms(q, i);
      forall j: nat | j < |q| && j != n
        ensures f(j) == 0.0
      {
        assert q[j] == 0.0;
      }
      SumOneTerm(|q|, f, n);
      assert d[i] == f(n);
      BinomPositive(n, i);
      if i < n {
        assert f(n) == 0.0;
        assert c[i] == q[i] / (Binom(n, i) as real);
        assert q[i] == 0.0;
      } else {
        BinomDiagonal(n);
        assert f(n) == (1.0 / 1.0) * q[n];
        assert c[i] == q[n] / 1.0;
      }
    }
    assert c == d;
    BernsteinFormCorrect(q, t);
  }

  /** The shift with a = 0 only scales: coefficient i becomes p_i h^i. */
  lemma {:induction false} ShiftedAtZero(p: seq<real>, h: real, i: nat)
    requires i < |p|
    ensures Shifted(p, 0.0, h)[i] == p[i] * Pow(h, i)
  {
    var f := ShiftTerms(p, 0.0, h, i);
    forall j: nat | j < |p| && j != i
      ensures f(j) == 0.0
    {
      if j > i {
        PowZero(j - i);
      }
    }
    SumOneTerm(|p|, f, i);
    BinomDiagonal(i);
  }

  /** tests/test_bernstein.py:31-39: x^2 on [0, 1] keeps its values under the as-written conversion. */
  lemma {:induction false} FromPowerBasisSquare(x: real)
    ensures Value(BernsteinPolynomial(DividedByBinomials(Shifted([0.0, 0.0, 1.0], 0.0, 1.0)), 0.0, 1.0), x) == x * x
  {
    var q := [0.0, 0.0, 1.0];
    var s := Shifted(q, 0.0, 1.0);
    forall i | 0 <= i < 3
      ensures s[i] == q[i]
    {
      ShiftedAtZero(q, 1.0, i);
      PowOne(i);
    }
    assert s == q;
    DividedByBinomialsLeadingOnly(q, x);
    assert q[1..] == [0.0, 1.0] && q[1..][1..] == [1.0] && q[1..][1..][1..] == [];
    assert PolyEval([1.0], x) == 1.0 + x * PolyEval([], x) == 1.0;
    assert PolyEval([0.0, 1.0], x) == 0.0 + x * PolyEval([1.0], x) == x;
    assert PolyEval(q, x) == 0.0 + x * PolyEval([0.0, 1.0], x) == x * x;
    assert (x - 0.0) / (1.0 - 0.0) == x;
    assert Value(BernsteinPolynomial(DividedByBinomials(s), 0.0, 1.0), x) == BSum(DividedByBinomials(q), x);
  }

  /** from_power_basis as written does not keep the values of 1 + 2x on [0, 1]: at x = 1 it gives 2, not the 3 of tests/test_bernstein.py:21-29. */
  lemma {:induction false} FromPowerBasisCounterexample()
    ensures Value(BernsteinPolynomial(DividedByBinomials(Shifted([1.0, 2.0], 0.0, 1.0)), 0.0, 1.0), 1.0) == 2.0
    ensures PolyEval([1.0, 2.0], 1.0) == 3.0
  {
    var q := [1.0, 2.0];
    var s := Shifted(q, 0.0, 1.0);
    forall i | 0 <= i < 2
      ensures s[i] == q[i]
    {
      ShiftedAtZero(q, 1.0, i);
      PowOne(i);
    }
    assert s == q;
    var c := DividedByBinomials(q);
    BinomDiagonal(1);
    BinomOne(1);
    assert c[1] == 2.0;
    BSumAtOne(c);
    assert (1.0 - 0.0) / (1.0 - 0.0) == 1.0;
    assert q[1..] == [2.0] && q[1..][1..] == [];
  }

  /** The conversion from_power_basis is meant to be: the true Bernstein coefficients of p on (a, b). */
  function FromPowerBasisCorrected(powerCoeffs: seq<real>, a: real, b: real): (p: BernsteinPolynomial)
    ensures |p.coefficients| == |powerCoeffs| && p.a == a && p.b == b
  {
    BernsteinPolynomial(BernsteinForm(Shifted(powerCoeffs, a, b - a)), a, b)
  }

  /** The corrected conversion keeps every value of p. */
  lemma {:induction false} FromPowerBasisCorrectedExact(powerCoeffs: seq<real>, a: real, b: real, x: real)
    requires a != b
    ensures Value(FromPowerBasisCorrected(powerCoeffs, a, b), x) == PolyEval(powerCoeffs, x)
  {
    var h := b - a;
    var t := (x - a) / h;
    BernsteinFormCorrect(Shifted(powerCoeffs, a, h), t);
    ShiftedCorrect(powerCoeffs, a, h, t);
    assert a + t * h == x;
  }

  // ---------------------------------------------------------------------------
  // Evaluation

  /** evaluate: t = (x - a) / (b - a), then de Casteljau's triangle in place on a copy of the coefficients. */
  method Evaluate(p: BernsteinPolynomial, x: real) returns (r: Result<real>)
    ensures r.Failure? <==> p.a == p.b || |p.coefficients| == 0
    ensures r.Success? ==> r.value == Value(p, x)
  {
    hide Iter, Step, BSum;
    if p.b - p.a == 0.0 {
      return Failure("float division by zero");
    }
    var t := (x - p.a) / (p.b - p.a);
    var c := p.coefficients;
    if |c| == 0 {
      return Failure("index 0 is out of bounds for axis 0 with size 0");
    }
    var coeffs := new real[|c|](i requires 0 <= i < |c| => c[i]);
    var n := |c| - 1;
    assert coeffs[..n + 1] == c;
    IterZero(c, t);
    for j := 1 to n + 1
      invariant coeffs[..n + 2 - j] == Iter(c, t, j - 1)
    {
      StepInPlace(coeffs, n + 1 - j, t);
      IterNext(c, t, j);
    }
    ApexIsBSum(c, t);
    return Success(coeffs[0]);
  }

  /** One pass of evaluate's inner loop: the first m entries become the next level of the triangle. */
  method StepInPlace(coeffs: array<real>, m: nat, t: real)
    requires m < coeffs.Length
    modifies coeffs
    ensures coeffs[..m] == Step(old(coeffs[..m + 1]), t)
  {
    ghost var prev := coeffs[..m + 1];
    for i := 0 to m
      invariant forall k :: 0 <= k < i ==> coeffs[k] == Step(prev, t)[k]
      invariant forall k :: i <= k <= m ==> coeffs[k] == prev[k]
    {
      coeffs[i] := (1.0 - t) * coeffs[i] + t * coeffs[i + 1];
    }
    assert coeffs[..m] == Step(prev, t);
  }

  lemma {:induction false} IterNext(c: seq<real>, t: real, j: nat)
    requires 1 <= j < |c|
    ensures Iter(c, t, j) == Step(Iter(c, t, j - 1), t)
  {
  }

  /** evaluate(a) is c_0 and evaluate(b) is c_n. */
  lemma {:induction false} ValueAtEnds(p: BernsteinPolynomial)
    requires p.a != p.b && |p.coefficients| >= 1
    ensures Value(p, p.a) == p.coefficients[0]
    ensures Value(p, p.b) == p.coefficients[|p.coefficients| - 1]
  {
    assert (p.a - p.a) / (p.b - p.a) == 0.0;
    assert (p.b - p.a) / (p.b - p.a) == 1.0;
    BSumAtZero(p.coefficients);
    BSumAtOne(p.coefficients);
  }

  // ---------------------------------------------------------------------------
  // Bounds

  /** np.min of a non-empty sequence. */
  function MinOf(s: seq<real>): (m: real)
    requires |s| >= 1
    ensures m in s && forall i :: 0 <= i < |s| ==> m <= s[i]
  {
    if |s| == 1 then s[0]
    else
      var m := MinOf(s[1..]);
      assert forall i :: 1 <= i < |s| ==> s[i] == s[1..][i - 1];
      if s[0] <= m then s[0] else m
  }

  /** np.max of a non-empty sequence. */
  function MaxOf(s: seq<real>): (m: real)
    requires |s| >= 1
    ensures m in s && forall i :: 0 <= i < |s| ==> s[i] <= m
  {
    if |s| == 1 then s[0]
    else
      var m := MaxOf(s[1..]);
      assert forall i :: 1 <= i < |s| ==> s[i] == s[1..][i - 1];
      if s[0] >= m then s[0] else m
  }

  /** bounds: the smallest and the largest coefficient; np.min raises on no coefficients. */
  function Bounds(p: BernsteinPolynomial): (r: Result<(real, real)>)
    ensures r.Failure? <==> |p.coefficients| == 0
    ensures r.Success? ==> r.value.0 in p.coefficients && r.value.1 in p.coefficients
    ensures r.Success? ==> forall i :: 0 <= i < |p.coefficients| ==> r.value.0 <= p.coefficients[i] <= r.value.1
  {
    if |p.coefficients| == 0 then Failure("zero-size array to reduction operation minimum which has no identity")
    else Success((MinOf(p.coefficients), MaxOf(p.coefficients)))
  }

  /** The convex hull property: on [a, b] the polynomial stays between its bounds. */
  lemma {:induction false} ValueWithinBounds(p: BernsteinPolynomial, x: real)
    requires p.a < p.b && p.a <= x <= p.b
    requires Bounds(p).Success?
    ensures Bounds(p).value.0 <= Value(p, x) <= Bounds(p).value.1
  {
    UnitParameter(p.a, p.b, x);
    BSumWithin(p.coefficients, (x - p.a) / (p.b - p.a), Bounds(p).value.0, Bounds(p).value.1);
  }

  /** A point of [a, b] has its parameter (x - a) / (b - a) in [0, 1]. */
  lemma {:induction false} UnitParameter(a: real, b: real, x: real)
    requires a < b && a <= x <= b
    ensures 0.0 <= (x - a) / (b - a) <= 1.0
  {
    assert (x - a) / (b - a) + (b - x) / (b - a) == (b - a) / (b - a) == 1.0;
    DivNonNegative(x - a, b - a);
    DivNonNegative(b - x, b - a);
  }

  /** A point strictly inside (a, b) has its parameter strictly inside (0, 1). */
  lemma {:induction false} InteriorParameter(a: real, b: real, x: real)
    requires a < x < b
    ensures 0.0 < (x - a) / (b - a) < 1.0
  {
    assert (x - a) / (b - a) + (b - x) / (b - a) == (b - a) / (b - a) == 1.0;
    DivPositive(x - a, b - a);
    DivPositive(b - x, b - a);
  }

  lemma {:induction false} DivPositive(u: real, v: real)
    requires u > 0.0 && v > 0.0
    ensures u / v > 0.0
  {
    assert u / v == u * (1.0 / v);
    assert 1.0 / v > 0.0;
  }

  lemma {:induction false} DivNonNegative(u: real, v: real)
    requires u >= 0.0 && v > 0.0
    ensures u / v >= 0.0
  {
    assert u / v == u * (1.0 / v);
    assert 1.0 / v > 0.0;
  }

  // ---------------------------------------------------------------------------
  // Derivative

  /** The forward differences c_(i+1) - c_i. */
  function Differences(c: seq<real>): (d: seq<real>)
    requires |c| >= 1
    ensures |d| == |c| - 1
  {
    seq(|c| - 1, i requires 0 <= i < |c| - 1 => c[i + 1] - c[i])
  }

  /** What derivative returns: [0] for degree 0, else (n / h)(c_(i+1) - c_i) on the same interval. */
  function Differentiated(p: BernsteinPolynomial): (d: BernsteinPolynomial)
    requires |p.coefficients| == 1 || (|p.coefficients| >= 2 && p.a != p.b)
    ensures d.a == p.a && d.b == p.b
    ensures |d.coefficients| == if |p.coefficients| == 1 then 1 else |p.coefficients| - 1
  {
    var c := p.coefficients;
    if |c| == 1 then BernsteinPolynomial([0.0], p.a, p.b)
    else
      var n := (|c| - 1) as real;
      var h := p.b - p.a;
      BernsteinPolynomial(seq(|c| - 1, i requires 0 <= i < |c| - 1 => (n / h) * (c[i + 1] - c[i])), p.a, p.b)
  }

  /** derivative: degree 0 gives [0]; no coefficients (np.zeros(-1)) and n / h with h = 0 raise. */
  method Derivative(p: BernsteinPolynomial) returns (r: Result<BernsteinPolynomial>)
    ensures r.Failure? <==> |p.coefficients| == 0 || (|p.coefficients| >= 2 && p.a == p.b)
    ensures r.Success? ==> r.value == Differentiated(p)
  {
    hide *;
    var c := p.coefficients;
    if |c| == 1 {
      DifferentiatedConstant(p);
      return Success(BernsteinPolynomial([0.0], p.a, p.b));
    }
    if |c| == 0 {
      return Failure("negative dimensions are not allowed");
    }
    var n := |c| - 1;
    var h := p.b - p.a;
    if h == 0.0 {
      return Failure("division by zero");
    }
    var factor := (n as real) / h;
    ghost var d := Differentiated(p).coefficients;
    var derivCoeffs := new real[n](_ => 0.0);
    for i := 0 to n
      invariant forall k :: 0 <= k < i ==> derivCoeffs[k] == d[k]
    {
      DifferentiatedEntry(p, factor, i);
      derivCoeffs[i] := factor * (c[i + 1] - c[i]);
    }
    assert derivCoeffs[..] == d;
    return Success(BernsteinPolynomial(derivCoeffs[..], p.a, p.b));
  }

  lemma {:induction false} DifferentiatedConstant(p: BernsteinPolynomial)
    requires |p.coefficients| == 1
    ensures Differentiated(p) == BernsteinPolynomial([0.0], p.a, p.b)
  {
  }

  lemma {:induction false} DifferentiatedEntry(p: BernsteinPolynomial, k: real, i: nat)
    requires |p.coefficients| >= 2 && p.a != p.b
    requires k == ((|p.coefficients| - 1) as real) / (p.b - p.a)
    requires i < |p.coefficients| - 1
    ensures Differentiated(p).coefficients[i] == k * (p.coefficients[i + 1] - p.coefficients[i])
  {
  }

  /** The difference quotient (P(s) - P(t)) / (s - t) of P = BSum(c, .), as a polynomial in s built like de Casteljau's split. */
  function DiffQuotient(c: seq<real>, s: real, t: real): real
    requires |c| >= 1
    decreases |c|
  {
    if |c| == 1 then 0.0
    else (1.0 - s) * DiffQuotient(c[..|c| - 1], s, t) + s * DiffQuotient(c[1..], s, t) + BSum(Differences(c), t)
  }

  lemma {:induction false} DiffQuotientSingle(c: seq<real>, s: real, t: real)
    requires |c| == 1
    ensures c == [c[0]] && DiffQuotient(c, s, t) == 0.0
  {
  }

  lemma {:induction false} DiffQuotientUnfold(c: seq<real>, s: real, t: real)
    requires |c| >= 2
    ensures DiffQuotient(c, s, t) == (1.0 - s) * DiffQuotient(c[..|c| - 1], s, t) + s * DiffQuotient(c[1..], s, t) + BSum(Differences(c), t)
  {
    hide Sum, BTerms, Basis, Pow, Binom, Differences;
  }

  /** P(s) - P(t) == (s - t) Q(s, t): the difference quotient is a polynomial in s. */
  lemma {:induction false} DiffQuotientFactor(c: seq<real>, s: real, t: real)
    requires |c| >= 1
    ensures BSum(c, s) - BSum(c, t) == (s - t) * DiffQuotient(c, s, t)
    decreases |c|
  {
    hide *;
    if |c| == 1 {
      DiffQuotientSingle(c, s, t);
      BSumSingle(c[0], s);
      BSumSingle(c[0], t);
    } else {
      DiffQuotientUnfold(c, s, t);
      DiffQuotientFactor(c[..|c| - 1], s, t);
      DiffQuotientFactor(c[1..], s, t);
      BSumSplit(c, s);
      BSumSplit(c, t);
      DifferencesSplit(c, t);
      FactorArith(BSum(c, s), BSum(c, t), BSum(c[..|c| - 1], s), BSum(c[..|c| - 1], t), BSum(c[1..], s), BSum(c[1..], t),
        DiffQuotient(c[..|c| - 1], s, t), DiffQuotient(c[1..], s, t), BSum(Differences(c), t), DiffQuotient(c, s, t), s, t);
    }
  }

  /** BSum of the differences is BSum(c[1..]) - BSum(c[..n]). */
  lemma {:induction false} DifferencesSplit(c: seq<real>, t: real)
    requires |c| >= 2
    ensures BSum(Differences(c), t) == BSum(c[1..], t) - BSum(c[..|c| - 1], t)
  {
    var n := |c| - 1;
    var d := Differences(c);
    forall i | 0 <= i < n
      ensures d[i] == 1.0 * c[1..][i] + (-1.0) * c[..n][i]
    {
    }
    BSumCombination(c[1..], c[..n], d, 1.0, -1.0, t);
  }

  lemma {:induction false} FactorArith(ps: real, pt: real, ls: real, lt: real, rs: real, rt: real, ql: real, qr: real, dt: real, q: real, s: real, t: real)
    requires ps == (1.0 - s) * ls + s * rs && pt == (1.0 - t) * lt + t * rt
    requires ls - lt == (s - t) * ql && rs - rt == (s - t) * qr
    requires dt == rt - lt && q == (1.0 - s) * ql + s * qr + dt
    ensures ps - pt == (s - t) * q
  {
    calc {
      ps - pt;
      (1.0 - s) * (ls - lt) + s * (rs - rt) + (s - t) * (rt - lt);
      (1.0 - s) * ((s - t) * ql) + s * ((s - t) * qr) + (s - t) * dt;
      (s - t) * ((1.0 - s) * ql + s * qr + dt);
    }
  }

  /** At s = t the difference quotient is n times the Bernstein sum of the differences: the derivative in t. */
  lemma {:induction false} DiffQuotientDiagonal(c: seq<real>, t: real)
    requires |c| >= 2
    ensures DiffQuotient(c, t, t) == ((|c| - 1) as real) * BSum(Differences(c), t)
    decreases |c|
  {
    hide *;
    DiffQuotientUnfold(c, t, t);
    if |c| == 2 {
      DiffQuotientSingle(c[..1], t, t);
      DiffQuotientSingle(c[1..], t, t);
    } else {
      var d := Differences(c);
      DifferencesSlices(c);
      DiffQuotientDiagonal(c[..|c| - 1], t);
      DiffQuotientDiagonal(c[1..], t);
      BSumSplit(d, t);
      DiagonalArith(DiffQuotient(c[..|c| - 1], t, t), DiffQuotient(c[1..], t, t), BSum(d[..|d| - 1], t), BSum(d[1..], t), BSum(d, t),
        (|c| - 2) as real, t);
    }
  }

  /** The differences of the two sub-sequences de Casteljau's split works on are the two ends of the differences of c. */
  lemma {:induction false} DifferencesSlices(c: seq<real>)
    requires |c| >= 3
    ensures Differences(c[..|c| - 1]) == Differences(c)[..|c| - 2]
    ensures Differences(c[1..]) == Differences(c)[1..]
  {
  }

  lemma {:induction false} DiagonalArith(ql: real, qr: real, bl: real, br: real, bd: real, m: real, t: real)
    requires ql == m * bl && qr == m * br
    requires bd == (1.0 - t) * bl + t * br
    ensures (1.0 - t) * ql + t * qr + bd == (m + 1.0) * bd
  {
  }

  /** derivative is the x-derivative: p(y) - p(x) == (y - x) S(y) with S(y) a polynomial in y and S(x) the value of the derivative at x. */
  lemma {:induction false} DerivativeIsSlope(p: BernsteinPolynomial, x: real, y: real)
    requires |p.coefficients| >= 1 && p.a != p.b
    ensures Value(p, y) - Value(p, x) == (y - x) * (DiffQuotient(p.coefficients, (y - p.a) / (p.b - p.a), (x - p.a) / (p.b - p.a)) / (p.b - p.a))
    ensures DiffQuotient(p.coefficients, (x - p.a) / (p.b - p.a), (x - p.a) / (p.b - p.a)) / (p.b - p.a) == Value(Differentiated(p), x)
  {
    hide *;
    ValueUnfold(p, x);
    ValueUnfold(p, y);
    DiffQuotientFactor(p.coefficients, (y - p.a) / (p.b - p.a), (x - p.a) / (p.b - p.a));
    QuotientArith(x, y, p.a, p.b, DiffQuotient(p.coefficients, (y - p.a) / (p.b - p.a), (x - p.a) / (p.b - p.a)), Value(p, y) - Value(p, x));
    DiagonalIsDerivative(p, x);
  }

  lemma {:induction false} QuotientArith(x: real, y: real, a: real, b: real, q: real, dv: real)
    requires a != b && dv == ((y - a) / (b - a) - (x - a) / (b - a)) * q
    ensures dv == (y - x) * (q / (b - a))
  {
    assert (y - a) / (b - a) - (x - a) / (b - a) == (y - x) / (b - a);
  }

  /** On the diagonal s = t the difference quotient, rescaled to x, is the value of derivative. */
  lemma {:induction false} DiagonalIsDerivative(p: BernsteinPolynomial, x: real)
    requires |p.coefficients| >= 1 && p.a != p.b
    ensures DiffQuotient(p.coefficients, (x - p.a) / (p.b - p.a), (x - p.a) / (p.b - p.a)) / (p.b - p.a) == Value(Differentiated(p), x)
  {
    hide *;
    var c := p.coefficients;
    ValueUnfold(Differentiated(p), x);
    if |c| == 1 {
      DiffQuotientSingle(c, (x - p.a) / (p.b - p.a), (x - p.a) / (p.b - p.a));
      DifferentiatedConstant(p);
      BSumSingle(0.0, (x - p.a) / (p.b - p.a));
    } else {
      DiffQuotientDiagonal(c, (x - p.a) / (p.b - p.a));
      var d := Differentiated(p).coefficients;
      forall i | 0 <= i < |d|
        ensures d[i] == ((|c| - 1) as real) / (p.b - p.a) * Differences(c)[i] + 0.0 * Differences(c)[i]
      {
        DifferentiatedEntry(p, ((|c| - 1) as real) / (p.b - p.a), i);
        DifferencesEntry(c, i);
      }
      BSumCombination(Differences(c), Differences(c), d, ((|c| - 1) as real) / (p.b - p.a), 0.0, (x - p.a) / (p.b - p.a));
      DiagonalScaleArith(((|c| - 1) as real), p.b - p.a, BSum(Differences(c), (x - p.a) / (p.b - p.a)));
    }
  }

  lemma {:induction false} ValueUnfold(p: BernsteinPolynomial, x: real)
    requires p.a != p.b
    ensures Value(p, x) == BSum(p.coefficients, (x - p.a) / (p.b - p.a))
  {
  }

  lemma {:induction false} DifferencesEntry(c: seq<real>, i: nat)
    requires i < |c| - 1
    ensures Differences(c)[i] == c[i + 1] - c[i]
  {
  }

  lemma {:induction false} DiagonalScaleArith(n: real, h: real, b: real)
    requires h != 0.0
    ensures n * b / h == (n / h) * b + 0.0 * b
  {
  }

  /** tests/test_bernstein.py:60-70: the derivative of x^2 on [0, 1] is 0 at 0 and 2 at 1. */
  lemma {:induction false} DerivativeSquare()
    ensures Value(Differentiated(BernsteinPolynomial([0.0, 0.0, 1.0], 0.0, 1.0)), 0.0) == 0.0
    ensures Value(Differentiated(BernsteinPolynomial([0.0, 0.0, 1.0], 0.0, 1.0)), 1.0) == 2.0
  {
    var d := Differentiated(BernsteinPolynomial([0.0, 0.0, 1.0], 0.0, 1.0));
    assert d.coefficients == [0.0, 2.0];
    ValueAtEnds(d);
  }

  // ---------------------------------------------------------------------------
  // Subdivision

  /** What subdivide returns: the left edge of de Casteljau's triangle on (a, a + t h) and its right edge on (a + t h, b). */
  function Halves(p: BernsteinPolynomial, t: real): (r: (BernsteinPolynomial, BernsteinPolynomial))
    requires |p.coefficients| >= 1
    ensures |r.0.coefficients| == |r.1.coefficients| == |p.coefficients|
    ensures r.0.a == p.a && r.0.b == r.1.a == p.a + t * (p.b - p.a) && r.1.b == p.b
  {
    var split := p.a + t * (p.b - p.a);
    (BernsteinPolynomial(LeftEdge(p.coefficients, t), p.a, split),
     BernsteinPolynomial(RightEdge(p.coefficients, t), split, p.b))
  }

  /** subdivide: de Casteljau's triangle in an (n + 1) x (n + 1) matrix, column j holding level j; no coefficients raise an IndexError. */
  method Subdivide(p: BernsteinPolynomial, t: real := 0.5) returns (r: Result<(BernsteinPolynomial, BernsteinPolynomial)>)
    ensures r.Failure? <==> |p.coefficients| == 0
    ensures r.Success? ==> r.value == Halves(p, t)
  {
    var c := p.coefficients;
    if |c| == 0 {
      return Failure("index 0 is out of bounds for axis 1 with size 0");
    }
    var matrix := Triangle(c, t);
    hide *;
    var leftCoeffs: seq<real> := [];
    for j := 0 to |c|
      modifies {}
      invariant leftCoeffs == LeftEdge(c, t)[..j]
    {
      LeftEdgeEntry(c, t, j);
      assert matrix[0, j] == LeftEdge(c, t)[j];
      assert LeftEdge(c, t)[..j + 1] == LeftEdge(c, t)[..j] + [LeftEdge(c, t)[j]];
      leftCoeffs := leftCoeffs + [matrix[0, j]];
    }
    var rightCoeffs: seq<real> := [];
    for i := 0 to |c|
      modifies {}
      invariant rightCoeffs == RightEdge(c, t)[..i]
    {
      RightEdgeEntry(c, t, i);
      assert matrix[i, |c| - 1 - i] == RightEdge(c, t)[i];
      assert RightEdge(c, t)[..i + 1] == RightEdge(c, t)[..i] + [RightEdge(c, t)[i]];
      rightCoeffs := rightCoeffs + [matrix[i, |c| - 1 - i]];
    }
    assert leftCoeffs == LeftEdge(c, t);
    assert rightCoeffs == RightEdge(c, t);
    HalvesUnfold(p, t);
    var split := p.a + t * (p.b - p.a);
    return Success((BernsteinPolynomial(leftCoeffs, p.a, split), BernsteinPolynomial(rightCoeffs, split, p.b)));
  }

  lemma {:induction false} HalvesUnfold(p: BernsteinPolynomial, t: real)
    requires |p.coefficients| >= 1
    ensures Halves(p, t) == (BernsteinPolynomial(LeftEdge(p.coefficients, t), p.a, p.a + t * (p.b - p.a)),
                             BernsteinPolynomial(RightEdge(p.coefficients, t), p.a + t * (p.b - p.a), p.b))
  {
  }

  /** The matrix subdivide fills: column 0 holds the coefficients and cell (k, l) level l of de Casteljau's triangle. */
  method Triangle(c: seq<real>, t: real) returns (matrix: array2<real>)
    requires |c| >= 1
    ensures fresh(matrix) && matrix.Length0 == |c| && matrix.Length1 == |c|
    ensures forall l, k {:trigger matrix[k, l]} :: 0 <= l < |c| && 0 <= k < |c| - l ==> matrix[k, l] == Iter(c, t, l)[k]
  {
    hide Iter;
    var n := |c| - 1;
    matrix := new real[n + 1, n + 1]((i, j) => 0.0);
    for i := 0 to n + 1
      invariant forall k :: 0 <= k < i ==> matrix[k, 0] == c[k]
    {
      matrix[i, 0] := c[i];
    }
    IterZero(c, t);
    for j := 1 to n + 1
      invariant forall l, k {:trigger matrix[k, l]} :: 0 <= l < j && 0 <= k <= n - l ==> matrix[k, l] == Iter(c, t, l)[k]
    {
      FillColumn(matrix, c, t, j);
    }
  }

  /** One step of the triangle: column j from column j - 1, every other column untouched. */
  method FillColumn(matrix: array2<real>, c: seq<real>, t: real, j: nat)
    requires 1 <= j < |c| && matrix.Length0 == |c| && matrix.Length1 == |c|
    requires forall k {:trigger Iter(c, t, j - 1)[k]} :: 0 <= k < |c| - (j - 1) ==> matrix[k, j - 1] == Iter(c, t, j - 1)[k]
    modifies matrix
    ensures forall k :: 0 <= k < |c| - j ==> matrix[k, j] == Iter(c, t, j)[k]
    ensures forall l, k {:trigger matrix[k, l]} :: 0 <= l < |c| && l != j && 0 <= k < |c| ==> matrix[k, l] == old(matrix[k, l])
  {
    hide Iter;
    for i := 0 to |c| - j
      invariant forall k :: 0 <= k < i ==> matrix[k, j] == Iter(c, t, j)[k]
      invariant forall l, k {:trigger matrix[k, l]} :: 0 <= l < |c| && l != j && 0 <= k < |c| ==> matrix[k, l] == old(matrix[k, l])
    {
      IterEntry(c, t, j, i);
      matrix[i, j] := (1.0 - t) * matrix[i, j - 1] + t * matrix[i + 1, j - 1];
    }
  }

  lemma {:induction false} IterZero(c: seq<real>, t: real)
    requires |c| >= 1
    ensures Iter(c, t, 0) == c
  {
  }

  /** One cell of de Casteljau's triangle from the two cells it is computed from. */
  lemma {:induction false} IterEntry(c: seq<real>, t: real, j: nat, i: nat)
    requires 1 <= j < |c| && i < |c| - j
    ensures Iter(c, t, j)[i] == (1.0 - t) * Iter(c, t, j - 1)[i] + t * Iter(c, t, j - 1)[i + 1]
  {
  }

  lemma {:induction false} LeftEdgeEntry(c: seq<real>, t: real, j: nat)
    requires j < |c|
    ensures LeftEdge(c, t)[j] == Iter(c, t, j)[0]
  {
  }

  lemma {:induction false} RightEdgeEntry(c: seq<real>, t: real, i: nat)
    requires i < |c|
    ensures RightEdge(c, t)[i] == Iter(c, t, |c| - 1 - i)[i]
  {
  }

  /** The halves keep the end coefficients and meet at the split point: left[0] = c_0, right[n] = c_n, left[n] = right[0]. */
  lemma {:induction false} HalvesEnds(p: BernsteinPolynomial, t: real)
    requires |p.coefficients| >= 1
    ensures Halves(p, t).0.coefficients[0] == p.coefficients[0]
    ensures Halves(p, t).1.coefficients[|p.coefficients| - 1] == p.coefficients[|p.coefficients| - 1]
    ensures Halves(p, t).0.coefficients[|p.coefficients| - 1] == Halves(p, t).1.coefficients[0]
  {
  }

  /** On its sub-interval the left half has the values of p. */
  lemma {:induction false} HalvesLeftValue(p: BernsteinPolynomial, t: real, x: real)
    requires |p.coefficients| >= 1 && p.a != p.b && t != 0.0
    ensures Halves(p, t).0.a != Halves(p, t).0.b
    ensures Value(Halves(p, t).0, x) == Value(p, x)
  {
    hide Sum, BTerms, Basis, Pow, Binom, Iter, Step;
    var left := Halves(p, t).0;
    LeftParameter(p.a, p.b, t, x);
    var s := (x - p.a) / ((p.a + t * (p.b - p.a)) - p.a);
    assert left.a == p.a && left.b == p.a + t * (p.b - p.a) && left.coefficients == LeftEdge(p.coefficients, t);
    assert Value(left, x) == BSum(left.coefficients, (x - left.a) / (left.b - left.a));
    assert (x - left.a) / (left.b - left.a) == s;
    assert Value(left, x) == BSum(LeftEdge(p.coefficients, t), s);
    LeftEdgeCorrect(p.coefficients, t, s);
    assert s * t == (x - p.a) / (p.b - p.a);
    assert BSum(p.coefficients, s * t) == BSum(p.coefficients, (x - p.a) / (p.b - p.a));
    assert Value(p, x) == BSum(p.coefficients, (x - p.a) / (p.b - p.a));
  }

  /** The parameter of x on the left half, times t, is its parameter on [a, b]. */
  lemma {:induction false} LeftParameter(a: real, b: real, t: real, x: real)
    requires a != b && t != 0.0
    ensures (a + t * (b - a)) - a != 0.0
    ensures ((x - a) / ((a + t * (b - a)) - a)) * t == (x - a) / (b - a)
  {
    var h := b - a;
    assert (a + t * h) - a == t * h;
  }

  /** On its sub-interval the right half has the values of p. */
  lemma {:induction false} HalvesRightValue(p: BernsteinPolynomial, t: real, x: real)
    requires |p.coefficients| >= 1 && p.a != p.b && t != 1.0
    ensures Halves(p, t).1.a != Halves(p, t).1.b
    ensures Value(Halves(p, t).1, x) == Value(p, x)
  {
    hide Sum, BTerms, Basis, Pow, Binom, Iter, Step;
    var right := Halves(p, t).1;
    RightParameter(p.a, p.b, t, x);
    var s := (x - (p.a + t * (p.b - p.a))) / (p.b - (p.a + t * (p.b - p.a)));
    assert right.a == p.a + t * (p.b - p.a) && right.b == p.b && right.coefficients == RightEdge(p.coefficients, t);
    assert Value(right, x) == BSum(right.coefficients, (x - right.a) / (right.b - right.a));
    assert (x - right.a) / (right.b - right.a) == s;
    assert Value(right, x) == BSum(RightEdge(p.coefficients, t), s);
    RightEdgeCorrect(p.coefficients, t, s);
    assert t + s * (1.0 - t) == (x - p.a) / (p.b - p.a);
    assert BSum(p.coefficients, t + s * (1.0 - t)) == BSum(p.coefficients, (x - p.a) / (p.b - p.a));
    assert Value(p, x) == BSum(p.coefficients, (x - p.a) / (p.b - p.a));
  }

  /** t plus (1 - t) times the parameter of x on the right half is its parameter on [a, b]. */
  lemma {:induction false} RightParameter(a: real, b: real, t: real, x: real)
    requires a != b && t != 1.0
    ensures b - (a + t * (b - a)) != 0.0
    ensures t + ((x - (a + t * (b - a))) / (b - (a + t * (b - a)))) * (1.0 - t) == (x - a) / (b - a)
  {
    assert b - (a + t * (b - a)) == (1.0 - t) * (b - a);
    DivCancel(x - (a + t * (b - a)), 1.0 - t, b - a);
    assert t + (x - (a + t * (b - a))) / (b - a) == (x - a) / (b - a);
  }

  lemma {:induction false} DivCancel(n: real, k: real, h: real)
    requires k != 0.0 && h != 0.0
    ensures k * h != 0.0 && (n / (k * h)) * k == n / h
  {
  }

  // ---------------------------------------------------------------------------
  // Sign changes

  /** sign_changes on the coefficients: zeros dropped, strict flips between neighbours counted. */
  method SignChanges(p: BernsteinPolynomial) returns (changes: nat)
    ensures changes == Utils.SignChanges(p.coefficients)
  {
    changes := Utils.CountSignChanges(p.coefficients);
  }

  /** With no sign change and some nonzero coefficient, p has no root strictly inside (a, b). */
  lemma {:induction false} NoSignChangeNoRoot(p: BernsteinPolynomial, x: real)
    requires p.a < x < p.b
    requires Utils.SignChanges(p.coefficients) == 0
    requires exists k :: 0 <= k < |p.coefficients| && p.coefficients[k] != 0.0
    ensures Value(p, x) != 0.0
  {
    var c := p.coefficients;
    var k :| 0 <= k < |c| && c[k] != 0.0;
    var signs := Utils.NonZeroSigns(c);
    Utils.NonZeroSignsCover(c, k);
    var v := signs[0];
    Utils.NoFlipsConstant(signs);
    Utils.SignsFollow(c, v);
    InteriorParameter(p.a, p.b, x);
    if v == 1 {
      BSumPositive(c, (x - p.a) / (p.b - p.a), k);
    } else {
      BSumPositive(Negated(c), (x - p.a) / (p.b - p.a), k);
      BSumNegated(c, (x - p.a) / (p.b - p.a));
    }
  }

  /** A Bernstein sum with non-negative coefficients, one of them positive, is positive inside (0, 1). */
  lemma {:induction false} BSumPositive(c: seq<real>, t: real, k: nat)
    requires 0.0 < t < 1.0 && k < |c| && c[k] > 0.0
    requires forall i :: 0 <= i < |c| ==> c[i] >= 0.0
    ensures BSum(c, t) > 0.0
  {
    var f := BTerms(c, t);
    forall i: nat | i < |c|
      ensures f(i) >= 0.0
    {
      BasisNonNegative(|c| - 1, i, t);
      MulNonNegative(c[i], Basis(|c| - 1, i, t));
    }
    BasisPositive(|c| - 1, k, t);
    assert f(k) > 0.0;
    SumPositive(|c|, f, k);
  }

  lemma {:induction false} SumPositive(n: nat, f: nat -> real, k: nat)
    requires k < n && f(k) > 0.0
    requires forall i: nat :: i < n ==> f(i) >= 0.0
    ensures Sum(n, f) > 0.0
  {
    if n - 1 == k {
      SumNonNegative(n - 1, f);
    } else {
      SumPositive(n - 1, f, k);
    }
  }

  lemma {:induction false} BSumNegated(c: seq<real>, t: real)
    ensures BSum(Negated(c), t) == -BSum(c, t)
  {
    var d := Negated(c);
    forall i | 0 <= i < |c|
      ensures d[i] == (-1.0) * c[i] + 0.0 * c[i]
    {
    }
    BSumCombination(c, c, d, -1.0, 0.0, t);
  }

  // ---------------------------------------------------------------------------
  // Back to the power basis

  /** Contribution of m_i to the coefficient of x^j in to_power_basis's rescale: m_i C(j, i) (-a)^(j - i) / h^i for i <= j. */
  function RescaleTerm(m: seq<real>, a: real, h: real, j: nat, i: nat): real
  {
    if i <= j < |m| && Pow(h, i) != 0.0 then m[i] * (Binom(j, i) as real) * Pow(-a, j - i) / Pow(h, i) else 0.0
  }

  function RescaleTerms(m: seq<real>, a: real, h: real, j: nat): nat -> real
  {
    (i: nat) => RescaleTerm(m, a, h, j, i)
  }

  /** to_power_basis's second stage as written: coefficient j collects m_i C(j, i) (-a)^(j - i) / h^i over i <= j. */
  function Rescaled(m: seq<real>, a: real, h: real): (r: seq<real>)
    ensures |r| == |m|
  {
    seq(|m|, j requires 0 <= j < |m| => Sum(|m|, RescaleTerms(m, a, h, j)))
  }

  /** to_power_basis: the power form of the coefficients on [0, 1], then the rescale to (a, b); dividing by h^i with h = 0 would give non-finite floats. */
  method ToPowerBasis(p: BernsteinPolynomial) returns (scaledCoeffs: seq<real>)
    requires |p.coefficients| <= 1 || p.a != p.b
    ensures scaledCoeffs == Rescaled(PowerForm(p.coefficients), p.a, p.b - p.a)
  {
    var c := p.coefficients;
    var m := PowerStage(c);
    scaledCoeffs := RescaleStage(m, p.a, p.b);
  }

  /** The first half of to_power_basis: power_coeffs[j] accumulates (-1)^(j - i) C(n, j) C(j, i) c_i over i <= j. */
  method PowerStage(c: seq<real>) returns (m: seq<real>)
    ensures m == PowerForm(c)
  {
    hide *;
    var powerCoeffs := new real[|c|](_ => 0.0);
    for j := 0 to |c|
      invariant forall k :: 0 <= k < j ==> powerCoeffs[k] == Sum(|c|, StageTerms(c, k))
      invariant forall k :: j <= k < |c| ==> powerCoeffs[k] == 0.0
    {
      var n: nat := |c| - 1;
      SumEmpty(StageTerms(c, j));
      for i := 0 to j + 1
        invariant powerCoeffs[j] == Sum(i, StageTerms(c, j))
        invariant forall k :: 0 <= k < j ==> powerCoeffs[k] == Sum(|c|, StageTerms(c, k))
        invariant forall k :: j < k < |c| ==> powerCoeffs[k] == 0.0
      {
        var sign := Pow(-1.0, j - i);
        StageStep(c, j, i);
        powerCoeffs[j] := powerCoeffs[j] + sign * (Binom(n, j) as real) * (Binom(j, i) as real) * c[i];
      }
      StageTail(c, j);
    }
    m := powerCoeffs[..];
    PowerFormEntries(c);
  }

  lemma {:induction false} SumEmpty(f: nat -> real)
    ensures Sum(0, f) == 0.0
  {
  }

  lemma {:induction false} StageStep(c: seq<real>, j: nat, i: nat)
    requires i <= j < |c|
    ensures Sum(i + 1, StageTerms(c, j)) == Sum(i, StageTerms(c, j)) + Pow(-1.0, j - i) * (Binom(|c| - 1, j) as real) * (Binom(j, i) as real) * c[i]
  {
    hide Pow;
    hide Binom;
    assert StageTerms(c, j)(i) == PowerEntry(|c| - 1, i, j) * c[i];
  }

  lemma {:induction false} StageTail(c: seq<real>, j: nat)
    requires j < |c|
    ensures Sum(|c|, StageTerms(c, j)) == Sum(j + 1, StageTerms(c, j))
  {
    SumTail(|c|, j + 1, StageTerms(c, j));
  }

  lemma {:induction false} PowerFormEntries(c: seq<real>)
    ensures forall j :: 0 <= j < |c| ==> PowerForm(c)[j] == Sum(|c|, StageTerms(c, j))
  {
  }

  /** The second half of to_power_basis: scaled_coeffs[j] accumulates m_i C(j, i) (-a)^(j - i) / h^i over i <= j. */
  method RescaleStage(m: seq<real>, a: real, b: real) returns (scaledCoeffs: seq<real>)
    requires |m| <= 1 || a != b
    ensures scaledCoeffs == Rescaled(m, a, b - a)
  {
    hide *;
    var h := b - a;
    var scaled := new real[|m|](_ => 0.0);
    RescaleStart(m, a, h);
    for i := 0 to |m|
      invariant forall k :: 0 <= k < |m| ==> scaled[k] == Sum(i, RescaleTerms(m, a, h, k))
    {
      RescaleBelow(m, a, h, i);
      RescaleDivisor(m, a, b, h, i);
      for j := i to |m|
        invariant forall k :: 0 <= k < j ==> scaled[k] == Sum(i + 1, RescaleTerms(m, a, h, k))
        invariant forall k :: j <= k < |m| ==> scaled[k] == Sum(i, RescaleTerms(m, a, h, k))
      {
        RescaleStep(m, a, b, h, j, i);
        scaled[j] := scaled[j] + m[i] * (Binom(j, i) as real) * Pow(-a, j - i) / Pow(h, i);
      }
    }
    scaledCoeffs := scaled[..];
    RescaledEntries(m, a, h);
  }

  lemma {:induction false} RescaleStart(m: seq<real>, a: real, h: real)
    ensures forall k :: 0 <= k < |m| ==> Sum(0, RescaleTerms(m, a, h, k)) == 0.0
  {
  }

  /** Terms with i > k add nothing to coefficient k. */
  lemma {:induction false} RescaleBelow(m: seq<real>, a: real, h: real, i: nat)
    ensures forall k :: 0 <= k < i ==> Sum(i + 1, RescaleTerms(m, a, h, k)) == Sum(i, RescaleTerms(m, a, h, k))
  {
  }

  lemma {:induction false} RescaleStep(m: seq<real>, a: real, b: real, h: real, j: nat, i: nat)
    requires |m| <= 1 || a != b
    requires h == b - a && i <= j < |m|
    ensures Pow(h, i) != 0.0
    ensures Sum(i + 1, RescaleTerms(m, a, h, j)) == Sum(i, RescaleTerms(m, a, h, j)) + m[i] * (Binom(j, i) as real) * Pow(-a, j - i) / Pow(h, i)
  {
    RescaleDivisor(m, a, b, h, i);
    hide Pow;
    hide Binom;
    assert RescaleTerms(m, a, h, j)(i) == m[i] * (Binom(j, i) as real) * Pow(-a, j - i) / Pow(h, i);
  }

  /** h^i is never zero for the i the rescale divides by. */
  lemma {:induction false} RescaleDivisor(m: seq<real>, a: real, b: real, h: real, i: nat)
    requires |m| <= 1 || a != b
    requires h == b - a && i < |m|
    ensures Pow(h, i) != 0.0
  {
    if i > 0 {
      PowNonZero(h, i);
    }
  }

  lemma {:induction false} RescaledEntries(m: seq<real>, a: real, h: real)
    ensures forall j :: 0 <= j < |m| ==> Rescaled(m, a, h)[j] == Sum(|m|, RescaleTerms(m, a, h, j))
  {
  }

  /** For a = 0 the rescale only divides coefficient j by h^j, and to_power_basis keeps every value of p. */
  lemma {:induction false} ToPowerBasisAtZero(c: seq<real>, b: real, x: real)
    requires b != 0.0
    ensures PolyEval(Rescaled(PowerForm(c), 0.0, b), x) == Value(BernsteinPolynomial(c, 0.0, b), x)
  {
    hide *;
    var m := PowerForm(c);
    var v := 1.0 / b;
    var r := Rescaled(m, 0.0, b);
    var s := Shifted(m, 0.0, v);
    forall j | 0 <= j < |m|
      ensures r[j] == s[j]
    {
      RescaledAtZeroEntry(m, b, v, j);
    }
    assert r == s;
    ShiftedCorrect(m, 0.0, v, x);
    ScaleArith(b, x, v);
    PowerFormCorrect(c, (x - 0.0) / (b - 0.0));
    ValueUnfold(BernsteinPolynomial(c, 0.0, b), x);
  }

  /** With a = 0, to_power_basis divides coefficient j by h^j, which is the shift by 0 with scale 1 / h. */
  lemma {:induction false} RescaledAtZeroEntry(m: seq<real>, b: real, v: real, j: nat)
    requires b != 0.0 && v == 1.0 / b && j < |m|
    ensures Rescaled(m, 0.0, b)[j] == Shifted(m, 0.0, v)[j]
  {
    hide Pow;
    hide Binom;
    var f := RescaleTerms(m, 0.0, b, j);
    forall i: nat | i < |m| && i != j
      ensures f(i) == 0.0
    {
      if i < j {
        PowZero(j - i);
        assert Pow(-0.0, j - i) == 0.0;
      }
    }
    SumOneTerm(|m|, f, j);
    PowNonZero(b, j);
    BinomDiagonal(j);
    PowZeroExponent(-0.0);
    ShiftedAtZero(m, v, j);
    PowInverse(b, j);
    InverseArith(m[j], Pow(b, j), Pow(v, j));
  }

  lemma {:induction false} InverseArith(c: real, p: real, q: real)
    requires p != 0.0 && q * p == 1.0
    ensures c * 1.0 * 1.0 / p == c * q
  {
    assert q == 1.0 / p;
  }

  lemma {:induction false} PowZeroExponent(x: real)
    ensures Pow(x, 0) == 1.0
  {
  }

  lemma {:induction false} ScaleArith(b: real, x: real, v: real)
    requires b != 0.0 && v == 1.0 / b
    ensures 0.0 + x * v == (x - 0.0) / (b - 0.0)
  {
  }

  /** For a != 0 to_power_basis does not give back p: c = [0, 1] on (1, 2) is x - 1, but the result [0, 1] is x. */
  lemma {:induction false} ToPowerBasisCounterexample()
    ensures Rescaled(PowerForm([0.0, 1.0]), 1.0, 1.0) == [0.0, 1.0]
    ensures Value(BernsteinPolynomial([0.0, 1.0], 1.0, 2.0), 1.0) == 0.0
    ensures PolyEval([0.0, 1.0], 1.0) == 1.0
  {
    var c := [0.0, 1.0];
    var m := PowerForm(c);
    BinomDiagonal(1);
    BinomOne(1);
    assert StageTerm(c, 0, 0) == 0.0 && StageTerm(c, 0, 1) == 0.0;
    assert StageTerm(c, 1, 0) == 0.0 && StageTerm(c, 1, 1) == 1.0;
    assert m[0] == Sum(2, StageTerms(c, 0)) == 0.0;
    assert m[1] == Sum(2, StageTerms(c, 1)) == 1.0;
    var r := Rescaled(m, 1.0, 1.0);
    assert RescaleTerm(m, 1.0, 1.0, 0, 0) == 0.0 && RescaleTerm(m, 1.0, 1.0, 0, 1) == 0.0;
    assert RescaleTerm(m, 1.0, 1.0, 1, 0) == 0.0 && RescaleTerm(m, 1.0, 1.0, 1, 1) == 1.0;
    assert r[0] == Sum(2, RescaleTerms(m, 1.0, 1.0, 0)) == 0.0;
    assert r[1] == Sum(2, RescaleTerms(m, 1.0, 1.0, 1)) == 1.0;
    ValueAtEnds(BernsteinPolynomial(c, 1.0, 2.0));
    assert c[1..] == [1.0] && c[1..][1..] == [];
  }

  /** The conversion to_power_basis is meant to be: the power coefficients of x |-> P((x - a) / h). */
  function ToPowerBasisCorrected(p: BernsteinPolynomial): (q: seq<real>)
    requires p.a != p.b
    ensures |q| == |p.coefficients|
  {
    Shifted(PowerForm(p.coefficients), -p.a / (p.b - p.a), 1.0 / (p.b - p.a))
  }

  /** The corrected conversion keeps every value of p, whatever a is. */
  lemma {:induction false} ToPowerBasisCorrectedExact(p: BernsteinPolynomial, x: real)
    requires p.a != p.b
    ensures PolyEval(ToPowerBasisCorrected(p), x) == Value(p, x)
  {
    hide *;
    var u := -p.a / (p.b - p.a);
    var v := 1.0 / (p.b - p.a);
    ToPowerBasisCorrectedUnfold(p, u, v);
    ShiftedCorrect(PowerForm(p.coefficients), u, v, x);
    InverseShiftArith(p.a, p.b, x, u, v);
    PowerFormCorrect(p.coefficients, (x - p.a) / (p.b - p.a));
    ValueUnfold(p, x);
  }

  lemma {:induction false} ToPowerBasisCorrectedUnfold(p: BernsteinPolynomial, u: real, v: real)
    requires p.a != p.b && u == -p.a / (p.b - p.a) && v == 1.0 / (p.b - p.a)
    ensures ToPowerBasisCorrected(p) == Shifted(PowerForm(p.coefficients), u, v)
  {
  }

  lemma {:induction false} InverseShiftArith(a: real, b: real, x: real, u: real, v: real)
    requires a != b && u == -a / (b - a) && v == 1.0 / (b - a)
    ensures u + x * v == (x - a) / (b - a)
  {
  }

  /** The corrected conversions are inverse to each other on values. */
  lemma {:induction false} CorrectedRoundTrip(powerCoeffs: seq<real>, a: real, b: real, x: real)
    requires a != b
    ensures PolyEval(ToPowerBasisCorrected(FromPowerBasisCorrected(powerCoeffs, a, b)), x) == PolyEval(powerCoeffs, x)
  {
    ToPowerBasisCorrectedExact(FromPowerBasisCorrected(powerCoeffs, a, b), x);
    FromPowerBasisCorrectedExact(powerCoeffs, a, b, x);
  }

  // ---------------------------------------------------------------------------
  // The exclusion test of the root finder

  /** Exclusion is sound as written: if every coefficient from_power_basis produces is positive (negative), p is positive (negative) on all of [a, b]. */
  lemma {:induction false} ExclusionSound(powerCoeffs: seq<real>, a: real, b: real, x: real)
    requires a < b && a <= x <= b && |powerCoeffs| >= 1
    ensures var bounds := Bounds(BernsteinPolynomial(DividedByBinomials(Shifted(powerCoeffs, a, b - a)), a, b));
      (bounds.value.0 > 0.0 ==> PolyEval(powerCoeffs, x) > 0.0) && (bounds.value.1 < 0.0 ==> PolyEval(powerCoeffs, x) < 0.0)
  {
    hide *;
    var q := Shifted(powerCoeffs, a, b - a);
    var c := DividedByBinomials(q);
    var bounds := Bounds(BernsteinPolynomial(c, a, b));
    var t := (x - a) / (b - a);
    UnitParameter(a, b, x);
    ShiftedAtParameter(powerCoeffs, a, b, x, q, t);
    if bounds.value.0 > 0.0 {
      forall i | 0 <= i < |q|
        ensures q[i] > 0.0
      {
        DividedByBinomialsSigns(q, i);
      }
      PolyEvalPositive(q, t);
    }
    if bounds.value.1 < 0.0 {
      forall i | 0 <= i < |q|
        ensures q[i] < 0.0
      {
        DividedByBinomialsSigns(q, i);
      }
      PolyEvalNegative(q, t);
    }
  }

  /** The shifted coefficients at the parameter of x give the value of the original polynomial at x. */
  lemma {:induction false} ShiftedAtParameter(p: seq<real>, a: real, b: real, x: real, q: seq<real>, t: real)
    requires a != b && q == Shifted(p, a, b - a) && t == (x - a) / (b - a)
    ensures PolyEval(q, t) == PolyEval(p, x)
  {
    hide *;
    ParameterInverse(a, b, x, t);
    ShiftedCorrectAt(p, a, b - a, t, x);
  }

  /** ShiftedCorrect with the image point named. */
  lemma {:induction false} ShiftedCorrectAt(p: seq<real>, a: real, h: real, t: real, y: real)
    requires y == a + t * h
    ensures PolyEval(Shifted(p, a, h), t) == PolyEval(p, y)
  {
    hide *;
    ShiftedCorrect(p, a, h, t);
  }

  lemma {:induction false} ParameterInverse(a: real, b: real, x: real, t: real)
    requires a != b && t == (x - a) / (b - a)
    ensures a + t * (b - a) == x
  {
  }

  /** The corrected conversion would keep the exclusion sound too, by the convex hull property. */
  lemma {:induction false} CorrectedExclusionSound(powerCoeffs: seq<real>, a: real, b: real, x: real)
    requires a < b && a <= x <= b && |powerCoeffs| >= 1
    ensures var bounds := Bounds(FromPowerBasisCorrected(powerCoeffs, a, b));
      (bounds.value.0 > 0.0 ==> PolyEval(powerCoeffs, x) > 0.0) && (bounds.value.1 < 0.0 ==> PolyEval(powerCoeffs, x) < 0.0)
  {
    hide *;
    var p := FromPowerBasisCorrected(powerCoeffs, a, b);
    ValueWithinBounds(p, x);
    FromPowerBasisCorrectedExact(powerCoeffs, a, b, x);
  }
}
