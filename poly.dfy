/** Polynomials in the power basis: p(x) = c_0 + c_1 x + ... + c_n x^n. */
module Poly {
  import opened Sums
  import opened Binomial

  /** p(x) by Horner's rule, which is what np.polyval computes on the reversed coefficient list. */
  function PolyEval(c: seq<real>, x: real): real
  {
    if |c| == 0 then 0.0 else c[0] + x * PolyEval(c[1..], x)
  }

  /** The term c_i x^i, and 0 beyond the last coefficient. */
  function MonomialTerm(c: seq<real>, x: real, i: nat): real
  {
    if i < |c| then c[i] * Pow(x, i) else 0.0
  }

  function Monomials(c: seq<real>, x: real): nat -> real
  {
    (i: nat) => MonomialTerm(c, x, i)
  }

  /** The textbook reading of p(x): the sum of c_i x^i. */
  function PowerSum(c: seq<real>, x: real): real
  {
    Sum(|c|, Monomials(c, x))
  }

  lemma {:induction false} HornerIsPowerSum(c: seq<real>, x: real)
    ensures PolyEval(c, x) == PowerSum(c, x)
  {
    if |c| > 0 {
      HornerIsPowerSum(c[1..], x);
      PowerSumCons(c, x);
    }
  }

  /** The power sum obeys Horner's recurrence. */
  lemma {:induction false} PowerSumCons(c: seq<real>, x: real)
    requires |c| > 0
    ensures PowerSum(c, x) == c[0] + x * PowerSum(c[1..], x)
  {
    MonomialsDrop(c, x);
    SumScaled(|c| - 1, x, Monomials(c[1..], x));
  }

  lemma {:induction false} MonomialsDrop(c: seq<real>, x: real)
    requires |c| > 0
    ensures Sum(|c|, Monomials(c, x)) == c[0] + Sum(|c| - 1, Scaled(x, Monomials(c[1..], x)))
  {
    var f := Monomials(c, x);
    var g := Scaled(x, Monomials(c[1..], x));
    forall i: nat | i < |c| - 1
      ensures g(i) == f(i + 1)
    {
      MonomialShift(c, x, i);
    }
    SumShift(|c| - 1, f, g);
    assert f(0) == c[0];
  }

  lemma {:induction false} MonomialShift(c: seq<real>, x: real, i: nat)
    requires i + 1 < |c|
    ensures x * MonomialTerm(c[1..], x, i) == MonomialTerm(c, x, i + 1)
  {
    var p := Pow(x, i);
    assert MonomialTerm(c, x, i + 1) == c[i + 1] * (x * p);
    assert MonomialTerm(c[1..], x, i) == c[i + 1] * p;
    MulSwap(x, c[i + 1], p);
  }

  lemma {:induction false} MulSwap(x: real, y: real, z: real)
    ensures x * (y * z) == y * (x * z)
  {
  }

  lemma {:induction false} Distribute(x: real, y: real, z: real)
    ensures x * (y + z) == x * y + x * z
  {
  }

  lemma {:induction false} PolyEvalNonNegative(c: seq<real>, x: real)
    requires x >= 0.0
    requires forall i :: 0 <= i < |c| ==> c[i] >= 0.0
    ensures PolyEval(c, x) >= 0.0
  {
    if |c| > 0 {
      PolyEvalNonNegative(c[1..], x);
    }
  }

  /** Strictly positive coefficients make p strictly positive on x >= 0. */
  lemma {:induction false} PolyEvalPositive(c: seq<real>, x: real)
    requires |c| >= 1 && x >= 0.0
    requires forall i :: 0 <= i < |c| ==> c[i] > 0.0
    ensures PolyEval(c, x) > 0.0
  {
    PolyEvalNonNegative(c[1..], x);
  }

  function Negated(c: seq<real>): (r: seq<real>)
    ensures |r| == |c| && forall i :: 0 <= i < |c| ==> r[i] == -c[i]
  {
    seq(|c|, i requires 0 <= i < |c| => -c[i])
  }

  lemma {:induction false} PolyEvalNegated(c: seq<real>, x: real)
    ensures PolyEval(Negated(c), x) == -PolyEval(c, x)
  {
    if |c| > 0 {
      PolyEvalNegated(c[1..], x);
      assert Negated(c)[1..] == Negated(c[1..]);
    }
  }

  /** Strictly negative coefficients make p strictly negative on x >= 0. */
  lemma {:induction false} PolyEvalNegative(c: seq<real>, x: real)
    requires |c| >= 1 && x >= 0.0
    requires forall i :: 0 <= i < |c| ==> c[i] < 0.0
    ensures PolyEval(c, x) < 0.0
  {
    PolyEvalPositive(Negated(c), x);
    PolyEvalNegated(c, x);
  }

  /** Evaluation is additive in the coefficients. */
  lemma {:induction false} PolyEvalAdd(a: seq<real>, b: seq<real>, d: seq<real>, x: real)
    requires |a| == |b| == |d|
    requires forall i :: 0 <= i < |d| ==> d[i] == a[i] + b[i]
    ensures PolyEval(d, x) == PolyEval(a, x) + PolyEval(b, x)
  {
    if |d| > 0 {
      PolyEvalAdd(a[1..], b[1..], d[1..], x);
    }
  }

  /** If d_0 = a_0 and d_i = a_i + b_(i-1), then d(x) = a(x) + x b(x). */
  lemma {:induction false} PolyEvalShiftAdd(a: seq<real>, b: seq<real>, d: seq<real>, x: real)
    requires |a| == |d| == |b| + 1
    requires d[0] == a[0]
    requires forall i :: 1 <= i < |d| ==> d[i] == a[i] + b[i - 1]
    ensures PolyEval(d, x) == PolyEval(a, x) + x * PolyEval(b, x)
  {
    PolyEvalAdd(a[1..], b, d[1..], x);
    var pa, pb := PolyEval(a[1..], x), PolyEval(b, x);
    assert PolyEval(d, x) == a[0] + x * (pa + pb);
    assert PolyEval(a, x) == a[0] + x * pa;
    Distribute(x, pa, pb);
  }

  // ---------------------------------------------------------------------------
  // Change of variable x = a + t h (the shift of a polynomial to [0, 1])

  /** Contribution of a_j to the coefficient of t^i in p(a + t h): a_j C(j, i) a^(j - i) h^i for i <= j. */
  function ShiftTerm(p: seq<real>, a: real, h: real, i: nat, j: nat): real
  {
    if i <= j < |p| then p[j] * (Binom(j, i) as real) * Pow(a, j - i) * Pow(h, i) else 0.0
  }

  /** The coefficient of t^i in p(a + t h). */
  function ShiftCoeff(p: seq<real>, a: real, h: real, i: nat): real
  {
    Sum(|p|, ShiftTerms(p, a, h, i))
  }

  function ShiftTerms(p: seq<real>, a: real, h: real, i: nat): nat -> real
  {
    (j: nat) => ShiftTerm(p, a, h, i, j)
  }

  function Shifted(p: seq<real>, a: real, h: real): (q: seq<real>)
    ensures |q| == |p|
  {
    seq(|p|, i requires 0 <= i < |p| => ShiftCoeff(p, a, h, i))
  }

  lemma {:induction false} ShiftTermAsBinomial(p: seq<real>, a: real, h: real, t: real, i: nat, j: nat)
    requires j < |p|
    ensures ShiftTerm(p, a, h, i, j) * Pow(t, i) == p[j] * BinomialTerm(h * t, a, j, i)
  {
    if i <= j {
      ShiftTermInRange(p, a, h, t, i, j);
    } else {
      assert ShiftTerm(p, a, h, i, j) == 0.0;
      assert BinomialTerm(h * t, a, j, i) == 0.0;
    }
  }

  lemma {:induction false} ShiftTermInRange(p: seq<real>, a: real, h: real, t: real, i: nat, j: nat)
    requires i <= j < |p|
    ensures ShiftTerm(p, a, h, i, j) * Pow(t, i) == p[j] * BinomialTerm(h * t, a, j, i)
  {
    hide Pow, Binom;
    PowMul(h, t, i);
    assert ShiftTerm(p, a, h, i, j) == p[j] * (Binom(j, i) as real) * Pow(a, j - i) * Pow(h, i);
    assert BinomialTerm(h * t, a, j, i) == (Binom(j, i) as real) * Pow(h * t, i) * Pow(a, j - i);
    Regroup(ShiftTerm(p, a, h, i, j), BinomialTerm(h * t, a, j, i), p[j], Binom(j, i) as real, Pow(a, j - i), Pow(h, i), Pow(t, i));
  }

  lemma {:induction false} Regroup(st: real, bt: real, pj: real, b: real, aj: real, hi: real, ti: real)
    requires st == pj * b * aj * hi
    requires bt == b * (hi * ti) * aj
    ensures st * ti == pj * bt
  {
    assert st * ti == pj * (b * (hi * ti) * aj);
  }

  /** Entry (i, j) of the double sum that expands p(a + t h): the part of a_j t^i. */
  function ShiftProduct(p: seq<real>, a: real, h: real, t: real, i: nat, j: nat): real
  {
    ShiftTerm(p, a, h, i, j) * Pow(t, i)
  }

  /** Column j of the double sum: all the terms coming from a_j add up to a_j (a + t h)^j. */
  lemma {:induction false} ShiftColumn(p: seq<real>, a: real, h: real, t: real, j: nat)
    requires j < |p|
    ensures Sum(|p|, (i: nat) => ShiftProduct(p, a, h, t, i, j)) == MonomialTerm(p, a + t * h, j)
  {
    ShiftColumnScale(p, a, h, t, j);
    ShiftColumnExpansion(p, a, h, t, j);
  }

  lemma {:induction false} ShiftColumnScale(p: seq<real>, a: real, h: real, t: real, j: nat)
    requires j < |p|
    ensures Sum(|p|, (i: nat) => ShiftProduct(p, a, h, t, i, j)) == p[j] * Sum(|p|, BinomialTerms(h * t, a, j))
  {
    ShiftColumnTerms(p, a, h, t, j);
    SumScale(|p|, p[j], BinomialTerms(h * t, a, j), (i: nat) => ShiftProduct(p, a, h, t, i, j));
  }

  lemma {:induction false} ShiftColumnTerms(p: seq<real>, a: real, h: real, t: real, j: nat)
    requires j < |p|
    ensures forall i: nat :: i < |p| ==> ShiftProduct(p, a, h, t, i, j) == p[j] * BinomialTerms(h * t, a, j)(i)
  {
    forall i: nat | i < |p|
      ensures ShiftProduct(p, a, h, t, i, j) == p[j] * BinomialTerms(h * t, a, j)(i)
    {
      ShiftTermAsBinomial(p, a, h, t, i, j);
    }
  }

  lemma {:induction false} ShiftColumnExpansion(p: seq<real>, a: real, h: real, t: real, j: nat)
    requires j < |p|
    ensures Sum(|p|, BinomialTerms(h * t, a, j)) == Pow(a + t * h, j)
  {
    SumTail(|p|, j + 1, BinomialTerms(h * t, a, j));
    BinomialTheorem(h * t, a, j);
    assert h * t + a == a + t * h;
  }

  /** The whole array of entries, as the double sum sees it. */
  function ShiftProducts(p: seq<real>, a: real, h: real, t: real): (nat, nat) -> real
  {
    (i: nat, j: nat) => ShiftProduct(p, a, h, t, i, j)
  }

  /** Row i of the double sum: t^i times the i-th shifted coefficient. */
  lemma {:induction false} ShiftRow(p: seq<real>, a: real, h: real, t: real, i: nat)
    requires i < |p|
    ensures MonomialTerm(Shifted(p, a, h), t, i) == Row(|p|, ShiftProducts(p, a, h, t), i)
  {
    var F := ShiftProducts(p, a, h, t);
    SumScale(|p|, Pow(t, i), ShiftTerms(p, a, h, i), (j: nat) => F(i, j));
  }

  lemma {:induction false} ShiftColumnSum(p: seq<real>, a: real, h: real, t: real, j: nat)
    requires j < |p|
    ensures Col(|p|, ShiftProducts(p, a, h, t), j) == MonomialTerm(p, a + t * h, j)
  {
    var F := ShiftProducts(p, a, h, t);
    ShiftColumn(p, a, h, t, j);
    SumExt(|p|, (i: nat) => F(i, j), (i: nat) => ShiftProduct(p, a, h, t, i, j));
  }

  /** Shifted(p, a, h) is the polynomial t |-> p(a + t h). */
  lemma {:induction false} ShiftedCorrect(p: seq<real>, a: real, h: real, t: real)
    ensures PolyEval(Shifted(p, a, h), t) == PolyEval(p, a + t * h)
  {
    var q := Shifted(p, a, h);
    var n := |p|;
    var y := a + t * h;
    var F := ShiftProducts(p, a, h, t);
    HornerIsPowerSum(q, t);
    HornerIsPowerSum(p, y);
    forall i: nat | i < n
      ensures MonomialTerm(q, t, i) == Row(n, F, i)
    {
      ShiftRow(p, a, h, t, i);
    }
    SumExt(n, Monomials(q, t), (i: nat) => Row(n, F, i));
    SumSwap(n, n, F);
    forall j: nat | j < n
      ensures Col(n, F, j) == MonomialTerm(p, y, j)
    {
      ShiftColumnSum(p, a, h, t, j);
    }
    SumExt(n, (j: nat) => Col(n, F, j), Monomials(p, y));
  }
}
