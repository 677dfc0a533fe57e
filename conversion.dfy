/** Changing a polynomial on [0, 1] between the power basis and the Bernstein basis, in both directions. */
module Conversion {
  import opened Sums
  import opened Binomial
  import opened Poly
  import opened BernsteinBasis

  // ---------------------------------------------------------------------------
  // Bernstein basis to power basis

  /** The coefficient of t^j in B^n_i(t): (-1)^(j - i) C(n, j) C(j, i) for i <= j <= n, else 0. */
  function PowerEntry(n: nat, i: nat, j: nat): real
  {
    if i <= j <= n then Pow(-1.0, j - i) * (Binom(n, j) as real) * (Binom(j, i) as real) else 0.0
  }

  function PowerEntryTerms(n: nat, i: nat, t: real): nat -> real
  {
    (j: nat) => PowerEntry(n, i, j) * Pow(t, j)
  }

  /** B^n_i(t) written out in powers of t. */
  lemma {:induction false} BasisAsPower(n: nat, i: nat, t: real)
    requires i <= n
    ensures Sum(n + 1, PowerEntryTerms(n, i, t)) == Basis(n, i, t)
  {
    hide Pow;
    hide Binom;
    var m := n - i;
    var k := (Binom(n, i) as real) * Pow(t, i);
    var f := PowerEntryTerms(n, i, t);
    var g := Scaled(k, BinomialTerms(-t, 1.0, m));
    forall j: nat | j < i
      ensures f(j) == 0.0
    {
    }
    forall q: nat | q < m + 1
      ensures g(q) == f(i + q)
    {
      PowerEntryShift(n, i, q, t);
    }
    SumSkip(i, m + 1, f, g);
    assert Sum(n + 1, f) == Sum(m + 1, g);
    SumScaled(m + 1, k, BinomialTerms(-t, 1.0, m));
    BinomialTheorem(-t, 1.0, m);
    assert -t + 1.0 == 1.0 - t;
    BasisUnfold(n, i, t);
  }

  lemma {:induction false} PowerEntryShift(n: nat, i: nat, q: nat, t: real)
    requires i + q <= n
    ensures (Binom(n, i) as real) * Pow(t, i) * BinomialTerm(-t, 1.0, n - i, q) == PowerEntry(n, i, i + q) * Pow(t, i + q)
  {
    hide Pow;
    hide Binom;
    Trinomial(n, i + q, i);
    assert (Binom(n, i + q) as real) * (Binom(i + q, i) as real) == (Binom(n, i) as real) * (Binom(n - i, q) as real);
    assert -t == -1.0 * t;
    PowMul(-1.0, t, q);
    PowOne(n - i - q);
    PowAdd(t, i, q);
    EntryArith(Binom(n, i + q) as real, Binom(i + q, i) as real, Binom(n, i) as real, Binom(n - i, q) as real,
      Pow(-1.0, q), Pow(t, i), Pow(t, q), Pow(-t, q), Pow(1.0, n - i - q), Pow(t, i + q));
  }

  lemma {:induction false} EntryArith(b1: real, b2: real, b3: real, b4: real, s: real, ti: real, tq: real, pm: real, one: real, tiq: real)
    requires b1 * b2 == b3 * b4
    requires pm == s * tq && one == 1.0 && tiq == ti * tq
    ensures b3 * ti * (b4 * pm * one) == s * b1 * b2 * tiq
  {
    calc {
      b3 * ti * (b4 * pm * one);
      s * (b3 * b4) * (ti * tq);
      s * (b1 * b2) * (ti * tq);
    }
  }

  /** The part of the power coefficient j that comes from the Bernstein coefficient c_i. */
  function StageTerm(c: seq<real>, j: nat, i: nat): real
  {
    if i < |c| then PowerEntry(|c| - 1, i, j) * c[i] else 0.0
  }

  function StageTerms(c: seq<real>, j: nat): nat -> real
  {
    (i: nat) => StageTerm(c, j, i)
  }

  /** The power-basis coefficients of the polynomial whose Bernstein coefficients on [0, 1] are c. */
  function PowerForm(c: seq<real>): (m: seq<real>)
    ensures |m| == |c|
  {
    seq(|c|, j requires 0 <= j < |c| => Sum(|c|, StageTerms(c, j)))
  }

  function StageProducts(c: seq<real>, t: real): (nat, nat) -> real
  {
    (j: nat, i: nat) => StageTerm(c, j, i) * Pow(t, j)
  }

  lemma {:induction false} StageRow(c: seq<real>, t: real, j: nat)
    requires j < |c|
    ensures MonomialTerm(PowerForm(c), t, j) == Row(|c|, StageProducts(c, t), j)
  {
    hide Sum, Basis, Pow, Binom, PowerEntry;
    var F := StageProducts(c, t);
    forall i: nat | i < |c|
      ensures F(j, i) == Pow(t, j) * StageTerms(c, j)(i)
    {
    }
    SumScale(|c|, Pow(t, j), StageTerms(c, j), (i: nat) => F(j, i));
    assert MonomialTerm(PowerForm(c), t, j) == PowerForm(c)[j] * Pow(t, j);
  }

  lemma {:induction false} StageColumn(c: seq<real>, t: real, i: nat)
    requires i < |c|
    ensures Col(|c|, StageProducts(c, t), i) == BTerm(c, t, i)
  {
    hide Sum, Basis, Pow, Binom, PowerEntry;
    var n := |c| - 1;
    var F := StageProducts(c, t);
    forall j: nat | j < |c|
      ensures F(j, i) == c[i] * PowerEntryTerms(n, i, t)(j)
    {
      assert F(j, i) == (PowerEntry(n, i, j) * c[i]) * Pow(t, j);
    }
    SumScale(|c|, c[i], PowerEntryTerms(n, i, t), (j: nat) => F(j, i));
    BasisAsPower(n, i, t);
    assert BTerm(c, t, i) == c[i] * Basis(n, i, t);
  }

  /** PowerForm(c) is the same polynomial as the Bernstein sum of c. */
  lemma {:induction false} PowerFormCorrect(c: seq<real>, t: real)
    ensures PolyEval(PowerForm(c), t) == BSum(c, t)
  {
    var m := PowerForm(c);
    var n := |c|;
    var F := StageProducts(c, t);
    HornerIsPowerSum(m, t);
    forall j: nat | j < n
      ensures MonomialTerm(m, t, j) == Row(n, F, j)
    {
      StageRow(c, t, j);
    }
    SumExt(n, Monomials(m, t), (j: nat) => Row(n, F, j));
    SumSwap(n, n, F);
    forall i: nat | i < n
      ensures Col(n, F, i) == BTerm(c, t, i)
    {
      StageColumn(c, t, i);
    }
    SumExt(n, (i: nat) => Col(n, F, i), BTerms(c, t));
  }

  // ---------------------------------------------------------------------------
  // Power basis to Bernstein basis

  /** The weight of q_j in the Bernstein coefficient i of degree n: C(i, j) / C(n, j) for j <= i <= n, else 0. */
  function BernsteinEntry(n: nat, i: nat, j: nat): real
  {
    if j <= i <= n then BinomPositive(n, j); (Binom(i, j) as real) / (Binom(n, j) as real) else 0.0
  }

  function BernsteinEntryTerms(n: nat, j: nat, t: real): nat -> real
  {
    (i: nat) => BernsteinEntry(n, i, j) * Basis(n, i, t)
  }

  /** t^j written in the Bernstein basis of degree n >= j. */
  lemma {:induction false} PowerAsBasis(n: nat, j: nat, t: real)
    requires j <= n
    ensures Sum(n + 1, BernsteinEntryTerms(n, j, t)) == Pow(t, j)
  {
    hide Pow;
    hide Binom;
    hide Basis;
    var m := n - j;
    var f := BernsteinEntryTerms(n, j, t);
    var g := Scaled(Pow(t, j), BinomialTerms(t, 1.0 - t, m));
    forall i: nat | i < j
      ensures f(i) == 0.0
    {
    }
    forall q: nat | q < m + 1
      ensures g(q) == f(j + q)
    {
      BernsteinEntryShift(n, j, q, t);
    }
    SumSkip(j, m + 1, f, g);
    assert Sum(n + 1, f) == Sum(m + 1, g);
    SumScaled(m + 1, Pow(t, j), BinomialTerms(t, 1.0 - t, m));
    BinomialTheorem(t, 1.0 - t, m);
    assert t + (1.0 - t) == 1.0;
    PowOne(m);
  }

  lemma {:induction false} BernsteinEntryShift(n: nat, j: nat, q: nat, t: real)
    requires j + q <= n
    ensures Pow(t, j) * BinomialTerm(t, 1.0 - t, n - j, q) == BernsteinEntry(n, j + q, j) * Basis(n, j + q, t)
  {
    hide Pow;
    hide Binom;
    Trinomial(n, j + q, j);
    assert (Binom(n, j + q) as real) * (Binom(j + q, j) as real) == (Binom(n, j) as real) * (Binom(n - j, q) as real);
    BinomPositive(n, j);
    BasisUnfold(n, j + q, t);
    PowAdd(t, j, q);
    assert n - (j + q) == n - j - q;
    RatioArith(Binom(n, j + q) as real, Binom(j + q, j) as real, Binom(n, j) as real, Binom(n - j, q) as real,
      Pow(t, j), Pow(t, q), Pow(t, j + q), Pow(1.0 - t, n - j - q));
  }

  lemma {:induction false} RatioArith(bnk: real, bkj: real, bnj: real, bmq: real, tj: real, tq: real, tk: real, s: real)
    requires bnj > 0.0 && bnk * bkj == bnj * bmq && tk == tj * tq
    ensures tj * (bmq * tq * s) == (bkj / bnj) * (bnk * tk * s)
  {
    assert (bkj / bnj) * bnk == bmq;
  }

  /** The part of the Bernstein coefficient i that comes from the power coefficient q_j. */
  function ConversionTerm(q: seq<real>, i: nat, j: nat): real
  {
    if j < |q| then BernsteinEntry(|q| - 1, i, j) * q[j] else 0.0
  }

  function ConversionTerms(q: seq<real>, i: nat): nat -> real
  {
    (j: nat) => ConversionTerm(q, i, j)
  }

  /** The Bernstein coefficients on [0, 1], of degree |q| - 1, of the polynomial with power coefficients q. */
  function BernsteinForm(q: seq<real>): (c: seq<real>)
    ensures |c| == |q|
  {
    seq(|q|, i requires 0 <= i < |q| => Sum(|q|, ConversionTerms(q, i)))
  }

  function ConversionProducts(q: seq<real>, n: nat, t: real): (nat, nat) -> real
  {
    (i: nat, j: nat) => ConversionTerm(q, i, j) * Basis(n, i, t)
  }

  lemma {:induction false} ConversionRow(q: seq<real>, t: real, i: nat)
    requires i < |q|
    ensures BTerm(BernsteinForm(q), t, i) == Row(|q|, ConversionProducts(q, |q| - 1, t), i)
  {
    hide Sum, Basis, ConversionTerm;
    var F := ConversionProducts(q, |q| - 1, t);
    SumScale(|q|, Basis(|q| - 1, i, t), ConversionTerms(q, i), (j: nat) => F(i, j));
  }

  lemma {:induction false} ConversionColumn(q: seq<real>, t: real, j: nat)
    requires j < |q|
    ensures Col(|q|, ConversionProducts(q, |q| - 1, t), j) == MonomialTerm(q, t, j)
  {
    hide Sum, Basis, Pow, Binom, BernsteinEntry;
    var n := |q| - 1;
    var F := ConversionProducts(q, n, t);
    forall i: nat | i < |q|
      ensures F(i, j) == q[j] * BernsteinEntryTerms(n, j, t)(i)
    {
      assert F(i, j) == (BernsteinEntry(n, i, j) * q[j]) * Basis(n, i, t);
    }
    SumScale(|q|, q[j], BernsteinEntryTerms(n, j, t), (i: nat) => F(i, j));
    PowerAsBasis(n, j, t);
    assert MonomialTerm(q, t, j) == q[j] * Pow(t, j);
  }

  /** BernsteinForm(q) is the same polynomial as q. */
  lemma {:induction false} BernsteinFormCorrect(q: seq<real>, t: real)
    ensures BSum(BernsteinForm(q), t) == PolyEval(q, t)
  {
    var c := BernsteinForm(q);
    var n := |q|;
    HornerIsPowerSum(q, t);
    if n > 0 {
      var F := ConversionProducts(q, n - 1, t);
      forall i: nat | i < n
        ensures BTerm(c, t, i) == Row(n, F, i)
      {
        ConversionRow(q, t, i);
      }
      SumExt(n, BTerms(c, t), (i: nat) => Row(n, F, i));
      SumSwap(n, n, F);
      forall j: nat | j < n
        ensures Col(n, F, j) == MonomialTerm(q, t, j)
      {
        ConversionColumn(q, t, j);
      }
      SumExt(n, (j: nat) => Col(n, F, j), Monomials(q, t));
    }
  }
}
