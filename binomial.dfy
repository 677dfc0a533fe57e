/** Powers and binomial coefficients over the reals, with the identities the Bernstein basis relies on. */
module Binomial {
  import opened Sums

  /** x^k; in particular Pow(0.0, 0) == 1.0, as Python's 0 ** 0. */
  function Pow(x: real, k: nat): real
  {
    if k == 0 then 1.0 else x * Pow(x, k - 1)
  }

  /** The binomial coefficient C(n, k) by Pascal's rule; it is 0 when k > n, as math.comb. */
  function Binom(n: nat, k: nat): nat
  {
    if k == 0 then 1 else if n == 0 then 0 else Binom(n - 1, k - 1) + Binom(n - 1, k)
  }

  lemma {:induction false} PowAdd(x: real, i: nat, j: nat)
    ensures Pow(x, i + j) == Pow(x, i) * Pow(x, j)
  {
    if i > 0 {
      PowAdd(x, i - 1, j);
      assert Pow(x, i + j) == x * Pow(x, i - 1 + j);
    }
  }

  lemma {:induction false} PowMul(x: real, y: real, k: nat)
    ensures Pow(x * y, k) == Pow(x, k) * Pow(y, k)
  {
    if k > 0 {
      PowMul(x, y, k - 1);
      var px, py := Pow(x, k - 1), Pow(y, k - 1);
      assert Pow(x, k) == x * px;
      assert Pow(y, k) == y * py;
      assert Pow(x * y, k) == (x * y) * (px * py);
      Interleave(x, y, px, py);
    }
  }

  lemma {:induction false} Interleave(x: real, y: real, p: real, q: real)
    ensures (x * y) * (p * q) == (x * p) * (y * q)
  {
  }

  lemma {:induction false} PowNonNegative(x: real, k: nat)
    requires x >= 0.0
    ensures Pow(x, k) >= 0.0
  {
    if k > 0 {
      PowNonNegative(x, k - 1);
    }
  }

  lemma {:induction false} PowPositive(x: real, k: nat)
    requires x > 0.0
    ensures Pow(x, k) > 0.0
  {
    if k > 0 {
      PowPositive(x, k - 1);
    }
  }

  lemma {:induction false} PowNonZero(x: real, k: nat)
    requires x != 0.0
    ensures Pow(x, k) != 0.0
  {
    if k > 0 {
      PowNonZero(x, k - 1);
    }
  }

  /** (1 / h)^k is the inverse of h^k. */
  lemma {:induction false} PowInverse(h: real, k: nat)
    requires h != 0.0
    ensures Pow(1.0 / h, k) * Pow(h, k) == 1.0
  {
    if k > 0 {
      PowInverse(h, k - 1);
      InverseStep(h, Pow(1.0 / h, k - 1), Pow(h, k - 1));
    }
  }

  lemma {:induction false} InverseStep(h: real, u: real, v: real)
    requires h != 0.0 && u * v == 1.0
    ensures ((1.0 / h) * u) * (h * v) == 1.0
  {
    assert ((1.0 / h) * u) * (h * v) == ((1.0 / h) * h) * (u * v);
  }

  lemma {:induction false} PowZero(k: nat)
    requires k > 0
    ensures Pow(0.0, k) == 0.0
  {
  }

  lemma {:induction false} PowOne(k: nat)
    ensures Pow(1.0, k) == 1.0
  {
    if k > 0 {
      PowOne(k - 1);
    }
  }

  lemma {:induction false} BinomZeroAbove(n: nat, k: nat)
    requires k > n
    ensures Binom(n, k) == 0
  {
    if n > 0 {
      BinomZeroAbove(n - 1, k - 1);
      BinomZeroAbove(n - 1, k);
    }
  }

  lemma {:induction false} BinomPositive(n: nat, k: nat)
    requires k <= n
    ensures Binom(n, k) >= 1
  {
    if k > 0 {
      BinomPositive(n - 1, k - 1);
    }
  }

  lemma {:induction false} BinomDiagonal(n: nat)
    ensures Binom(n, n) == 1
  {
    if n > 0 {
      BinomDiagonal(n - 1);
      BinomZeroAbove(n - 1, n);
    }
  }

  lemma {:induction false} BinomOne(n: nat)
    ensures Binom(n, 1) == n
  {
    if n > 0 {
      BinomOne(n - 1);
    }
  }

  lemma {:induction false} AbsorbArith(j: int, m: int, x: int, y: int, z: int, w: int)
    requires x == z + w
    requires (j + 1) * y == m * w
    requires j * x == m * z
    ensures (j + 1) * (x + y) == (m + 1) * x
  {
  }

  /** Absorption over the integers: (j + 1) * C(m + 1, j + 1) == (m + 1) * C(m, j). */
  lemma {:induction false} AbsorbNat(m: nat, j: nat)
    ensures (j + 1) * Binom(m + 1, j + 1) == (m + 1) * Binom(m, j)
  {
    if j == 0 {
      BinomOne(m + 1);
    } else if m == 0 {
      BinomZeroAbove(1, j + 1);
      BinomZeroAbove(0, j);
    } else {
      AbsorbNat(m - 1, j);
      AbsorbNat(m - 1, j - 1);
      AbsorbArith(j, m, Binom(m, j), Binom(m, j + 1), Binom(m - 1, j - 1), Binom(m - 1, j));
    }
  }

  /** Absorption: k * C(n, k) == n * C(n - 1, k - 1), stated over the reals where it is used. */
  lemma {:induction false} BinomAbsorb(n: nat, k: nat)
    requires 1 <= k && 1 <= n
    ensures (k as real) * (Binom(n, k) as real) == (n as real) * (Binom(n - 1, k - 1) as real)
  {
    hide Binom;
    AbsorbNat(n - 1, k - 1);
    var b, c := Binom(n, k), Binom(n - 1, k - 1);
    assert k * b == n * c;
    assert (k as real) * (b as real) == ((k * b) as real);
    assert (n as real) * (c as real) == ((n * c) as real);
  }

  /** The companion identity: (n - k) * C(n, k) == n * C(n - 1, k). */
  lemma {:induction false} BinomAbsorbComplement(n: nat, k: nat)
    requires k < n
    ensures ((n - k) as real) * (Binom(n, k) as real) == (n as real) * (Binom(n - 1, k) as real)
  {
    hide Binom;
    if k == 0 {
      BinomBase(n);
      BinomBase(n - 1);
    } else {
      BinomStep(n, k);
      BinomAbsorb(n, k);
      ComplementArith(n as real, k as real, Binom(n - 1, k - 1) as real, Binom(n - 1, k) as real, Binom(n, k) as real);
    }
  }

  lemma {:induction false} ComplementArith(nr: real, kr: real, c: real, d: real, e: real)
    requires e == c + d && kr * e == nr * c
    ensures (nr - kr) * e == nr * d
  {
    calc {
      (nr - kr) * e;
      nr * e - kr * e;
      nr * (c + d) - nr * c;
      nr * d;
    }
  }

  lemma {:induction false} BinomBase(n: nat)
    ensures Binom(n, 0) == 1
  {
  }

  lemma {:induction false} PowBase(x: real)
    ensures Pow(x, 0) == 1.0
  {
  }

  lemma {:induction false} PowUnfold(x: real, k: nat)
    requires k >= 1
    ensures Pow(x, k) == x * Pow(x, k - 1)
  {
  }

  /** Pascal's rule: C(n, k) == C(n - 1, k - 1) + C(n - 1, k). */
  lemma {:induction false} BinomStep(n: nat, k: nat)
    requires 1 <= k && 1 <= n
    ensures Binom(n, k) == Binom(n - 1, k - 1) + Binom(n - 1, k)
  {
  }

  function Fact(n: nat): nat
  {
    if n == 0 then 1 else n * Fact(n - 1)
  }

  lemma {:induction false} FactPositive(n: nat)
    ensures Fact(n) >= 1
  {
    if n > 0 {
      FactPositive(n - 1);
      PositiveMul(n, Fact(n - 1));
    }
  }

  lemma {:induction false} PositiveMul(x: int, y: int)
    requires x >= 1 && y >= 1
    ensures x * y >= 1
  {
    assert x * y >= 1 * y;
  }

  /** The factorial form of the binomial coefficient: C(n, k) k! (n - k)! == n!. */
  lemma {:induction false} BinomFact(n: nat, k: nat)
    requires k <= n
    ensures Binom(n, k) * Fact(k) * Fact(n - k) == Fact(n)
  {
    if k == 0 {
    } else if k == n {
      BinomDiagonal(n);
    } else {
      BinomFact(n - 1, k - 1);
      BinomFact(n - 1, k);
      assert Binom(n, k) == Binom(n - 1, k - 1) + Binom(n - 1, k);
      assert Fact(k) == k * Fact(k - 1) && Fact(n - k) == (n - k) * Fact(n - k - 1) && Fact(n) == n * Fact(n - 1);
      hide Binom;
      hide Fact;
      FactArith(Binom(n - 1, k - 1), Binom(n - 1, k), k, n, Fact(k - 1), Fact(n - k - 1), Fact(n - 1));
    }
  }

  lemma {:induction false} FactArith(b1: int, b2: int, k: int, n: int, fk: int, fnk: int, f: int)
    requires b1 * fk * ((n - k) * fnk) == f
    requires b2 * (k * fk) * fnk == f
    ensures (b1 + b2) * (k * fk) * ((n - k) * fnk) == n * f
  {
    calc {
      (b1 + b2) * (k * fk) * ((n - k) * fnk);
      k * (b1 * fk * ((n - k) * fnk)) + (n - k) * (b2 * (k * fk) * fnk);
      k * f + (n - k) * f;
    }
  }

  /** Subset-of-a-subset: C(n, j) C(j, i) == C(n, i) C(n - i, j - i) for i <= j <= n. */
  lemma {:induction false} Trinomial(n: nat, j: nat, i: nat)
    requires i <= j <= n
    ensures Binom(n, j) * Binom(j, i) == Binom(n, i) * Binom(n - i, j - i)
  {
    BinomFact(n, j);
    BinomFact(j, i);
    BinomFact(n, i);
    BinomFact(n - i, j - i);
    FactPositive(i);
    FactPositive(j - i);
    FactPositive(n - j);
    hide Binom;
    hide Fact;
    TrinomialArith(Binom(n, j), Binom(j, i), Binom(n, i), Binom(n - i, j - i),
      Fact(i), Fact(j - i), Fact(n - j), Fact(j), Fact(n - i), Fact(n));
  }

  lemma {:induction false} TrinomialArith(bnj: int, bji: int, bni: int, bnij: int, fi: int, fji: int, fnj: int, fj: int, fni: int, fn: int)
    requires bnj * fj * fnj == fn && bji * fi * fji == fj
    requires bni * fi * fni == fn && bnij * fji * fnj == fni
    requires fi >= 1 && fji >= 1 && fnj >= 1
    ensures bnj * bji == bni * bnij
  {
    var p := fi * fji * fnj;
    assert (bnj * bji) * p == fn by {
      calc {
        (bnj * bji) * p;
        bnj * fnj * (bji * fi * fji);
        bnj * fnj * fj;
      }
    }
    assert (bni * bnij) * p == fn by {
      calc {
        (bni * bnij) * p;
        bni * fi * (bnij * fji * fnj);
        bni * fi * fni;
      }
    }
    PositiveMul(fi, fji);
    PositiveMul(fi * fji, fnj);
    Cancel(bnj * bji, bni * bnij, p);
  }

  lemma {:induction false} Cancel(x: int, y: int, p: int)
    requires p >= 1 && x * p == y * p
    ensures x == y
  {
    MulMonotone(x, y, p);
    MulMonotone(y, x, p);
  }

  lemma {:induction false} MulMonotone(x: int, y: int, p: int)
    requires p >= 1
    ensures x < y ==> x * p < y * p
  {
    if x < y {
      assert y * p == x * p + (y - x) * p;
    }
  }

  /** Term i of the binomial expansion of (u + v)^n; zero outside 0..n. */
  function BinomialTerm(u: real, v: real, n: nat, i: nat): real
  {
    if i <= n then (Binom(n, i) as real) * Pow(u, i) * Pow(v, n - i) else 0.0
  }

  /** The terms of the expansion of (u + v)^n, as the summand of a Sum. */
  function BinomialTerms(u: real, v: real, n: nat): nat -> real
  {
    (i: nat) => BinomialTerm(u, v, n, i)
  }

  /** The binomial expansion of (u + v)^n written as a sum. */
  function BinomialSum(u: real, v: real, n: nat): real
  {
    Sum(n + 1, BinomialTerms(u, v, n))
  }

  /** Pascal's rule on the terms of the expansion: term i of (u + v)^n is u times term i - 1 plus v times term i of (u + v)^(n - 1). */
  lemma {:induction false} BinomialTermStep(u: real, v: real, n: nat, i: nat)
    requires 1 <= n && i <= n
    ensures BinomialTerm(u, v, n, i)
         == (if i == 0 then 0.0 else u * BinomialTerm(u, v, n - 1, i - 1)) + v * BinomialTerm(u, v, n - 1, i)
  {
    hide Pow, Binom;
    if i == 0 {
      BinomBase(n);
      BinomBase(n - 1);
      PowBase(u);
      PowUnfold(v, n);
    } else {
      BinomStep(n, i);
      var a := Binom(n - 1, i - 1) as real;
      var b := Binom(n - 1, i) as real;
      assert (Binom(n, i) as real) == a + b;
      var pu := Pow(u, i - 1);
      PowUnfold(u, i);
      if i == n {
        BinomZeroAbove(n - 1, n);
        assert b == 0.0;
        PowBase(v);
        assert BinomialTerm(u, v, n - 1, i) == 0.0;
        assert BinomialTerm(u, v, n - 1, i - 1) == a * pu;
        assert BinomialTerm(u, v, n, i) == a * (u * pu);
      } else {
        var pv := Pow(v, n - 1 - i);
        PowUnfold(v, n - i);
        assert Pow(v, n - i) == v * pv;
        assert BinomialTerm(u, v, n - 1, i - 1) == a * pu * (v * pv);
        assert BinomialTerm(u, v, n - 1, i) == b * (u * pu) * pv;
        calc {
          BinomialTerm(u, v, n, i);
          (a + b) * (u * pu) * (v * pv);
          u * (a * pu * (v * pv)) + v * (b * (u * pu) * pv);
        }
      }
    }
  }

  /** u times term i - 1 of (u + v)^(n - 1), and 0 at i == 0. */
  function ShiftedTerm(u: real, v: real, n: nat, i: nat): real
  {
    if i == 0 || n == 0 then 0.0 else u * BinomialTerm(u, v, n - 1, i - 1)
  }

  function ShiftedTerms(u: real, v: real, n: nat): nat -> real
  {
    (i: nat) => ShiftedTerm(u, v, n, i)
  }

  lemma {:induction false} ShiftedSum(u: real, v: real, n: nat)
    requires 1 <= n
    ensures Sum(n + 1, ShiftedTerms(u, v, n)) == u * BinomialSum(u, v, n - 1)
  {
    SumShift(n, ShiftedTerms(u, v, n), Scaled(u, BinomialTerms(u, v, n - 1)));
    SumScaled(n, u, BinomialTerms(u, v, n - 1));
    assert BinomialSum(u, v, n - 1) == Sum(n, BinomialTerms(u, v, n - 1));
  }

  lemma {:induction false} ScaledSum(u: real, v: real, n: nat)
    requires 1 <= n
    ensures Sum(n + 1, Scaled(v, BinomialTerms(u, v, n - 1))) == v * BinomialSum(u, v, n - 1)
  {
    var prev := BinomialTerms(u, v, n - 1);
    SumScaled(n + 1, v, prev);
    assert prev(n) == 0.0;
    assert Sum(n + 1, prev) == Sum(n, prev) + prev(n);
    assert BinomialSum(u, v, n - 1) == Sum(n, prev);
  }

  lemma {:induction false} SplitSum(u: real, v: real, n: nat)
    requires 1 <= n
    ensures BinomialSum(u, v, n) == Sum(n + 1, ShiftedTerms(u, v, n)) + Sum(n + 1, Scaled(v, BinomialTerms(u, v, n - 1)))
  {
    forall i: nat | i < n + 1
      ensures BinomialTerms(u, v, n)(i) == ShiftedTerms(u, v, n)(i) + Scaled(v, BinomialTerms(u, v, n - 1))(i)
    {
      BinomialTermStep(u, v, n, i);
    }
    SumAdd(n + 1, ShiftedTerms(u, v, n), Scaled(v, BinomialTerms(u, v, n - 1)), BinomialTerms(u, v, n));
  }

  /** One step of the binomial theorem: the expansion of degree n is (u + v) times that of degree n - 1. */
  lemma {:induction false} BinomialSumStep(u: real, v: real, n: nat)
    requires 1 <= n
    ensures BinomialSum(u, v, n) == (u + v) * BinomialSum(u, v, n - 1)
  {
    SplitSum(u, v, n);
    ShiftedSum(u, v, n);
    ScaledSum(u, v, n);
    Factor(u, v, BinomialSum(u, v, n - 1));
  }

  lemma {:induction false} Factor(u: real, v: real, p: real)
    ensures u * p + v * p == (u + v) * p
  {
  }

  /** The binomial theorem: the expansion adds up to (u + v)^n. */
  lemma {:induction false} BinomialTheorem(u: real, v: real, n: nat)
    ensures BinomialSum(u, v, n) == Pow(u + v, n)
  {
    if n > 0 {
      BinomialTheorem(u, v, n - 1);
      BinomialSumStep(u, v, n);
    } else {
      var f := BinomialTerms(u, v, 0);
      assert Sum(1, f) == Sum(0, f) + f(0);
      assert f(0) == BinomialTerm(u, v, 0, 0);
    }
  }
}
