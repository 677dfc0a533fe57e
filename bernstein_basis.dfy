/** The Bernstein basis on [0, 1], Bernstein sums, and de Casteljau's recurrence. */
module BernsteinBasis {
  import opened Sums
  import opened Binomial

  /** B^n_i(t) = C(n, i) t^i (1 - t)^(n - i), and 0 for i > n; the family i |-> B^n_i(t) is BinomialTerms(t, 1 - t, n). */
  function Basis(n: nat, i: nat, t: real): real
  {
    BinomialTerm(t, 1.0 - t, n, i)
  }

  /** The term c_i B^n_i(t) of a Bernstein sum of degree n = |c| - 1. */
  function BTerm(c: seq<real>, t: real, i: nat): real
  {
    if i < |c| then c[i] * Basis(|c| - 1, i, t) else 0.0
  }

  function BTerms(c: seq<real>, t: real): nat -> real
  {
    (i: nat) => BTerm(c, t, i)
  }

  function BasisTerms(n: nat, t: real): nat -> real
  {
    (i: nat) => Basis(n, i, t)
  }

  /** The value at t of the polynomial whose Bernstein coefficients on [0, 1] are c. */
  function BSum(c: seq<real>, t: real): real
  {
    Sum(|c|, BTerms(c, t))
  }

  lemma {:induction false} BSumPrefixEmpty(c: seq<real>, t: real)
    ensures Sum(0, BTerms(c, t)) == 0.0
  {
  }

  /** Adding term j to the first j terms of a Bernstein sum, with the basis written out as C(n, j) t^j (1 - t)^(n - j). */
  lemma {:induction false} BSumPrefixStep(c: seq<real>, t: real, j: nat)
    requires j < |c|
    ensures Sum(j + 1, BTerms(c, t)) == Sum(j, BTerms(c, t)) + c[j] * ((Binom(|c| - 1, j) as real) * Pow(t, j) * Pow(1.0 - t, |c| - 1 - j))
  {
    hide Basis, Binom, Pow;
    assert BTerms(c, t)(j) == c[j] * Basis(|c| - 1, j, t);
    BasisUnfold(|c| - 1, j, t);
  }

  // ---------------------------------------------------------------------------
  // The basis

  /** The basis functions of one degree add up to 1. */
  lemma {:induction false} PartitionOfUnity(n: nat, t: real)
    ensures Sum(n + 1, BasisTerms(n, t)) == 1.0
  {
    BinomialTheorem(t, 1.0 - t, n);
    PowOne(n);
    assert t + (1.0 - t) == 1.0;
    SumExt(n + 1, BasisTerms(n, t), BinomialTerms(t, 1.0 - t, n));
  }

  lemma {:induction false} BasisDegreeZero(t: real)
    ensures Basis(0, 0, t) == 1.0
  {
  }

  lemma {:induction false} BasisAbove(n: nat, i: nat, t: real)
    requires i > n
    ensures Basis(n, i, t) == 0.0
  {
  }

  lemma {:induction false} BasisNonNegative(n: nat, i: nat, t: real)
    requires 0.0 <= t <= 1.0
    ensures Basis(n, i, t) >= 0.0
  {
    if i <= n {
      PowNonNegative(t, i);
      PowNonNegative(1.0 - t, n - i);
      NonNegativeProduct(Binom(n, i) as real, Pow(t, i), Pow(1.0 - t, n - i));
    }
  }

  lemma {:induction false} BasisPositive(n: nat, i: nat, t: real)
    requires 0.0 < t < 1.0 && i <= n
    ensures Basis(n, i, t) > 0.0
  {
    BinomPositive(n, i);
    PowPositive(t, i);
    PowPositive(1.0 - t, n - i);
    PositiveProduct(Binom(n, i) as real, Pow(t, i), Pow(1.0 - t, n - i));
  }

  lemma {:induction false} NonNegativeProduct(a: real, b: real, c: real)
    requires a >= 0.0 && b >= 0.0 && c >= 0.0
    ensures a * b * c >= 0.0
  {
  }

  lemma {:induction false} PositiveProduct(a: real, b: real, c: real)
    requires a > 0.0 && b > 0.0 && c > 0.0
    ensures a * b * c > 0.0
  {
  }

  /** At t = 0 only B^n_0 survives; at t = 1 only B^n_n. */
  lemma {:induction false} BasisAtZero(n: nat, i: nat)
    ensures Basis(n, i, 0.0) == if i == 0 then 1.0 else 0.0
  {
    PowOne(n);
    if 0 < i <= n {
      PowZero(i);
    }
  }

  lemma {:induction false} BasisAtOne(n: nat, i: nat)
    ensures Basis(n, i, 1.0) == if i == n then 1.0 else 0.0
  {
    PowOne(i);
    if i < n {
      PowZero(n - i);
    } else if i == n {
      BinomDiagonal(n);
    }
  }

  /** The closed form of B^n_i for i <= n. */
  lemma {:induction false} BasisUnfold(n: nat, i: nat, t: real)
    requires i <= n
    ensures Basis(n, i, t) == (Binom(n, i) as real) * Pow(t, i) * Pow(1.0 - t, n - i)
  {
  }

  lemma {:induction false} PowStep(x: real, k: nat)
    requires k >= 1
    ensures Pow(x, k) == x * Pow(x, k - 1)
  {
  }

  /** Pascal's rule for the basis: B^n_i = t B^(n-1)_(i-1) + (1 - t) B^(n-1)_i. */
  lemma {:induction false} BasisStep(n: nat, i: nat, t: real)
    requires 1 <= n && i <= n
    ensures Basis(n, i, t) == (if i == 0 then 0.0 else t * Basis(n - 1, i - 1, t)) + (1.0 - t) * Basis(n - 1, i, t)
  {
    hide BinomialTerm;
    BinomialTermStep(t, 1.0 - t, n, i);
  }

  // ---------------------------------------------------------------------------
  // Bernstein sums

  lemma {:induction false} BSumSingle(v: real, t: real)
    ensures BSum([v], t) == v
  {
    hide Basis;
    var f := BTerms([v], t);
    assert Sum(1, f) == Sum(0, f) + f(0);
    BasisDegreeZero(t);
  }

  /** A Bernstein sum is linear in its coefficients. */
  lemma {:induction false} BSumCombination(a: seq<real>, b: seq<real>, d: seq<real>, alpha: real, beta: real, t: real)
    requires |a| == |b| == |d|
    requires forall i :: 0 <= i < |d| ==> d[i] == alpha * a[i] + beta * b[i]
    ensures BSum(d, t) == alpha * BSum(a, t) + beta * BSum(b, t)
  {
    hide Basis;
    CombinationTerms(a, b, d, alpha, beta, t);
    SumAdd(|d|, Scaled(alpha, BTerms(a, t)), Scaled(beta, BTerms(b, t)), BTerms(d, t));
    SumScaled(|d|, alpha, BTerms(a, t));
    SumScaled(|d|, beta, BTerms(b, t));
  }

  lemma {:induction false} CombinationTerms(a: seq<real>, b: seq<real>, d: seq<real>, alpha: real, beta: real, t: real)
    requires |a| == |b| == |d|
    requires forall i :: 0 <= i < |d| ==> d[i] == alpha * a[i] + beta * b[i]
    ensures forall i: nat :: i < |d| ==> BTerms(d, t)(i) == Scaled(alpha, BTerms(a, t))(i) + Scaled(beta, BTerms(b, t))(i)
  {
    hide Basis;
    forall i: nat | i < |d|
      ensures BTerms(d, t)(i) == Scaled(alpha, BTerms(a, t))(i) + Scaled(beta, BTerms(b, t))(i)
    {
      var B := Basis(|d| - 1, i, t);
      CombineTerms(BTerm(d, t, i), BTerm(a, t, i), BTerm(b, t, i), a[i], b[i], alpha, beta, B);
    }
  }

  lemma {:induction false} CombineTerms(dt: real, at: real, bt: real, x: real, y: real, alpha: real, beta: real, B: real)
    requires dt == (alpha * x + beta * y) * B && at == x * B && bt == y * B
    ensures dt == alpha * at + beta * bt
  {
  }

  /** Coefficients all equal to v give the constant v. */
  lemma {:induction false} BSumConstant(c: seq<real>, v: real, t: real)
    requires |c| >= 1
    requires forall i :: 0 <= i < |c| ==> c[i] == v
    ensures BSum(c, t) == v
  {
    hide Basis;
    var n := |c| - 1;
    PartitionOfUnity(n, t);
    SumScale(n + 1, v, BasisTerms(n, t), BTerms(c, t));
  }

  /** The value at t = 0 is the first coefficient. */
  lemma {:induction false} BSumAtZero(c: seq<real>)
    requires |c| >= 1
    ensures BSum(c, 0.0) == c[0]
  {
    hide Basis;
    var f := BTerms(c, 0.0);
    forall i: nat | 1 <= i < |c|
      ensures f(i) == 0.0
    {
      BasisAtZero(|c| - 1, i);
      assert Basis(|c| - 1, i, 0.0) == 0.0;
      Times(c[i], Basis(|c| - 1, i, 0.0), 0.0);
      assert BTerm(c, 0.0, i) == c[i] * Basis(|c| - 1, i, 0.0);
      assert f(i) == BTerm(c, 0.0, i);
    }
    SumTail(|c|, 1, f);
    BasisAtZero(|c| - 1, 0);
    assert Sum(1, f) == Sum(0, f) + f(0);
  }

  /** The value at t = 1 is the last coefficient. */
  lemma {:induction false} BSumAtOne(c: seq<real>)
    requires |c| >= 1
    ensures BSum(c, 1.0) == c[|c| - 1]
  {
    hide Basis;
    var n := |c| - 1;
    var f := BTerms(c, 1.0);
    forall i: nat | i < n
      ensures f(i) == 0.0
    {
      BasisAtOne(n, i);
      Times(c[i], Basis(n, i, 1.0), 0.0);
    }
    SumZero(n, f);
    BasisAtOne(n, n);
  }

  lemma {:induction false} Times(x: real, b: real, v: real)
    requires b == v
    ensures x * b == x * v
  {
  }

  /**
   * The de Casteljau decomposition: a Bernstein sum of degree n is (1 - t) times the sum of its first n
   * coefficients plus t times the sum of its last n, both of degree n - 1.
   */
  lemma {:induction false} BSumSplit(c: seq<real>, t: real)
    requires |c| >= 2
    ensures BSum(c, t) == (1.0 - t) * BSum(c[..|c| - 1], t) + t * BSum(c[1..], t)
  {
    hide Basis;
    var n := |c| - 1;
    forall i: nat | i < n + 1
      ensures BTerms(c, t)(i) == UpTerms(c, t)(i) + Scaled(1.0 - t, BTerms(c[..n], t))(i)
    {
      SplitPoint(c, t, i);
    }
    SumAdd(n + 1, UpTerms(c, t), Scaled(1.0 - t, BTerms(c[..n], t)), BTerms(c, t));
    UpSum(c, t);
    SameSum(c, t);
  }

  /** The part of c_i B^n_i that comes from t B^(n-1)_(i-1). */
  function UpTerm(c: seq<real>, t: real, i: nat): real
  {
    if i == 0 || |c| == 0 then 0.0 else t * BTerm(c[1..], t, i - 1)
  }

  function UpTerms(c: seq<real>, t: real): nat -> real
  {
    (i: nat) => UpTerm(c, t, i)
  }

  lemma {:induction false} SplitPoint(c: seq<real>, t: real, i: nat)
    requires |c| >= 2 && i < |c|
    ensures BTerm(c, t, i) == UpTerm(c, t, i) + (1.0 - t) * BTerm(c[..|c| - 1], t, i)
  {
    hide Basis;
    var n := |c| - 1;
    BasisStep(n, i, t);
    var same := Basis(n - 1, i, t);
    if i == n {
      BasisAbove(n - 1, n, t);
    }
    assert BTerm(c[..n], t, i) == c[i] * same;
    if i == 0 {
      SplitFirst(BTerm(c, t, i), BTerm(c[..n], t, i), c[i], t, same);
    } else {
      var up := Basis(n - 1, i - 1, t);
      assert BTerm(c[1..], t, i - 1) == c[i] * up;
      SplitOther(BTerm(c, t, i), UpTerm(c, t, i), BTerm(c[..n], t, i), c[i], t, up, same);
    }
  }

  lemma {:induction false} SplitFirst(bt: real, st: real, ci: real, t: real, same: real)
    requires bt == ci * (0.0 + (1.0 - t) * same) && st == ci * same
    ensures bt == 0.0 + (1.0 - t) * st
  {
  }

  lemma {:induction false} SplitOther(bt: real, ut: real, st: real, ci: real, t: real, up: real, same: real)
    requires bt == ci * (t * up + (1.0 - t) * same) && ut == t * (ci * up) && st == ci * same
    ensures bt == ut + (1.0 - t) * st
  {
  }

  lemma {:induction false} UpSum(c: seq<real>, t: real)
    requires |c| >= 2
    ensures Sum(|c|, UpTerms(c, t)) == t * BSum(c[1..], t)
  {
    hide Basis;
    SumDropFirst(|c|, UpTerms(c, t), Scaled(t, BTerms(c[1..], t)));
    SumScaled(|c[1..]|, t, BTerms(c[1..], t));
  }

  lemma {:induction false} SameSum(c: seq<real>, t: real)
    requires |c| >= 2
    ensures Sum(|c|, Scaled(1.0 - t, BTerms(c[..|c| - 1], t))) == (1.0 - t) * BSum(c[..|c| - 1], t)
  {
    hide Basis;
    var n := |c| - 1;
    var f := BTerms(c[..n], t);
    SumScaled(n + 1, 1.0 - t, f);
    assert Sum(n + 1, f) == Sum(n, f) + f(n);
  }

  // ---------------------------------------------------------------------------
  // de Casteljau's recurrence

  /** One level of de Casteljau's triangle: entry i becomes (1 - t) c_i + t c_(i+1). */
  function Step(c: seq<real>, t: real): (r: seq<real>)
    requires |c| >= 1
    ensures |r| == |c| - 1
  {
    seq(|c| - 1, i requires 0 <= i < |c| - 1 => (1.0 - t) * c[i] + t * c[i + 1])
  }

  /** Level j of de Casteljau's triangle. */
  function Iter(c: seq<real>, t: real, j: nat): (r: seq<real>)
    requires j < |c|
    ensures |r| == |c| - j
  {
    if j == 0 then c else Step(Iter(c, t, j - 1), t)
  }

  /** A de Casteljau step does not change the Bernstein sum at the same parameter. */
  lemma {:induction false} StepPreservesBSum(c: seq<real>, t: real)
    requires |c| >= 2
    ensures BSum(Step(c, t), t) == BSum(c, t)
  {
    StepCombination(c, t, t);
    hide BSum;
    BSumSplit(c, t);
  }

  /** At any parameter s, the Bernstein sum of a step is the same combination of the sums of the two ends of c. */
  lemma {:induction false} StepCombination(c: seq<real>, t: real, s: real)
    requires |c| >= 2
    ensures BSum(Step(c, t), s) == (1.0 - t) * BSum(c[..|c| - 1], s) + t * BSum(c[1..], s)
  {
    StepEntries(c, t);
    hide BSum;
    hide Step;
    BSumCombination(c[..|c| - 1], c[1..], Step(c, t), 1.0 - t, t, s);
  }

  lemma {:induction false} StepEntries(c: seq<real>, t: real)
    requires |c| >= 2
    ensures forall i :: 0 <= i < |c| - 1 ==> Step(c, t)[i] == (1.0 - t) * c[..|c| - 1][i] + t * c[1..][i]
  {
  }

  lemma {:induction false} IterPreservesBSum(c: seq<real>, t: real, j: nat)
    requires j < |c|
    ensures BSum(Iter(c, t, j), t) == BSum(c, t)
  {
    hide Basis;
    if j > 0 {
      IterPreservesBSum(c, t, j - 1);
      StepPreservesBSum(Iter(c, t, j - 1), t);
    }
  }

  /** The apex of de Casteljau's triangle is the value of the Bernstein sum. */
  lemma {:induction false} ApexIsBSum(c: seq<real>, t: real)
    requires |c| >= 1
    ensures Iter(c, t, |c| - 1)[0] == BSum(c, t)
  {
    hide Basis;
    var apex := Iter(c, t, |c| - 1);
    IterPreservesBSum(c, t, |c| - 1);
    assert apex == [apex[0]];
    BSumSingle(apex[0], t);
  }

  /** For t in [0, 1] each step is a convex combination, so it stays within any bounds of its input. */
  lemma {:induction false} StepWithin(c: seq<real>, t: real, lo: real, hi: real)
    requires |c| >= 1 && 0.0 <= t <= 1.0
    requires forall i :: 0 <= i < |c| ==> lo <= c[i] <= hi
    ensures forall i :: 0 <= i < |c| - 1 ==> lo <= Step(c, t)[i] <= hi
  {
    hide Basis;
    forall i | 0 <= i < |c| - 1
      ensures lo <= Step(c, t)[i] <= hi
    {
      ConvexWithin(c[i], c[i + 1], t, lo, hi);
    }
  }

  lemma {:induction false} ConvexWithin(x: real, y: real, t: real, lo: real, hi: real)
    requires 0.0 <= t <= 1.0 && lo <= x <= hi && lo <= y <= hi
    ensures lo <= (1.0 - t) * x + t * y <= hi
  {
    MulNonNegative(1.0 - t, x - lo);
    MulNonNegative(t, y - lo);
    MulNonNegative(1.0 - t, hi - x);
    MulNonNegative(t, hi - y);
  }

  lemma {:induction false} MulNonNegative(a: real, b: real)
    requires a >= 0.0 && b >= 0.0
    ensures a * b >= 0.0
  {
  }

  lemma {:induction false} IterWithin(c: seq<real>, t: real, j: nat, lo: real, hi: real)
    requires j < |c| && 0.0 <= t <= 1.0
    requires forall i :: 0 <= i < |c| ==> lo <= c[i] <= hi
    ensures forall i :: 0 <= i < |c| - j ==> lo <= Iter(c, t, j)[i] <= hi
  {
    hide Basis;
    if j > 0 {
      IterWithin(c, t, j - 1, lo, hi);
      StepWithin(Iter(c, t, j - 1), t, lo, hi);
    }
  }

  /** Convex hull: on [0, 1] a Bernstein sum lies between any lower and upper bound of its coefficients. */
  lemma {:induction false} BSumWithin(c: seq<real>, t: real, lo: real, hi: real)
    requires |c| >= 1 && 0.0 <= t <= 1.0
    requires forall i :: 0 <= i < |c| ==> lo <= c[i] <= hi
    ensures lo <= BSum(c, t) <= hi
  {
    hide Basis;
    IterWithin(c, t, |c| - 1, lo, hi);
    ApexIsBSum(c, t);
  }

  // ---------------------------------------------------------------------------
  // Subdivision

  /** Step commutes with dropping the last coefficient. */
  lemma {:induction false} StepPrefix(c: seq<real>, t: real, m: nat)
    requires 1 <= m <= |c|
    ensures Step(c[..m], t) == Step(c, t)[..m - 1]
  {
    forall i | 0 <= i < m - 1
      ensures Step(c[..m], t)[i] == Step(c, t)[i]
    {
      assert c[..m][i] == c[i] && c[..m][i + 1] == c[i + 1];
    }
  }

  /** Step commutes with dropping the first coefficient. */
  lemma {:induction false} StepSuffix(c: seq<real>, t: real)
    requires |c| >= 2
    ensures Step(c[1..], t) == Step(c, t)[1..]
  {
    forall i | 0 <= i < |c| - 2
      ensures Step(c[1..], t)[i] == Step(c, t)[1..][i]
    {
      assert c[1..][i] == c[i + 1] && c[1..][i + 1] == c[i + 2];
    }
  }

  /** Level j computed from a prefix of c is the matching prefix of level j. */
  lemma {:induction false} IterPrefix(c: seq<real>, t: real, m: nat, j: nat)
    requires j < m <= |c|
    ensures Iter(c[..m], t, j) == Iter(c, t, j)[..m - j]
  {
    if j > 0 {
      IterPrefix(c, t, m, j - 1);
      StepPrefix(Iter(c, t, j - 1), t, m - j + 1);
    }
  }

  /** Level j computed from c without its first coefficient is level j without its first entry. */
  lemma {:induction false} IterSuffix(c: seq<real>, t: real, j: nat)
    requires j + 1 < |c|
    ensures Iter(c[1..], t, j) == Iter(c, t, j)[1..]
  {
    if j > 0 {
      IterSuffix(c, t, j - 1);
      StepSuffix(Iter(c, t, j - 1), t);
    }
  }

  /** Level j + 1 of c is level j of the first step. */
  lemma {:induction false} IterAfterStep(c: seq<real>, t: real, j: nat)
    requires j + 1 < |c|
    ensures Iter(c, t, j + 1) == Iter(Step(c, t), t, j)
  {
    if j > 0 {
      IterAfterStep(c, t, j - 1);
    }
  }

  /** The left edge of de Casteljau's triangle: entry j is the first entry of level j. */
  function LeftEdge(c: seq<real>, t: real): (r: seq<real>)
    ensures |r| == |c|
  {
    seq(|c|, j requires 0 <= j < |c| => Iter(c, t, j)[0])
  }

  /** The right edge of de Casteljau's triangle: entry i is the last entry of level n - i. */
  function RightEdge(c: seq<real>, t: real): (r: seq<real>)
    ensures |r| == |c|
  {
    seq(|c|, i requires 0 <= i < |c| => Iter(c, t, |c| - 1 - i)[i])
  }

  lemma {:induction false} LeftEdgeParts(c: seq<real>, t: real)
    requires |c| >= 2
    ensures LeftEdge(c, t)[..|c| - 1] == LeftEdge(c[..|c| - 1], t)
    ensures LeftEdge(c, t)[1..] == LeftEdge(Step(c, t), t)
  {
    var n := |c| - 1;
    forall j | 0 <= j < n
      ensures LeftEdge(c, t)[j] == LeftEdge(c[..n], t)[j]
    {
      IterPrefix(c, t, n, j);
    }
    forall j | 0 <= j < n
      ensures LeftEdge(c, t)[j + 1] == LeftEdge(Step(c, t), t)[j]
    {
      IterAfterStep(c, t, j);
    }
  }

  lemma {:induction false} RightEdgeParts(c: seq<real>, t: real)
    requires |c| >= 2
    ensures RightEdge(c, t)[..|c| - 1] == RightEdge(Step(c, t), t)
    ensures RightEdge(c, t)[1..] == RightEdge(c[1..], t)
  {
    var n := |c| - 1;
    forall i | 0 <= i < n
      ensures RightEdge(c, t)[i] == RightEdge(Step(c, t), t)[i]
    {
      IterAfterStep(c, t, n - 1 - i);
    }
    forall i | 0 <= i < n
      ensures RightEdge(c, t)[i + 1] == RightEdge(c[1..], t)[i]
    {
      IterSuffix(c, t, n - 1 - i);
    }
  }

  /** The left edge holds the coefficients of the same polynomial on [0, t]: its value at s is the parent's at s t. */
  lemma {:induction false} LeftEdgeCorrect(c: seq<real>, t: real, s: real)
    requires |c| >= 1
    ensures BSum(LeftEdge(c, t), s) == BSum(c, s * t)
    decreases |c|
  {
    if |c| == 1 {
      assert LeftEdge(c, t)[0] == c[0];
      assert LeftEdge(c, t) == [c[0]];
      BSumSingle(c[0], s);
      BSumSingle(c[0], s * t);
    } else {
      LeftEdgeCorrect(c[..|c| - 1], t, s);
      LeftEdgeCorrect(Step(c, t), t, s);
      LeftEdgeStep(c, t, s);
    }
  }

  lemma {:induction false} LeftEdgeStep(c: seq<real>, t: real, s: real)
    requires |c| >= 2
    requires BSum(LeftEdge(c[..|c| - 1], t), s) == BSum(c[..|c| - 1], s * t)
    requires BSum(LeftEdge(Step(c, t), t), s) == BSum(Step(c, t), s * t)
    ensures BSum(LeftEdge(c, t), s) == BSum(c, s * t)
  {
    hide BSum;
    hide LeftEdge;
    hide Step;
    var n := |c| - 1;
    var u := s * t;
    var l := LeftEdge(c, t);
    LeftEdgeParts(c, t);
    BSumSplit(l, s);
    StepCombination(c, t, u);
    BSumSplit(c, u);
    LeftAlgebra(BSum(l, s), BSum(l[..n], s), BSum(l[1..], s), BSum(c[..n], u), BSum(c[1..], u),
      BSum(Step(c, t), u), BSum(c, u), s, t, u);
  }

  lemma {:induction false} LeftAlgebra(x: real, p: real, q: real, a: real, b: real, m: real, y: real, s: real, t: real, u: real)
    requires x == (1.0 - s) * p + s * q
    requires p == a && q == m
    requires m == (1.0 - t) * a + t * b
    requires u == s * t && y == (1.0 - u) * a + u * b
    ensures x == y
  {
  }

  /** The right edge holds the coefficients of the same polynomial on [t, 1]: its value at s is the parent's at t + s (1 - t). */
  lemma {:induction false} RightEdgeCorrect(c: seq<real>, t: real, s: real)
    requires |c| >= 1
    ensures BSum(RightEdge(c, t), s) == BSum(c, t + s * (1.0 - t))
    decreases |c|
  {
    if |c| == 1 {
      assert RightEdge(c, t)[0] == Iter(c, t, 0)[0];
      assert RightEdge(c, t) == [c[0]];
      BSumSingle(c[0], s);
      BSumSingle(c[0], t + s * (1.0 - t));
    } else {
      RightEdgeCorrect(Step(c, t), t, s);
      RightEdgeCorrect(c[1..], t, s);
      RightEdgeStep(c, t, s);
    }
  }

  lemma {:induction false} RightEdgeStep(c: seq<real>, t: real, s: real)
    requires |c| >= 2
    requires BSum(RightEdge(Step(c, t), t), s) == BSum(Step(c, t), t + s * (1.0 - t))
    requires BSum(RightEdge(c[1..], t), s) == BSum(c[1..], t + s * (1.0 - t))
    ensures BSum(RightEdge(c, t), s) == BSum(c, t + s * (1.0 - t))
  {
    hide BSum;
    hide RightEdge;
    hide Step;
    var u := t + s * (1.0 - t);
    var n := |c| - 1;
    var r := RightEdge(c, t);
    RightEdgeParts(c, t);
    BSumSplit(r, s);
    StepCombination(c, t, u);
    BSumSplit(c, u);
    RightAlgebra(BSum(r, s), BSum(r[..n], s), BSum(r[1..], s), BSum(c[..n], u), BSum(c[1..], u),
      BSum(Step(c, t), u), BSum(c, u), s, t, u);
  }

  lemma {:induction false} RightAlgebra(x: real, p: real, q: real, a: real, b: real, m: real, y: real, s: real, t: real, u: real)
    requires x == (1.0 - s) * p + s * q
    requires p == m && q == b
    requires m == (1.0 - t) * a + t * b
    requires u == t + s * (1.0 - t) && y == (1.0 - u) * a + u * b
    ensures x == y
  {
  }

  // ---------------------------------------------------------------------------
  // Degree raising: multiplying a Bernstein sum by t or by 1 - t

  /** Coefficients of degree k = |w| for t times the degree k - 1 sum of w: entry j is (j / k) w_(j-1). */
  function TimesT(w: seq<real>): (r: seq<real>)
    requires |w| >= 1
    ensures |r| == |w| + 1
  {
    seq(|w| + 1, j requires 0 <= j <= |w| => if j == 0 then 0.0 else ((j as real) / (|w| as real)) * w[j - 1])
  }

  /** Coefficients of degree k = |w| for (1 - t) times the degree k - 1 sum of w: entry j is ((k - j) / k) w_j. */
  function TimesOneMinusT(w: seq<real>): (r: seq<real>)
    requires |w| >= 1
    ensures |r| == |w| + 1
  {
    seq(|w| + 1, j requires 0 <= j <= |w| => if j == |w| then 0.0 else (((|w| - j) as real) / (|w| as real)) * w[j])
  }

  lemma {:induction false} BasisTimesT(k: nat, j: nat, t: real)
    requires 1 <= j <= k
    ensures ((j as real) / (k as real)) * Basis(k, j, t) == t * Basis(k - 1, j - 1, t)
  {
    hide Basis;
    hide Pow;
    hide Binom;
    BinomAbsorb(k, j);
    BasisUnfold(k, j, t);
    BasisUnfold(k - 1, j - 1, t);
    PowStep(t, j);
    RatioTimes(Basis(k, j, t), Basis(k - 1, j - 1, t), j as real, k as real, Binom(k, j) as real, Binom(k - 1, j - 1) as real,
      t, Pow(t, j - 1), Pow(1.0 - t, k - j));
  }

  lemma {:induction false} RatioTimes(x: real, y: real, j: real, k: real, b: real, b1: real, t: real, tp: real, sp: real)
    requires k > 0.0 && j * b == k * b1
    requires x == b * (t * tp) * sp && y == b1 * tp * sp
    ensures (j / k) * x == t * y
  {
    assert (j / k) * b == b1;
  }

  lemma {:induction false} BasisTimesOneMinusT(k: nat, j: nat, t: real)
    requires j < k
    ensures (((k - j) as real) / (k as real)) * Basis(k, j, t) == (1.0 - t) * Basis(k - 1, j, t)
  {
    hide Basis;
    hide Pow;
    hide Binom;
    BinomAbsorbComplement(k, j);
    BasisUnfold(k, j, t);
    BasisUnfold(k - 1, j, t);
    PowStep(1.0 - t, k - j);
    RatioTimesComplement(Basis(k, j, t), Basis(k - 1, j, t), (k - j) as real, k as real, Binom(k, j) as real, Binom(k - 1, j) as real,
      1.0 - t, Pow(t, j), Pow(1.0 - t, k - 1 - j));
  }

  lemma {:induction false} RatioTimesComplement(x: real, y: real, m: real, k: real, b: real, b1: real, u: real, tp: real, sp: real)
    requires k > 0.0 && m * b == k * b1
    requires x == b * tp * (u * sp) && y == b1 * tp * sp
    ensures (m / k) * x == u * y
  {
    assert (m / k) * b == b1;
  }

  /** Multiplying by t: TimesT(w) holds, in degree |w|, the coefficients of t times the polynomial of w. */
  lemma {:induction false} TimesTCorrect(w: seq<real>, t: real)
    requires |w| >= 1
    ensures BSum(TimesT(w), t) == t * BSum(w, t)
  {
    hide Basis;
    var k := |w|;
    var r := TimesT(w);
    forall i: nat | i < k
      ensures Scaled(t, BTerms(w, t))(i) == BTerms(r, t)(i + 1)
    {
      TimesTPoint(w, t, i);
    }
    SumShift(k, BTerms(r, t), Scaled(t, BTerms(w, t)));
    SumScaled(k, t, BTerms(w, t));
    assert BTerm(r, t, 0) == 0.0;
  }

  lemma {:induction false} TimesTPoint(w: seq<real>, t: real, i: nat)
    requires i < |w|
    ensures t * BTerm(w, t, i) == BTerm(TimesT(w), t, i + 1)
  {
    hide Basis;
    var k := |w|;
    var ratio := ((i + 1) as real) / (k as real);
    BasisTimesT(k, i + 1, t);
    assert TimesT(w)[i + 1] == ratio * w[i];
    ScaleTerm(BTerm(w, t, i), BTerm(TimesT(w), t, i + 1), w[i], ratio, Basis(k, i + 1, t), t, Basis(k - 1, i, t));
  }

  /** Multiplying by 1 - t: TimesOneMinusT(w) holds, in degree |w|, the coefficients of (1 - t) times the polynomial of w. */
  lemma {:induction false} TimesOneMinusTCorrect(w: seq<real>, t: real)
    requires |w| >= 1
    ensures BSum(TimesOneMinusT(w), t) == (1.0 - t) * BSum(w, t)
  {
    hide Basis;
    var k := |w|;
    var r := TimesOneMinusT(w);
    forall i: nat | i < k
      ensures Scaled(1.0 - t, BTerms(w, t))(i) == BTerms(r, t)(i)
    {
      TimesOneMinusTPoint(w, t, i);
    }
    SumExt(k, Scaled(1.0 - t, BTerms(w, t)), BTerms(r, t));
    SumScaled(k, 1.0 - t, BTerms(w, t));
    assert BTerm(r, t, k) == 0.0;
    assert Sum(k + 1, BTerms(r, t)) == Sum(k, BTerms(r, t)) + BTerms(r, t)(k);
  }

  lemma {:induction false} TimesOneMinusTPoint(w: seq<real>, t: real, i: nat)
    requires i < |w|
    ensures (1.0 - t) * BTerm(w, t, i) == BTerm(TimesOneMinusT(w), t, i)
  {
    hide Basis;
    var k := |w|;
    var ratio := ((k - i) as real) / (k as real);
    BasisTimesOneMinusT(k, i, t);
    assert TimesOneMinusT(w)[i] == ratio * w[i];
    ScaleTerm(BTerm(w, t, i), BTerm(TimesOneMinusT(w), t, i), w[i], ratio, Basis(k, i, t), 1.0 - t, Basis(k - 1, i, t));
  }

  lemma {:induction false} ScaleTerm(wt: real, rt: real, x: real, ratio: real, B: real, u: real, B1: real)
    requires ratio * B == u * B1
    requires wt == x * B1 && rt == (ratio * x) * B
    ensures u * wt == rt
  {
    calc {
      u * wt;
      u * (x * B1);
      x * (u * B1);
      x * (ratio * B);
      (ratio * x) * B;
    }
  }
}
