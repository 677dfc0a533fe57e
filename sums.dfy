/** Finite sums of real-valued terms, the arithmetic every polynomial identity below is built on. */
module Sums {

  /** Sum(n, f) is f(0) + f(1) + ... + f(n-1). */
  function Sum(n: nat, f: nat -> real): real
  {
    if n == 0 then 0.0 else Sum(n - 1, f) + f(n - 1)
  }

  lemma {:induction false} SumExt(n: nat, f: nat -> real, g: nat -> real)
    requires forall i: nat :: i < n ==> f(i) == g(i)
    ensures Sum(n, f) == Sum(n, g)
  {
    if n > 0 {
      SumExt(n - 1, f, g);
    }
  }

  lemma {:induction false} SumZero(n: nat, f: nat -> real)
    requires forall i: nat :: i < n ==> f(i) == 0.0
    ensures Sum(n, f) == 0.0
  {
    if n > 0 {
      SumZero(n - 1, f);
    }
  }

  lemma {:induction false} SumAdd(n: nat, f: nat -> real, g: nat -> real, h: nat -> real)
    requires forall i: nat :: i < n ==> h(i) == f(i) + g(i)
    ensures Sum(n, h) == Sum(n, f) + Sum(n, g)
  {
    if n > 0 {
      SumAdd(n - 1, f, g, h);
    }
  }

  lemma {:induction false} SumScale(n: nat, k: real, f: nat -> real, g: nat -> real)
    requires forall i: nat :: i < n ==> g(i) == k * f(i)
    ensures Sum(n, g) == k * Sum(n, f)
  {
    if n > 0 {
      SumScale(n - 1, k, f, g);
    }
  }

  /** The terms of f, each multiplied by k. */
  function Scaled(k: real, f: nat -> real): nat -> real
  {
    (i: nat) => k * f(i)
  }

  lemma {:induction false} SumScaled(n: nat, k: real, f: nat -> real)
    ensures Sum(n, Scaled(k, f)) == k * Sum(n, f)
  {
    SumScale(n, k, f, Scaled(k, f));
  }

  /** Peeling off the first term: f(0) + ... + f(n) == f(0) + (g(0) + ... + g(n-1)) where g(i) == f(i+1). */
  lemma {:induction false} SumShift(n: nat, f: nat -> real, g: nat -> real)
    requires forall i: nat :: i < n ==> g(i) == f(i + 1)
    ensures Sum(n + 1, f) == f(0) + Sum(n, g)
  {
    if n > 0 {
      SumShift(n - 1, f, g);
    }
  }

  /** SumShift with the sum written at its own length n >= 1. */
  lemma {:induction false} SumDropFirst(n: nat, f: nat -> real, g: nat -> real)
    requires n >= 1
    requires forall i: nat :: i < n - 1 ==> g(i) == f(i + 1)
    ensures Sum(n, f) == f(0) + Sum(n - 1, g)
  {
    SumShift(n - 1, f, g);
  }

  /** When the first m terms of f vanish, its sum up to m + k is the sum of the k terms after them. */
  lemma {:induction false} SumSkip(m: nat, k: nat, f: nat -> real, g: nat -> real)
    requires forall j: nat :: j < m ==> f(j) == 0.0
    requires forall q: nat :: q < k ==> g(q) == f(m + q)
    ensures Sum(m + k, f) == Sum(k, g)
  {
    if k == 0 {
      SumZero(m, f);
    } else {
      SumSkip(m, k - 1, f, g);
    }
  }

  /** A sum whose only nonzero term is the one at k. */
  lemma {:induction false} SumOneTerm(n: nat, f: nat -> real, k: nat)
    requires k < n
    requires forall i: nat :: i < n && i != k ==> f(i) == 0.0
    ensures Sum(n, f) == f(k)
  {
    SumTail(n, k + 1, f);
    SumZero(k, f);
  }

  /** Terms at or beyond m that vanish do not change the sum. */
  lemma {:induction false} SumTail(n: nat, m: nat, f: nat -> real)
    requires m <= n
    requires forall i: nat :: m <= i < n ==> f(i) == 0.0
    ensures Sum(n, f) == Sum(m, f)
  {
    if n > m {
      SumTail(n - 1, m, f);
    }
  }

  /** A sum of non-negative terms is non-negative. */
  lemma {:induction false} SumNonNegative(n: nat, f: nat -> real)
    requires forall i: nat :: i < n ==> f(i) >= 0.0
    ensures Sum(n, f) >= 0.0
  {
    if n > 0 {
      SumNonNegative(n - 1, f);
    }
  }

  /** Row i of a rectangular array of terms: F(i, 0) + ... + F(i, m-1). */
  function Row(m: nat, F: (nat, nat) -> real, i: nat): real
  {
    Sum(m, (j: nat) => F(i, j))
  }

  /** Column j of a rectangular array of terms: F(0, j) + ... + F(n-1, j). */
  function Col(n: nat, F: (nat, nat) -> real, j: nat): real
  {
    Sum(n, (i: nat) => F(i, j))
  }

  /** Exchanging the order of a double sum over a rectangle: the row sums and the column sums have the same total. */
  lemma {:induction false} SumSwap(n: nat, m: nat, F: (nat, nat) -> real)
    ensures Sum(n, (i: nat) => Row(m, F, i)) == Sum(m, (j: nat) => Col(n, F, j))
  {
    if n > 0 {
      SumSwap(n - 1, m, F);
      var last := (j: nat) => F(n - 1, j);
      SumExt(m, last, (j: nat) => F(n - 1, j));
      assert Row(m, F, n - 1) == Sum(m, last);
      SumAdd(m, (j: nat) => Col(n - 1, F, j), last, (j: nat) => Col(n, F, j));
    } else {
      SumZero(m, (j: nat) => Col(n, F, j));
    }
  }
}
