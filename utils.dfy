/** The helpers the root finder is built from: sign changes, Newton's method, interval tests, merging of close roots, and power-basis polynomials. */
module Utils {
  import opened Wrappers
  import opened Poly

  function Abs(x: real): (r: real)
    ensures r >= 0.0 && (r == x || r == -x)
  {
    if x < 0.0 then -x else x
  }

  // ---------------------------------------------------------------------------
  // Sign changes

  /** np.sign: 1, -1 or 0. */
  function Sign(x: real): int
  {
    if x > 0.0 then 1 else if x < 0.0 then -1 else 0
  }

  /** The signs of the entries of s with the zeros dropped, in order. */
  function NonZeroSigns(s: seq<real>): (r: seq<int>)
    ensures |r| <= |s|
    ensures forall i :: 0 <= i < |r| ==> r[i] == 1 || r[i] == -1
  {
    if |s| == 0 then []
    else if s[|s| - 1] == 0.0 then NonZeroSigns(s[..|s| - 1])
    else NonZeroSigns(s[..|s| - 1]) + [Sign(s[|s| - 1])]
  }

  /** The number of adjacent pairs of signs whose product is negative. */
  function Flips(signs: seq<int>): nat
  {
    if |signs| <= 1 then 0
    else Flips(signs[..|signs| - 1]) + (if signs[|signs| - 2] * signs[|signs| - 1] < 0 then 1 else 0)
  }

  /** The number of sign changes of s, zeros ignored. */
  function SignChanges(s: seq<real>): nat
  {
    Flips(NonZeroSigns(s))
  }

  /** sign_changes: filter out the zero signs, then count the strict flips between neighbours. */
  method CountSignChanges(sequence: seq<real>) returns (changes: nat)
    ensures changes == SignChanges(sequence)
  {
    var signs := NonZeroSigns(sequence);
    if |signs| <= 1 {
      return 0;
    }
    changes := 0;
    var i := 0;
    while i < |signs| - 1
      invariant 0 <= i <= |signs| - 1
      invariant changes == Flips(signs[..i + 1])
    {
      assert signs[..i + 2][..i + 1] == signs[..i + 1];
      if signs[i] * signs[i + 1] < 0 {
        changes := changes + 1;
      }
      i := i + 1;
    }
    assert signs[..i + 1] == signs;
  }

  /** A sequence of n signs has at most n - 1 changes. */
  lemma {:induction false} FlipsBound(signs: seq<int>)
    ensures Flips(signs) <= if |signs| == 0 then 0 else |signs| - 1
  {
    if |signs| > 1 {
      FlipsBound(signs[..|signs| - 1]);
    }
  }

  /** Parity: the number of changes is even exactly when the first and the last sign agree. */
  lemma {:induction false} FlipsParity(signs: seq<int>)
    requires |signs| >= 1
    requires forall i :: 0 <= i < |signs| ==> signs[i] == 1 || signs[i] == -1
    ensures Flips(signs) % 2 == 0 <==> signs[0] == signs[|signs| - 1]
  {
    if |signs| > 1 {
      var init := signs[..|signs| - 1];
      FlipsParity(init);
      assert init[0] == signs[0];
    }
  }

  /** With no nonzero entry of the other sign there is nothing to count. */
  lemma {:induction false} FlipsConstant(signs: seq<int>, v: int)
    requires forall i :: 0 <= i < |signs| ==> signs[i] == v
    ensures Flips(signs) == 0
  {
    if |signs| > 1 {
      FlipsConstant(signs[..|signs| - 1], v);
    }
  }

  lemma {:induction false} NonZeroSignsPositive(s: seq<real>)
    requires forall i :: 0 <= i < |s| ==> s[i] >= 0.0
    ensures forall i :: 0 <= i < |NonZeroSigns(s)| ==> NonZeroSigns(s)[i] == 1
  {
    if |s| > 0 {
      NonZeroSignsPositive(s[..|s| - 1]);
    }
  }

  lemma {:induction false} NonZeroSignsNegative(s: seq<real>)
    requires forall i :: 0 <= i < |s| ==> s[i] <= 0.0
    ensures forall i :: 0 <= i < |NonZeroSigns(s)| ==> NonZeroSigns(s)[i] == -1
  {
    if |s| > 0 {
      NonZeroSignsNegative(s[..|s| - 1]);
    }
  }

  /** A sequence whose entries never take both signs has no sign change. */
  lemma {:induction false} SignChangesOneSided(s: seq<real>)
    requires (forall i :: 0 <= i < |s| ==> s[i] >= 0.0) || (forall i :: 0 <= i < |s| ==> s[i] <= 0.0)
    ensures SignChanges(s) == 0
  {
    if forall i :: 0 <= i < |s| ==> s[i] >= 0.0 {
      NonZeroSignsPositive(s);
      FlipsConstant(NonZeroSigns(s), 1);
    } else {
      NonZeroSignsNegative(s);
      FlipsConstant(NonZeroSigns(s), -1);
    }
  }

  /** A nonzero entry leaves at least one sign. */
  lemma {:induction false} NonZeroSignsCover(s: seq<real>, k: nat)
    requires k < |s| && s[k] != 0.0
    ensures |NonZeroSigns(s)| >= 1
  {
    if k < |s| - 1 {
      NonZeroSignsCover(s[..|s| - 1], k);
    }
  }

  /** Signs without a flip are all equal. */
  lemma {:induction false} NoFlipsConstant(signs: seq<int>)
    requires |signs| >= 1 && Flips(signs) == 0
    requires forall i :: 0 <= i < |signs| ==> signs[i] == 1 || signs[i] == -1
    ensures forall i :: 0 <= i < |signs| ==> signs[i] == signs[0]
  {
    var n := |signs|;
    if n > 1 {
      var init := signs[..n - 1];
      NoFlipsConstant(init);
      assert init[0] == signs[0];
      assert signs[n - 2] == init[n - 2];
    }
  }

  /** When every sign left is v, every entry is zero or has sign v. */
  lemma {:induction false} SignsFollow(s: seq<real>, v: int)
    requires v == 1 || v == -1
    requires forall i :: 0 <= i < |NonZeroSigns(s)| ==> NonZeroSigns(s)[i] == v
    ensures forall i :: 0 <= i < |s| ==> (v == 1 ==> s[i] >= 0.0) && (v == -1 ==> s[i] <= 0.0)
  {
    if |s| > 0 {
      var init := s[..|s| - 1];
      var signs := NonZeroSigns(s);
      assert signs[..|NonZeroSigns(init)|] == NonZeroSigns(init);
      forall i | 0 <= i < |NonZeroSigns(init)|
        ensures NonZeroSigns(init)[i] == v
      {
        assert NonZeroSigns(init)[i] == signs[i];
      }
      SignsFollow(init, v);
      if s[|s| - 1] != 0.0 {
        assert signs[|signs| - 1] == Sign(s[|s| - 1]);
      }
      forall i | 0 <= i < |s|
        ensures (v == 1 ==> s[i] >= 0.0) && (v == -1 ==> s[i] <= 0.0)
      {
        if i < |s| - 1 {
          assert s[i] == init[i];
        }
      }
    }
  }

  /** The source's test cases: [1, 2, 3] has no sign change. */
  lemma {:induction false} SignChangesIncreasing()
    ensures SignChanges([1.0, 2.0, 3.0]) == 0
  {
    SignChangesOneSided([1.0, 2.0, 3.0]);
  }

  /** [1, -1] has one sign change. */
  lemma {:induction false} SignChangesOneFlip()
    ensures SignChanges([1.0, -1.0]) == 1
  {
    hide NonZeroSigns, Flips;
    NonZeroSignsSnoc([], 1.0);
    NonZeroSignsSnoc([1.0], -1.0);
    assert [] + [1.0] == [1.0] && [1.0] + [-1.0] == [1.0, -1.0];
    assert NonZeroSigns([1.0, -1.0]) == [1, -1];
    FlipsPair(1, -1);
  }

  /** [1, -1, 2] has two sign changes. */
  lemma {:induction false} SignChangesTwoFlips()
    ensures SignChanges([1.0, -1.0, 2.0]) == 2
  {
    hide NonZeroSigns, Flips;
    NonZeroSignsSnoc([], 1.0);
    NonZeroSignsSnoc([1.0], -1.0);
    NonZeroSignsSnoc([1.0, -1.0], 2.0);
    assert [] + [1.0] == [1.0] && [1.0] + [-1.0] == [1.0, -1.0] && [1.0, -1.0] + [2.0] == [1.0, -1.0, 2.0];
    assert NonZeroSigns([1.0, -1.0, 2.0]) == [1, -1, 1];
    FlipsPair(1, -1);
    FlipsSnoc([1, -1], 1);
    assert [1, -1] + [1] == [1, -1, 1];
  }

  /** The zero in [1, 0, -1] is skipped: one sign change. */
  lemma {:induction false} SignChangesSkipsZero()
    ensures SignChanges([1.0, 0.0, -1.0]) == 1
  {
    hide NonZeroSigns, Flips;
    NonZeroSignsSnoc([], 1.0);
    NonZeroSignsSnoc([1.0], 0.0);
    NonZeroSignsSnoc([1.0, 0.0], -1.0);
    assert [] + [1.0] == [1.0] && [1.0] + [0.0] == [1.0, 0.0] && [1.0, 0.0] + [-1.0] == [1.0, 0.0, -1.0];
    assert NonZeroSigns([1.0, 0.0, -1.0]) == [1, -1];
    FlipsPair(1, -1);
  }

  lemma {:induction false} NonZeroSignsSnoc(s: seq<real>, x: real)
    ensures NonZeroSigns(s + [x]) == if x == 0.0 then NonZeroSigns(s) else NonZeroSigns(s) + [Sign(x)]
    ensures NonZeroSigns([]) == []
  {
    assert (s + [x])[..|s|] == s;
  }

  lemma {:induction false} FlipsSnoc(signs: seq<int>, v: int)
    requires |signs| >= 1
    ensures Flips(signs + [v]) == Flips(signs) + (if signs[|signs| - 1] * v < 0 then 1 else 0)
  {
    assert (signs + [v])[..|signs|] == signs;
  }

  lemma {:induction false} FlipsPair(u: int, v: int)
    ensures Flips([u, v]) == if u * v < 0 then 1 else 0
  {
    assert [u, v][..1] == [u];
  }

  // ---------------------------------------------------------------------------
  // Intervals

  /** interval_width((a, b)) is b - a. */
  function IntervalWidth(a: real, b: real): (w: real)
    ensures w >= 0.0 <==> a <= b
    ensures w == 0.0 <==> a == b
  {
    b - a
  }

  /** is_in_interval: x lies in [a - margin, b + margin]. */
  function IsInInterval(x: real, a: real, b: real, margin: real := 0.0): (r: bool)
    ensures r <==> Abs(x - (a + b) / 2.0) <= (b - a) / 2.0 + margin
  {
    a - margin <= x <= b + margin
  }

  /** With no margin, a point of the interval lies at most its width from a. */
  lemma {:induction false} InIntervalWithinWidth(x: real, a: real, b: real)
    ensures IsInInterval(x, a, b, 0.0) <==> 0.0 <= x - a <= IntervalWidth(a, b)
  {
  }

  /** The source's interval checks on [1, 2]: the ends belong to it, 0 and 3 do not, and a margin of 0.2 admits 0.9. */
  lemma {:induction false} IsInIntervalExamples()
    ensures IsInInterval(1.5, 1.0, 2.0) && IsInInterval(1.0, 1.0, 2.0) && IsInInterval(2.0, 1.0, 2.0)
    ensures !IsInInterval(0.0, 1.0, 2.0) && !IsInInterval(3.0, 1.0, 2.0)
    ensures IsInInterval(0.9, 1.0, 2.0, 0.2)
  {
  }

  // ---------------------------------------------------------------------------
  // Newton's method

  /** The threshold below which newton_step refuses to divide by the derivative. */
  const SmallDerivative: real := 0.00000000000001

  /** newton_step: x0 - f(x0) / df(x0), or an error when |df(x0)| < 1e-14. */
  function NewtonStep(f: real -> real, df: real -> real, x0: real): (r: Result<real>)
    ensures r.Failure? <==> Abs(df(x0)) < SmallDerivative
    ensures r.Success? ==> f(x0) + df(x0) * (r.value - x0) == 0.0
  {
    if Abs(df(x0)) < SmallDerivative then Failure("derivative too small, possibly a multiple root")
    else TangentZero(f(x0), df(x0), x0); Success(x0 - f(x0) / df(x0))
  }

  /** The Newton iterate is where the tangent line crosses zero. */
  lemma {:induction false} TangentZero(fx: real, dfx: real, x0: real)
    requires dfx != 0.0
    ensures fx + dfx * ((x0 - fx / dfx) - x0) == 0.0
  {
    assert dfx * (fx / dfx) == fx;
  }

  /** The source's example: for x^2 - 4 from 3 the step gives 13 / 6. */
  lemma {:induction false} NewtonStepExample()
    ensures NewtonStep(x => x * x - 4.0, x => 2.0 * x, 3.0) == Success(13.0 / 6.0)
  {
    var f := (x: real) => x * x - 4.0;
    var df := (x: real) => 2.0 * x;
    assert f(3.0) == 5.0 && df(3.0) == 6.0;
    assert 3.0 - 5.0 / 6.0 == 13.0 / 6.0;
  }

  /** The number of passes of newton_raphson's loop: range(max_iter) is empty for max_iter <= 0. */
  function Iterations(maxIter: int): nat
  {
    if maxIter < 0 then 0 else maxIter
  }

  /** What newton_raphson returns from x with k passes of its loop left. */
  function NewtonIterate(f: real -> real, df: real -> real, x: real, tol: real, k: nat): (real, bool)
    decreases k
  {
    if k == 0 then (x, Abs(f(x)) < tol)
    else if Abs(f(x)) < tol then (x, true)
    else match NewtonStep(f, df, x)
      case Failure(_) => (x, false)
      case Success(xNew) =>
        if Abs(xNew - x) < tol then (xNew, Abs(f(xNew)) < tol)
        else NewtonIterate(f, df, xNew, tol, k - 1)
  }

  /** newton_raphson: at most max_iter Newton steps from x0, stopping when |f(x)| < tol, when a step moves less than tol, or when a step fails. */
  method NewtonRaphson(f: real -> real, df: real -> real, x0: real, tol: real := 0.0000000001, maxIter: int := 100) returns (root: real, converged: bool)
    ensures (root, converged) == NewtonIterate(f, df, x0, tol, Iterations(maxIter))
  {
    var x := x0;
    var k := 0;
    while k < maxIter
      invariant 0 <= k <= Iterations(maxIter)
      invariant NewtonIterate(f, df, x, tol, Iterations(maxIter) - k) == NewtonIterate(f, df, x0, tol, Iterations(maxIter))
    {
      var fx := f(x);
      if Abs(fx) < tol {
        return x, true;
      }
      var step := NewtonStep(f, df, x);
      if step.Failure? {
        return x, false;
      }
      var xNew := step.value;
      if Abs(xNew - x) < tol {
        return xNew, Abs(f(xNew)) < tol;
      }
      x := xNew;
      k := k + 1;
    }
    return x, Abs(f(x)) < tol;
  }

  /** A derivative too small to divide by ends the search where it stands, unconverged. */
  lemma {:induction false} NewtonStopsOnFlatDerivative(f: real -> real, df: real -> real, x0: real, tol: real, k: nat)
    requires k >= 1 && !(Abs(f(x0)) < tol)
    ensures Abs(df(x0)) < SmallDerivative ==> NewtonIterate(f, df, x0, tol, k) == (x0, false)
    ensures df(x0) == 0.0 ==> NewtonIterate(f, df, x0, tol, k) == (x0, false)
  {
  }

  /** Convergence is reported exactly at a point where |f| < tol. */
  lemma {:induction false} NewtonConvergedIsRoot(f: real -> real, df: real -> real, x: real, tol: real, k: nat)
    ensures NewtonIterate(f, df, x, tol, k).1 <==> Abs(f(NewtonIterate(f, df, x, tol, k).0)) < tol
    decreases k
  {
    if k > 0 && !(Abs(f(x)) < tol) {
      match NewtonStep(f, df, x)
      case Failure(_) =>
      case Success(xNew) =>
        if !(Abs(xNew - x) < tol) {
          NewtonConvergedIsRoot(f, df, xNew, tol, k - 1);
        }
    }
  }

  // ---------------------------------------------------------------------------
  // Sorting and merging close roots

  predicate Ascending(s: seq<real>)
  {
    forall i, j :: 0 <= i < j < |s| ==> s[i] <= s[j]
  }

  function Insert(x: real, s: seq<real>): (r: seq<real>)
    requires Ascending(s)
    ensures |r| == |s| + 1 && Ascending(r) && multiset(r) == multiset(s) + multiset{x}
    ensures r[0] == x || (|s| > 0 && r[0] == s[0])
  {
    if |s| == 0 then [x]
    else if x <= s[0] then
      AscendingCons(x, s);
      [x] + s
    else
      assert s == [s[0]] + s[1..];
      AscendingTail(s);
      var rest := Insert(x, s[1..]);
      assert s[0] <= rest[0];
      AscendingCons(s[0], rest);
      [s[0]] + rest
  }

  lemma {:induction false} AscendingTail(s: seq<real>)
    requires |s| > 0 && Ascending(s)
    ensures Ascending(s[1..]) && (|s| > 1 ==> s[0] <= s[1])
  {
    forall i, j | 0 <= i < j < |s| - 1
      ensures s[1..][i] <= s[1..][j]
    {
      assert s[1..][i] == s[i + 1] && s[1..][j] == s[j + 1];
    }
  }

  lemma {:induction false} AscendingCons(y: real, t: seq<real>)
    requires Ascending(t) && (|t| == 0 || y <= t[0])
    ensures Ascending([y] + t)
  {
    forall i, j | 0 <= i < j < |t| + 1
      ensures ([y] + t)[i] <= ([y] + t)[j]
    {
      if i == 0 {
        assert ([y] + t)[j] == t[j - 1];
      } else {
        assert ([y] + t)[i] == t[i - 1] && ([y] + t)[j] == t[j - 1];
      }
    }
  }

  /** Python's sorted(): the ascending rearrangement of s. */
  function SortAscending(s: seq<real>): (r: seq<real>)
    ensures Ascending(r) && multiset(r) == multiset(s)
  {
    if |s| == 0 then []
    else
      assert s == [s[0]] + s[1..];
      Insert(s[0], SortAscending(s[1..]))
  }

  /** Sorting what is already ascending changes nothing. */
  lemma {:induction false} SortAscendingSorted(s: seq<real>)
    requires Ascending(s)
    ensures SortAscending(s) == s
  {
    if |s| > 0 {
      SortAscendingSorted(s[1..]);
      assert s == [s[0]] + s[1..];
    }
  }

  /** The merge loop over an ascending list: keep a root when it is more than tol from the last one kept. */
  function MergeSorted(s: seq<real>, tol: real): (m: seq<real>)
    requires |s| >= 1
    ensures 1 <= |m| <= |s| && m[0] == s[0]
  {
    if |s| == 1 then [s[0]]
    else
      var m := MergeSorted(s[..|s| - 1], tol);
      if Abs(s[|s| - 1] - m[|m| - 1]) > tol then m + [s[|s| - 1]] else m
  }

  /** merge_close_roots as a function of its input. */
  function Merged(roots: seq<real>, tol: real): seq<real>
  {
    if |roots| == 0 then [] else MergeSorted(SortAscending(roots), tol)
  }

  /** merge_close_roots: sort, then keep each root that is more than tol from the last root kept. */
  method MergeCloseRoots(roots: seq<real>, tol: real := 0.000001) returns (merged: seq<real>)
    ensures merged == Merged(roots, tol)
  {
    hide Ascending;
    hide MergeSorted;
    if |roots| == 0 {
      return [];
    }
    var rootsSorted := SortAscending(roots);
    merged := [rootsSorted[0]];
    var i := 1;
    while i < |rootsSorted|
      invariant 1 <= i <= |rootsSorted|
      invariant merged == MergeSorted(rootsSorted[..i], tol)
    {
      MergeSortedStep(rootsSorted, i, tol);
      var root := rootsSorted[i];
      if Abs(root - merged[|merged| - 1]) > tol {
        merged := merged + [root];
      }
      i := i + 1;
    }
    assert rootsSorted[..i] == rootsSorted;
  }

  /** One pass of the merge loop, from the first i roots to the first i + 1. */
  lemma {:induction false} MergeSortedStep(s: seq<real>, i: nat, tol: real)
    requires 1 <= i < |s|
    ensures MergeSorted(s[..i + 1], tol)
      == var m := MergeSorted(s[..i], tol); if Abs(s[i] - m[|m| - 1]) > tol then m + [s[i]] else m
  {
    assert s[..i + 1][..i] == s[..i];
  }

  /** Neighbours in m are more than tol apart. */
  predicate Separated(m: seq<real>, tol: real)
  {
    forall i :: 0 < i < |m| ==> m[i] - m[i - 1] > tol
  }

  /** Every root kept from an ascending list lies between its first and its last entry. */
  lemma {:induction false} MergeSortedBounds(s: seq<real>, tol: real)
    requires |s| >= 1 && Ascending(s)
    ensures forall k :: 0 <= k < |MergeSorted(s, tol)| ==> s[0] <= MergeSorted(s, tol)[k] <= s[|s| - 1]
  {
    if |s| > 1 {
      var init := s[..|s| - 1];
      MergeSortedBounds(init, tol);
      assert init[0] == s[0] && init[|init| - 1] == s[|s| - 2] <= s[|s| - 1];
    }
  }

  /** Every root kept was in the input, as often as it was there at most. */
  lemma {:induction false} MergeSortedSubset(s: seq<real>, tol: real)
    requires |s| >= 1
    ensures multiset(MergeSorted(s, tol)) <= multiset(s)
  {
    if |s| > 1 {
      var init := s[..|s| - 1];
      MergeSortedSubset(init, tol);
      assert s == init + [s[|s| - 1]];
    }
  }

  /** From an ascending list the kept roots are ascending and more than tol apart. */
  lemma {:induction false} MergeSortedAscending(s: seq<real>, tol: real)
    requires |s| >= 1 && Ascending(s)
    ensures Ascending(MergeSorted(s, tol)) && Separated(MergeSorted(s, tol), tol)
  {
    if |s| > 1 {
      var init := s[..|s| - 1];
      var x := s[|s| - 1];
      assert Ascending(init);
      var m := MergeSorted(init, tol);
      var r := MergeSorted(s, tol);
      MergeSortedAscending(init, tol);
      MergeSortedBounds(init, tol);
      hide MergeSorted;
      if Abs(x - m[|m| - 1]) > tol {
        assert r == m + [x];
        assert m[|m| - 1] <= init[|init| - 1] <= x;
        forall i, j | 0 <= i < j < |r|
          ensures r[i] <= r[j]
        {
          assert r[i] == m[i];
          if j < |m| {
            assert r[j] == m[j];
          }
        }
        forall i | 0 < i < |r|
          ensures r[i] - r[i - 1] > tol
        {
          if i < |m| {
            assert r[i] == m[i] && r[i - 1] == m[i - 1];
          }
        }
      } else {
        assert r == m;
      }
    }
  }

  /** Some root of m lies at most tol below x. */
  predicate CoveredBy(m: seq<real>, x: real, tol: real)
  {
    exists k :: 0 <= k < |m| && 0.0 <= x - m[k] <= tol
  }

  /** Every root of the ascending input has a kept root at most tol below it. */
  lemma {:induction false} MergeSortedCovers(s: seq<real>, tol: real)
    requires |s| >= 1 && Ascending(s) && tol >= 0.0
    ensures forall i :: 0 <= i < |s| ==> CoveredBy(MergeSorted(s, tol), s[i], tol)
  {
    var r := MergeSorted(s, tol);
    if |s| == 1 {
      assert 0.0 <= s[0] - r[0] <= tol;
    } else {
      var init := s[..|s| - 1];
      var x := s[|s| - 1];
      var m := MergeSorted(init, tol);
      MergeSortedCovers(init, tol);
      MergeSortedBounds(init, tol);
      assert r[..|m|] == m;
      forall i | 0 <= i < |s|
        ensures CoveredBy(r, s[i], tol)
      {
        if i < |s| - 1 {
          assert CoveredBy(m, init[i], tol);
          var k :| 0 <= k < |m| && 0.0 <= init[i] - m[k] <= tol;
          assert r[k] == m[k];
        } else if Abs(x - m[|m| - 1]) > tol {
          assert r[|r| - 1] == x;
        } else {
          assert r[|m| - 1] == m[|m| - 1] <= x;
        }
      }
    }
  }

  /** An ascending list whose neighbours are already more than tol apart is kept whole. */
  lemma {:induction false} MergeSortedSeparated(s: seq<real>, tol: real)
    requires |s| >= 1 && Ascending(s) && Separated(s, tol)
    ensures MergeSorted(s, tol) == s
  {
    if |s| > 1 {
      var init := s[..|s| - 1];
      MergeSortedSeparated(init, tol);
      assert s[|s| - 1] - s[|s| - 2] > tol;
      assert s == init + [s[|s| - 1]];
    }
  }

  /** The result of merge_close_roots: empty exactly for empty input; otherwise ascending, more than tol apart, drawn from the input, and starting at its smallest root. */
  lemma {:induction false} MergedShape(roots: seq<real>, tol: real)
    ensures |roots| == 0 <==> Merged(roots, tol) == []
    ensures Ascending(Merged(roots, tol)) && Separated(Merged(roots, tol), tol)
    ensures multiset(Merged(roots, tol)) <= multiset(roots)
    ensures |roots| > 0 ==> Merged(roots, tol)[0] in roots && forall r :: r in roots ==> Merged(roots, tol)[0] <= r
  {
    if |roots| > 0 {
      var s := SortAscending(roots);
      MergeSortedAscending(s, tol);
      MergeSortedSubset(s, tol);
      assert s[0] in multiset(roots);
      forall r | r in roots
        ensures s[0] <= r
      {
        assert r in multiset(s);
        assert r in s;
        var k :| 0 <= k < |s| && s[k] == r;
      }
    }
  }

  /** Every input root has a kept root at most tol below it. */
  lemma {:induction false} MergedCovers(roots: seq<real>, tol: real)
    requires tol >= 0.0
    ensures forall r :: r in roots ==> CoveredBy(Merged(roots, tol), r, tol)
  {
    if |roots| > 0 {
      var s := SortAscending(roots);
      MergeSortedCovers(s, tol);
      forall r | r in roots
        ensures CoveredBy(Merged(roots, tol), r, tol)
      {
        assert r in multiset(s);
        assert r in s;
        var i :| 0 <= i < |s| && s[i] == r;
      }
    }
  }

  /** Merging twice is merging once. */
  lemma {:induction false} MergedIdempotent(roots: seq<real>, tol: real)
    ensures Merged(Merged(roots, tol), tol) == Merged(roots, tol)
  {
    var m := Merged(roots, tol);
    MergedShape(roots, tol);
    if |m| > 0 {
      SortAscendingSorted(m);
      MergeSortedSeparated(m, tol);
    }
  }

  // ---------------------------------------------------------------------------
  // Polynomials in the power basis

  /** polynomial_from_coeffs: the function x |-> a_0 + a_1 x + ... + a_n x^n. */
  function PolynomialFromCoeffs(coeffs: seq<real>): (p: real -> real)
    ensures forall x :: p(x) == PowerSum(coeffs, x)
  {
    HornerEverywhere(coeffs);
    x => PolyEval(coeffs, x)
  }

  lemma {:induction false} HornerEverywhere(coeffs: seq<real>)
    ensures forall x :: PolyEval(coeffs, x) == PowerSum(coeffs, x)
  {
    forall x {
      HornerIsPowerSum(coeffs, x);
    }
  }

  /** The source's example: 1 + 2x + 3x^2 is 17 at 2. */
  lemma {:induction false} PolynomialFromCoeffsExample()
    ensures PolynomialFromCoeffs([1.0, 2.0, 3.0])(2.0) == 17.0
  {
    var c := [1.0, 2.0, 3.0];
    assert c[1..] == [2.0, 3.0] && c[1..][1..] == [3.0] && c[1..][1..][1..] == [];
    assert PolyEval(c, 2.0) == 17.0;
  }

  /** polynomial_derivative_coeffs: [0.0] for at most one coefficient, else [1 a_1, 2 a_2, ..., n a_n]. */
  function DerivativeCoeffs(coeffs: seq<real>): (d: seq<real>)
    ensures |d| == if |coeffs| <= 1 then 1 else |coeffs| - 1
    ensures |coeffs| >= 2 ==> forall i :: 0 <= i < |d| ==> d[i] == ((i + 1) as real) * coeffs[i + 1]
  {
    if |coeffs| <= 1 then [0.0]
    else seq(|coeffs| - 1, i requires 0 <= i < |coeffs| - 1 => ((i + 1) as real) * coeffs[i + 1])
  }

  /** a + b with b padded by zeros to the length of a. */
  function AddPadded(a: seq<real>, b: seq<real>): (r: seq<real>)
    requires |b| <= |a|
    ensures |r| == |a| && forall i :: 0 <= i < |a| ==> r[i] == a[i] + (if i < |b| then b[i] else 0.0)
  {
    seq(|a|, i requires 0 <= i < |a| => a[i] + (if i < |b| then b[i] else 0.0))
  }

  function ScalePoly(k: real, a: seq<real>): (r: seq<real>)
    ensures |r| == |a| && forall i :: 0 <= i < |a| ==> r[i] == k * a[i]
  {
    seq(|a|, i requires 0 <= i < |a| => k * a[i])
  }

  lemma {:induction false} PolyEvalAddPadded(a: seq<real>, b: seq<real>, y: real)
    requires |b| <= |a|
    ensures PolyEval(AddPadded(a, b), y) == PolyEval(a, y) + PolyEval(b, y)
    decreases |a|
  {
    hide PolyEval;
    var r := AddPadded(a, b);
    if |a| == 0 {
      PolyEvalEmpty(a, y);
      PolyEvalEmpty(b, y);
      PolyEvalEmpty(r, y);
    } else if |b| == 0 {
      assert r == a;
      PolyEvalEmpty(b, y);
    } else {
      forall i | 0 <= i < |a| - 1
        ensures r[1..][i] == AddPadded(a[1..], b[1..])[i]
      {
        assert r[1..][i] == r[i + 1];
      }
      assert r[1..] == AddPadded(a[1..], b[1..]);
      PolyEvalUnfold(r, y);
      PolyEvalUnfold(a, y);
      PolyEvalUnfold(b, y);
      PolyEvalAddPadded(a[1..], b[1..], y);
      Distribute(y, PolyEval(a[1..], y), PolyEval(b[1..], y));
    }
  }

  lemma {:induction false} PolyEvalScale(k: real, a: seq<real>, y: real)
    ensures PolyEval(ScalePoly(k, a), y) == k * PolyEval(a, y)
    decreases |a|
  {
    hide PolyEval;
    var r := ScalePoly(k, a);
    if |a| == 0 {
      PolyEvalEmpty(a, y);
      PolyEvalEmpty(r, y);
    } else {
      forall i | 0 <= i < |a| - 1
        ensures r[1..][i] == ScalePoly(k, a[1..])[i]
      {
        assert r[1..][i] == r[i + 1] == k * a[i + 1];
      }
      assert r[1..] == ScalePoly(k, a[1..]);
      var p := PolyEval(a[1..], y);
      PolyEvalUnfold(r, y);
      PolyEvalUnfold(a, y);
      PolyEvalScale(k, a[1..], y);
      MulSwap(y, k, p);
      Distribute(k, a[0], y * p);
    }
  }

  /** The coefficients, in y, of the difference quotient (p(y) - p(x)) / (y - x) of p = coeffs at a fixed x. */
  function Slope(coeffs: seq<real>, x: real): (q: seq<real>)
    ensures |q| == if |coeffs| == 0 then 0 else |coeffs| - 1
    decreases |coeffs|
  {
    if |coeffs| == 0 then []
    else AddPadded(coeffs[1..], ScalePoly(x, Slope(coeffs[1..], x)))
  }

  /** p(y) - p(x) == (y - x) q_x(y) for the polynomial q_x = Slope(p, x): the difference quotient is a polynomial in y. */
  lemma {:induction false} SlopeFactor(coeffs: seq<real>, x: real, y: real)
    ensures PolyEval(coeffs, y) - PolyEval(coeffs, x) == (y - x) * PolyEval(Slope(coeffs, x), y)
    decreases |coeffs|
  {
    hide *;
    if |coeffs| > 0 {
      var r := coeffs[1..];
      var s := Slope(r, x);
      SlopeUnfold(coeffs, x);
      PolyEvalUnfold(coeffs, y);
      PolyEvalUnfold(coeffs, x);
      SlopeFactor(r, x, y);
      PolyEvalAddPadded(r, ScalePoly(x, s), y);
      PolyEvalScale(x, s, y);
      SlopeArith(PolyEval(r, y), PolyEval(r, x), PolyEval(s, y), x, y);
    } else {
      PolyEvalEmpty(coeffs, x);
      PolyEvalEmpty(coeffs, y);
      PolyEvalEmpty(Slope(coeffs, x), y);
    }
  }

  lemma {:induction false} SlopeUnfold(coeffs: seq<real>, x: real)
    requires |coeffs| > 0
    ensures Slope(coeffs, x) == AddPadded(coeffs[1..], ScalePoly(x, Slope(coeffs[1..], x)))
  {
  }

  lemma {:induction false} PolyEvalUnfold(coeffs: seq<real>, y: real)
    requires |coeffs| > 0
    ensures PolyEval(coeffs, y) == coeffs[0] + y * PolyEval(coeffs[1..], y)
  {
  }

  lemma {:induction false} PolyEvalEmpty(coeffs: seq<real>, y: real)
    requires |coeffs| == 0
    ensures PolyEval(coeffs, y) == 0.0
  {
  }

  lemma {:induction false} SlopeArith(ry: real, rx: real, sy: real, x: real, y: real)
    requires ry - rx == (y - x) * sy
    ensures y * ry - x * rx == (y - x) * (ry + x * sy)
  {
    calc {
      y * ry - x * rx;
      (y - x) * ry + x * (ry - rx);
      (y - x) * ry + x * ((y - x) * sy);
      (y - x) * (ry + x * sy);
    }
  }

  /** At y = x the difference quotient is the value of the derivative polynomial: DerivativeCoeffs is the derivative. */
  lemma {:induction false} SlopeAtPoint(coeffs: seq<real>, x: real)
    ensures PolyEval(Slope(coeffs, x), x) == PolyEval(DerivativeCoeffs(coeffs), x)
    decreases |coeffs|
  {
    hide *;
    var d := DerivativeCoeffs(coeffs);
    if |coeffs| <= 1 {
      PolyEvalEmpty(Slope(coeffs, x), x);
      DerivativeOfConstant(coeffs, x);
    } else {
      var r := coeffs[1..];
      var s := Slope(r, x);
      SlopeUnfold(coeffs, x);
      SlopeAtPoint(r, x);
      PolyEvalAddPadded(r, ScalePoly(x, s), x);
      PolyEvalScale(x, s, x);
      if |coeffs| == 2 {
        assert d[0] == 1.0 * coeffs[1];
        assert d == r;
        PolyEvalEmpty(s, x);
      } else {
        DerivativeShift(coeffs, x);
      }
    }
  }

  lemma {:induction false} DerivativeOfConstant(coeffs: seq<real>, x: real)
    requires |coeffs| <= 1
    ensures PolyEval(DerivativeCoeffs(coeffs), x) == 0.0
  {
    assert DerivativeCoeffs(coeffs) == [0.0];
    assert [0.0][1..] == [];
  }

  /** The derivative's coefficients split like Horner's rule: d(x) = r(x) + x r'(x) for r the coefficients after the first. */
  lemma {:induction false} DerivativeShift(coeffs: seq<real>, x: real)
    requires |coeffs| >= 3
    ensures PolyEval(DerivativeCoeffs(coeffs), x) == PolyEval(coeffs[1..], x) + x * PolyEval(DerivativeCoeffs(coeffs[1..]), x)
  {
    var r := coeffs[1..];
    var d := DerivativeCoeffs(coeffs);
    var dr := DerivativeCoeffs(r);
    forall i | 1 <= i < |d|
      ensures d[i] == r[i] + dr[i - 1]
    {
      assert (i - 1) + 1 == i;
      var ri := r[i];
      assert d[i] == ((i + 1) as real) * ri;
      assert dr[i - 1] == (i as real) * ri;
    }
    assert d[0] == r[0];
    hide PolyEval;
    hide DerivativeCoeffs;
    PolyEvalShiftAdd(r, dr, d, x);
  }

  /** The source's example: the derivative of 1 + 2x + 3x^2 is 2 + 6x. */
  lemma {:induction false} DerivativeCoeffsExample()
    ensures DerivativeCoeffs([1.0, 2.0, 3.0]) == [2.0, 6.0]
  {
  }

  /** evaluate_polynomial_error: |p(root)|, zero exactly at a root. */
  function EvaluatePolynomialError(coeffs: seq<real>, root: real): (e: real)
    ensures e >= 0.0 && (e == 0.0 <==> PolyEval(coeffs, root) == 0.0)
    ensures e == Abs(PowerSum(coeffs, root))
  {
    HornerIsPowerSum(coeffs, root);
    Abs(PolynomialFromCoeffs(coeffs)(root))
  }
}
