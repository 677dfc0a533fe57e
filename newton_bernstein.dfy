/** NewtonBernstein: the recursive root search over an interval, with its counters, its root check and its statistics. */
module RootFinder {
  import opened Wrappers
  import opened Poly
  import opened Bernstein
  import opened Utils

  /** The tolerance and the depth limit the solver takes when none is given. */
  const DefaultTolerance: real := 0.0000000001
  const DefaultMaxSubdivisions: int := 100

  /** The cap on Newton iterations of the shortcut. */
  const NewtonIterations: int := 50

  /** How often a search bisected, tried Newton's method and excluded an interval. */
  datatype Counts = Counts(subdivisions: nat, newtonSteps: nat, exclusions: nat)
  {
    function Plus(other: Counts): Counts
    {
      Counts(subdivisions + other.subdivisions, newtonSteps + other.newtonSteps, exclusions + other.exclusions)
    }
  }

  /** The roots a search returns, with the counter increments it makes. */
  datatype Found = Found(roots: seq<real>, counts: Counts)

  /** get_statistics' dictionary. */
  datatype Statistics = Statistics(numSubdivisions: nat, numNewtonSteps: nat, numExclusions: nat, polynomialDegree: int)

  /** 2^k. */
  function Pow2(k: nat): (r: nat)
    ensures r >= 1
  {
    if k == 0 then 1 else 2 * Pow2(k - 1)
  }

  /** The Horner value of (x - 1)(x - 2)(x - 3), with the coefficients lowest first. */
  lemma {:induction false} CubicHorner(x: real)
    ensures PolyEval([-6.0, 11.0, -6.0, 1.0], x) == -6.0 + x * (11.0 + x * (-6.0 + x))
  {
    var c := [-6.0, 11.0, -6.0, 1.0];
    assert c[1..] == [11.0, -6.0, 1.0] && c[1..][1..] == [-6.0, 1.0] && c[1..][1..][1..] == [1.0];
    assert [1.0][1..] == [];
    assert PolyEval([1.0], x) == 1.0;
    assert PolyEval([-6.0, 1.0], x) == -6.0 + x;
    assert PolyEval([11.0, -6.0, 1.0], x) == 11.0 + x * (-6.0 + x);
  }

  class NewtonBernstein {
    const powerCoeffs: seq<real>
    const degree: int
    const tolerance: real
    const maxSubdivisions: int
    /** The polynomial and its derivative as functions, built once from the power coefficients. */
    const f: real -> real
    const df: real -> real

    var numSubdivisions: nat
    var numNewtonSteps: nat
    var numExclusions: nat

    /** f and df are the polynomial and its derivative; degree is len(coefficients) - 1. */
    ghost predicate Valid()
    {
      f == PolynomialFromCoeffs(powerCoeffs)
      && df == PolynomialFromCoeffs(DerivativeCoeffs(powerCoeffs))
      && degree == |powerCoeffs| - 1
    }

    constructor (powerCoefficients: seq<real>, tolerance: real := DefaultTolerance, maxSubdivisions: int := DefaultMaxSubdivisions)
      ensures Valid()
      ensures powerCoeffs == powerCoefficients && this.tolerance == tolerance && this.maxSubdivisions == maxSubdivisions
      ensures numSubdivisions == 0 && numNewtonSteps == 0 && numExclusions == 0
    {
      powerCoeffs := powerCoefficients;
      degree := |powerCoefficients| - 1;
      this.tolerance := tolerance;
      this.maxSubdivisions := maxSubdivisions;
      f := PolynomialFromCoeffs(powerCoefficients);
      df := PolynomialFromCoeffs(DerivativeCoeffs(powerCoefficients));
      numSubdivisions := 0;
      numNewtonSteps := 0;
      numExclusions := 0;
    }

    /** The Bernstein form from_power_basis gives on (a, b). */
    function Form(a: real, b: real): BernsteinPolynomial
    {
      BernsteinPolynomial(DividedByBinomials(Shifted(powerCoeffs, a, b - a)), a, b)
    }

    /** The midpoint of a tiny interval when |f| is below the tolerance there, else nothing. */
    function MidpointRoot(a: real, b: real): (roots: seq<real>)
      ensures |roots| <= 1
      ensures forall x :: x in roots ==> Abs(f(x)) < tolerance
      ensures a <= b ==> forall x :: x in roots ==> a - tolerance <= x <= b + tolerance
    {
      if b - a < tolerance && Abs(f((a + b) / 2.0)) < tolerance then [(a + b) / 2.0] else []
    }

    /** The height of the recursion left below depth. */
    function Height(depth: int): nat
    {
      if depth > maxSubdivisions then 0 else maxSubdivisions + 1 - depth
    }

    /**
     * _find_roots_recursive on (a, b) at depth: the depth guard, the exclusion test on the Bernstein
     * coefficients, the tiny-interval test, the Newton shortcut from the midpoint, and bisection.
     * A Failure is the exception np.min raises on an empty coefficient list.
     */
    function Search(a: real, b: real, depth: int): (r: Result<Found>)
      ensures r.Failure? <==> |powerCoeffs| == 0 && depth <= maxSubdivisions
      decreases Height(depth)
    {
      if depth > maxSubdivisions then
        Success(Found(MidpointRoot(a, b), Counts(0, 0, 0)))
      else
        var bounds := Bounds(Form(a, b));
        if bounds.Failure? then
          Failure(bounds.error)
        else if bounds.value.0 > 0.0 || bounds.value.1 < 0.0 then
          Success(Found([], Counts(0, 0, 1)))
        else if b - a < tolerance then
          Success(Found(MidpointRoot(a, b), Counts(0, 0, 0)))
        else
          var mid := (a + b) / 2.0;
          var newton := NewtonIterate(f, df, mid, tolerance, Iterations(NewtonIterations));
          if newton.1 && IsInInterval(newton.0, a, b, tolerance) && Abs(f(newton.0)) < tolerance then
            Success(Found([newton.0], Counts(0, 1, 0)))
          else
            var left := Search(a, mid, depth + 1);
            var right := Search(mid, b, depth + 1);
            Success(Found(left.value.roots + right.value.roots, Counts(1, 1, 0).Plus(left.value.counts).Plus(right.value.counts)))
    }

    // One lemma per branch of Search, so that the method below can keep Search's body hidden.

    lemma {:induction false} SearchDeep(a: real, b: real, depth: int)
      requires depth > maxSubdivisions
      ensures Search(a, b, depth) == Success(Found(MidpointRoot(a, b), Counts(0, 0, 0)))
    {
    }

    lemma {:induction false} SearchNoBounds(a: real, b: real, depth: int)
      requires depth <= maxSubdivisions && Bounds(Form(a, b)).Failure?
      ensures Search(a, b, depth) == Failure(Bounds(Form(a, b)).error)
    {
    }

    lemma {:induction false} SearchExcluded(a: real, b: real, depth: int)
      requires depth <= maxSubdivisions && Bounds(Form(a, b)).Success?
      requires Bounds(Form(a, b)).value.0 > 0.0 || Bounds(Form(a, b)).value.1 < 0.0
      ensures Search(a, b, depth) == Success(Found([], Counts(0, 0, 1)))
    {
    }

    lemma {:induction false} SearchTiny(a: real, b: real, depth: int)
      requires depth <= maxSubdivisions && Bounds(Form(a, b)).Success?
      requires !(Bounds(Form(a, b)).value.0 > 0.0 || Bounds(Form(a, b)).value.1 < 0.0)
      requires b - a < tolerance
      ensures Search(a, b, depth) == Success(Found(MidpointRoot(a, b), Counts(0, 0, 0)))
    {
    }

    lemma {:induction false} SearchShortcut(a: real, b: real, depth: int, root: real)
      requires depth <= maxSubdivisions && Bounds(Form(a, b)).Success?
      requires !(Bounds(Form(a, b)).value.0 > 0.0 || Bounds(Form(a, b)).value.1 < 0.0)
      requires !(b - a < tolerance)
      requires NewtonIterate(f, df, (a + b) / 2.0, tolerance, Iterations(NewtonIterations)) == (root, true)
      requires IsInInterval(root, a, b, tolerance) && Abs(f(root)) < tolerance
      ensures Search(a, b, depth) == Success(Found([root], Counts(0, 1, 0)))
    {
    }

    lemma {:induction false} SearchSplit(a: real, b: real, depth: int)
      requires depth <= maxSubdivisions && Bounds(Form(a, b)).Success?
      requires !(Bounds(Form(a, b)).value.0 > 0.0 || Bounds(Form(a, b)).value.1 < 0.0)
      requires !(b - a < tolerance)
      requires var newton := NewtonIterate(f, df, (a + b) / 2.0, tolerance, Iterations(NewtonIterations));
        !(newton.1 && IsInInterval(newton.0, a, b, tolerance) && Abs(f(newton.0)) < tolerance)
      ensures Search(a, (a + b) / 2.0, depth + 1).Success? && Search((a + b) / 2.0, b, depth + 1).Success?
      ensures Search(a, b, depth) == Success(Found(
        Search(a, (a + b) / 2.0, depth + 1).value.roots + Search((a + b) / 2.0, b, depth + 1).value.roots,
        Counts(1, 1, 0).Plus(Search(a, (a + b) / 2.0, depth + 1).value.counts).Plus(Search((a + b) / 2.0, b, depth + 1).value.counts)))
    {
      hide NewtonIterate, Bounds, MidpointRoot, Abs, IsInInterval, Shifted, DividedByBinomials;
      var mid := (a + b) / 2.0;
      var left := Search(a, mid, depth + 1);
      var right := Search(mid, b, depth + 1);
      assert left.Success? && right.Success?;
      assert Search(a, b, depth) == Success(Found(left.value.roots + right.value.roots, Counts(1, 1, 0).Plus(left.value.counts).Plus(right.value.counts)));
    }

    /** Every root the search emits has |f| below the tolerance. */
    lemma {:induction false} SearchResidual(a: real, b: real, depth: int)
      ensures Search(a, b, depth).Success? ==> forall x :: x in Search(a, b, depth).value.roots ==> Abs(f(x)) < tolerance
      decreases Height(depth)
    {
      hide Search, Shifted, DividedByBinomials, NewtonIterate, Bounds, Form, MidpointRoot;
      if depth > maxSubdivisions {
        SearchDeep(a, b, depth);
      } else if Bounds(Form(a, b)).Failure? {
        SearchNoBounds(a, b, depth);
      } else if Bounds(Form(a, b)).value.0 > 0.0 || Bounds(Form(a, b)).value.1 < 0.0 {
        SearchExcluded(a, b, depth);
      } else if b - a < tolerance {
        SearchTiny(a, b, depth);
      } else {
        var newton := NewtonIterate(f, df, (a + b) / 2.0, tolerance, Iterations(NewtonIterations));
        if newton.1 && IsInInterval(newton.0, a, b, tolerance) && Abs(f(newton.0)) < tolerance {
          SearchShortcut(a, b, depth, newton.0);
        } else {
          SearchSplit(a, b, depth);
          SearchResidual(a, (a + b) / 2.0, depth + 1);
          SearchResidual((a + b) / 2.0, b, depth + 1);
        }
      }
    }

    /** Every root the search emits on (a, b) lies in [a - tol, b + tol]. */
    lemma {:induction false} SearchWithin(a: real, b: real, depth: int)
      requires a <= b
      ensures Search(a, b, depth).Success? ==> forall x :: x in Search(a, b, depth).value.roots ==> a - tolerance <= x <= b + tolerance
      decreases Height(depth)
    {
      hide Search, Shifted, DividedByBinomials, NewtonIterate, Bounds, Form, Abs, MidpointRoot;
      if depth > maxSubdivisions {
        SearchDeep(a, b, depth);
      } else if Bounds(Form(a, b)).Failure? {
        SearchNoBounds(a, b, depth);
      } else if Bounds(Form(a, b)).value.0 > 0.0 || Bounds(Form(a, b)).value.1 < 0.0 {
        SearchExcluded(a, b, depth);
      } else if b - a < tolerance {
        SearchTiny(a, b, depth);
      } else {
        var newton := NewtonIterate(f, df, (a + b) / 2.0, tolerance, Iterations(NewtonIterations));
        if newton.1 && IsInInterval(newton.0, a, b, tolerance) && Abs(f(newton.0)) < tolerance {
          SearchShortcut(a, b, depth, newton.0);
        } else {
          var mid := (a + b) / 2.0;
          SearchSplit(a, b, depth);
          SearchWithin(a, mid, depth + 1);
          SearchWithin(mid, b, depth + 1);
          var left := Search(a, mid, depth + 1).value.roots;
          var right := Search(mid, b, depth + 1).value.roots;
          assert Search(a, b, depth).value.roots == left + right;
          forall x | x in left + right
            ensures a - tolerance <= x <= b + tolerance
          {
            if x in left {
              assert x <= mid + tolerance;
            } else {
              assert x in right;
              assert mid - tolerance <= x;
            }
          }
        }
      }
    }

    /** Each bisection follows a Newton attempt in the same call, so there are never more subdivisions than Newton steps. */
    lemma {:induction false} SearchAccounting(a: real, b: real, depth: int)
      ensures Search(a, b, depth).Success? ==> Search(a, b, depth).value.counts.subdivisions <= Search(a, b, depth).value.counts.newtonSteps
      decreases Height(depth)
    {
      hide Search, Shifted, DividedByBinomials, NewtonIterate, Bounds, Form, MidpointRoot;
      if depth > maxSubdivisions {
        SearchDeep(a, b, depth);
      } else if Bounds(Form(a, b)).Failure? {
        SearchNoBounds(a, b, depth);
      } else if Bounds(Form(a, b)).value.0 > 0.0 || Bounds(Form(a, b)).value.1 < 0.0 {
        SearchExcluded(a, b, depth);
      } else if b - a < tolerance {
        SearchTiny(a, b, depth);
      } else {
        var newton := NewtonIterate(f, df, (a + b) / 2.0, tolerance, Iterations(NewtonIterations));
        if newton.1 && IsInInterval(newton.0, a, b, tolerance) && Abs(f(newton.0)) < tolerance {
          SearchShortcut(a, b, depth, newton.0);
        } else {
          SearchSplit(a, b, depth);
          SearchAccounting(a, (a + b) / 2.0, depth + 1);
          SearchAccounting((a + b) / 2.0, b, depth + 1);
        }
      }
    }

    /** Termination by depth: at most one root per leaf of a binary recursion of height max_subdivisions + 1 - depth. */
    lemma {:induction false} SearchRootCount(a: real, b: real, depth: int)
      ensures Search(a, b, depth).Success? ==> |Search(a, b, depth).value.roots| <= Pow2(Height(depth))
      decreases Height(depth)
    {
      hide Search, Shifted, DividedByBinomials, NewtonIterate, Bounds, Form, MidpointRoot;
      if depth > maxSubdivisions {
        SearchDeep(a, b, depth);
      } else if Bounds(Form(a, b)).Failure? {
        SearchNoBounds(a, b, depth);
      } else if Bounds(Form(a, b)).value.0 > 0.0 || Bounds(Form(a, b)).value.1 < 0.0 {
        SearchExcluded(a, b, depth);
      } else if b - a < tolerance {
        SearchTiny(a, b, depth);
      } else {
        var newton := NewtonIterate(f, df, (a + b) / 2.0, tolerance, Iterations(NewtonIterations));
        if newton.1 && IsInInterval(newton.0, a, b, tolerance) && Abs(f(newton.0)) < tolerance {
          SearchShortcut(a, b, depth, newton.0);
        } else {
          SearchSplit(a, b, depth);
          SearchRootCount(a, (a + b) / 2.0, depth + 1);
          SearchRootCount((a + b) / 2.0, b, depth + 1);
        }
      }
    }

    /** The exclusion test is sound: when it discards (a, b), the polynomial keeps one strict sign on all of [a, b]. */
    lemma {:induction false} ExclusionHasNoRoot(a: real, b: real, x: real)
      requires Valid() && a < b && a <= x <= b
      requires Bounds(Form(a, b)).Success?
      ensures Bounds(Form(a, b)).value.0 > 0.0 ==> f(x) > 0.0
      ensures Bounds(Form(a, b)).value.1 < 0.0 ==> f(x) < 0.0
    {
      assert |powerCoeffs| >= 1;
      ExclusionSound(powerCoeffs, a, b, x);
      assert f(x) == PolyEval(powerCoeffs, x);
    }

    /**
     * The shortcut ends the search as soon as Newton's method converges from the midpoint, whatever other roots the
     * interval holds: for (x - 1)(x - 2)(x - 3) on [0, 4] the search returns the single root 2, although 1 and 3 are
     * roots in the interval too.
     */
    lemma {:induction false} ShortcutMissesRoots()
      requires Valid() && powerCoeffs == [-6.0, 11.0, -6.0, 1.0]
      requires 0.0 < tolerance < 1.0 && maxSubdivisions >= 0
      ensures f(1.0) == 0.0 && f(3.0) == 0.0
      ensures Search(0.0, 4.0, 0) == Success(Found([2.0], Counts(0, 1, 0)))
    {
      CubicHorner(1.0);
      CubicHorner(2.0);
      CubicHorner(3.0);
      assert f(1.0) == 0.0 && f(2.0) == 0.0 && f(3.0) == 0.0;
      assert |Form(0.0, 4.0).coefficients| >= 1;
      ExclusionHasNoRoot(0.0, 4.0, 1.0);
      assert NewtonIterate(f, df, (0.0 + 4.0) / 2.0, tolerance, Iterations(NewtonIterations)) == (2.0, true);
      SearchShortcut(0.0, 4.0, 0, 2.0);
    }

    /** _find_roots_recursive: the roots of Search, with the counters advanced by its counts. */
    method FindRootsRecursive(a: real, b: real, depth: int) returns (roots: Result<seq<real>>)
      modifies this
      ensures Search(a, b, depth).Success? ==> roots == Success(Search(a, b, depth).value.roots)
      ensures Search(a, b, depth).Failure? ==> roots == Failure(Search(a, b, depth).error)
      ensures Search(a, b, depth).Success? ==>
        var counts := Search(a, b, depth).value.counts;
        numSubdivisions == old(numSubdivisions) + counts.subdivisions
        && numNewtonSteps == old(numNewtonSteps) + counts.newtonSteps
        && numExclusions == old(numExclusions) + counts.exclusions
      ensures Search(a, b, depth).Failure? ==>
        numSubdivisions == old(numSubdivisions) && numNewtonSteps == old(numNewtonSteps) && numExclusions == old(numExclusions)
      decreases Height(depth)
    {
      hide Search, Shifted, DividedByBinomials, NewtonIterate, Bounds, PolynomialFromCoeffs, Abs, IsInInterval;
      if depth > maxSubdivisions {
        SearchDeep(a, b, depth);
        if b - a < tolerance {
          var mid := (a + b) / 2.0;
          if Abs(f(mid)) < tolerance {
            return Success([mid]);
          }
        }
        return Success([]);
      }
      var bernsteinPoly := FromPowerBasis(powerCoeffs, a, b);
      var bounds := Bounds(bernsteinPoly);
      if bounds.Failure? {
        SearchNoBounds(a, b, depth);
        return Failure(bounds.error);
      }
      var (minVal, maxVal) := bounds.value;
      if minVal > 0.0 || maxVal < 0.0 {
        SearchExcluded(a, b, depth);
        numExclusions := numExclusions + 1;
        return Success([]);
      }
      if b - a < tolerance {
        SearchTiny(a, b, depth);
        var mid := (a + b) / 2.0;
        if Abs(f(mid)) < tolerance {
          return Success([mid]);
        }
        return Success([]);
      }
      var mid := (a + b) / 2.0;
      var root, converged := NewtonRaphson(f, df, mid, tolerance, NewtonIterations);
      numNewtonSteps := numNewtonSteps + 1;
      if converged && IsInInterval(root, a, b, tolerance) {
        if Abs(f(root)) < tolerance {
          SearchShortcut(a, b, depth, root);
          return Success([root]);
        }
      }
      SearchSplit(a, b, depth);
      numSubdivisions := numSubdivisions + 1;
      var leftRoots := FindRootsRecursive(a, mid, depth + 1);
      var rightRoots := FindRootsRecursive(mid, b, depth + 1);
      return Success(leftRoots.value + rightRoots.value);
    }

    /** What find_roots returns: the roots of the search from depth 0, merged and sorted. */
    function Roots(a: real, b: real): (r: Result<seq<real>>)
      ensures r.Failure? <==> |powerCoeffs| == 0 && 0 <= maxSubdivisions
    {
      match Search(a, b, 0)
      case Failure(e) => Failure(e)
      case Success(found) => Success(SortAscending(Merged(found.roots, tolerance)))
    }

    /** find_roots: reset the counters, search from depth 0, merge close roots, sort. */
    method FindRoots(a: real, b: real) returns (roots: Result<seq<real>>)
      modifies this
      ensures roots == Roots(a, b)
      ensures Search(a, b, 0).Success? ==>
        var counts := Search(a, b, 0).value.counts;
        numSubdivisions == counts.subdivisions && numNewtonSteps == counts.newtonSteps && numExclusions == counts.exclusions
      ensures Search(a, b, 0).Failure? ==> numSubdivisions == 0 && numNewtonSteps == 0 && numExclusions == 0
    {
      numSubdivisions := 0;
      numNewtonSteps := 0;
      numExclusions := 0;
      var found := FindRootsRecursive(a, b, 0);
      if found.Failure? {
        return Failure(found.error);
      }
      var merged := MergeCloseRoots(found.value, tolerance);
      return Success(SortAscending(merged));
    }

    /** verify_roots: each root paired with |f| there, in input order. */
    function VerifyRoots(roots: seq<real>): (checked: seq<(real, real)>)
      ensures |checked| == |roots|
      ensures forall i :: 0 <= i < |roots| ==> checked[i].0 == roots[i] && checked[i].1 >= 0.0
      ensures forall i :: 0 <= i < |roots| ==> (checked[i].1 == 0.0 <==> f(roots[i]) == 0.0)
    {
      seq(|roots|, i requires 0 <= i < |roots| => (roots[i], Abs(f(roots[i]))))
    }

    /** get_statistics: the three counters of the last search and the degree. */
    function GetStatistics(): (s: Statistics)
      reads this
      ensures s.numSubdivisions == numSubdivisions && s.numNewtonSteps == numNewtonSteps && s.numExclusions == numExclusions
      ensures s.polynomialDegree == degree
    {
      Statistics(numSubdivisions, numNewtonSteps, numExclusions, degree)
    }
  }

  /** The module-level find_roots: a fresh solver with the default depth limit, searching (a, b). */
  method FindRoots(powerCoefficients: seq<real>, a: real, b: real, tolerance: real := DefaultTolerance) returns (roots: Result<seq<real>>)
    ensures roots.Failure? <==> |powerCoefficients| == 0
    ensures roots.Success? ==> StrictlyAscending(roots.value) && Separated(roots.value, tolerance)
    ensures roots.Success? ==> forall x :: x in roots.value ==> Abs(PolyEval(powerCoefficients, x)) < tolerance
    ensures roots.Success? && a <= b ==> forall x :: x in roots.value ==> a - tolerance <= x <= b + tolerance
  {
    var solver := new NewtonBernstein(powerCoefficients, tolerance);
    roots := solver.FindRoots(a, b);
    RootsShape(solver, a, b);
  }

  /** verify_roots on what find_roots returns reports an error below the tolerance for every root. */
  lemma {:induction false} VerifiedRootsWithinTolerance(nb: NewtonBernstein, a: real, b: real)
    requires nb.Valid()
    ensures nb.Roots(a, b).Success? ==>
      var checked := nb.VerifyRoots(nb.Roots(a, b).value);
      forall i :: 0 <= i < |checked| ==> checked[i].1 < nb.tolerance
  {
    RootsShape(nb, a, b);
    if nb.Roots(a, b).Success? {
      var roots := nb.Roots(a, b).value;
      forall i | 0 <= i < |roots|
        ensures nb.VerifyRoots(roots)[i].1 < nb.tolerance
      {
        assert roots[i] in roots;
      }
    }
  }

  predicate StrictlyAscending(s: seq<real>)
  {
    forall i, j :: 0 <= i < j < |s| ==> s[i] < s[j]
  }

  /**
   * What find_roots promises: the roots are strictly ascending, more than tol apart, each one has
   * |f| below the tolerance and lies in [a - tol, b + tol].
   */
  lemma {:induction false} RootsShape(nb: NewtonBernstein, a: real, b: real)
    requires nb.Valid()
    ensures nb.Roots(a, b).Success? ==>
      var roots := nb.Roots(a, b).value;
      StrictlyAscending(roots) && Separated(roots, nb.tolerance)
      && (forall x :: x in roots ==> Abs(nb.f(x)) < nb.tolerance && Abs(PolyEval(nb.powerCoeffs, x)) < nb.tolerance)
      && (a <= b ==> forall x :: x in roots ==> a - nb.tolerance <= x <= b + nb.tolerance)
  {
    var s := nb.Search(a, b, 0);
    nb.SearchResidual(a, b, 0);
    if a <= b {
      nb.SearchWithin(a, b, 0);
    }
    if s.Success? {
      var found := s.value.roots;
      var merged := Merged(found, nb.tolerance);
      MergedShape(found, nb.tolerance);
      SortAscendingSorted(merged);
      assert nb.Roots(a, b).value == merged;
      forall x | x in merged
        ensures x in found
      {
        assert x in multiset(merged);
      }
      forall x | x in merged
        ensures Abs(PolyEval(nb.powerCoeffs, x)) < nb.tolerance
      {
        assert nb.f(x) == PolynomialFromCoeffs(nb.powerCoeffs)(x);
      }
      if |merged| > 0 {
        assert merged[0] in found;
        assert nb.tolerance > 0.0;
        SeparatedStrict(merged, nb.tolerance);
      }
    }
  }

  /** An ascending list whose neighbours are more than a non-negative tol apart is strictly ascending. */
  lemma {:induction false} SeparatedStrict(s: seq<real>, tol: real)
    requires Ascending(s) && Separated(s, tol) && tol >= 0.0
    ensures StrictlyAscending(s)
  {
    forall i, j | 0 <= i < j < |s|
      ensures s[i] < s[j]
    {
      assert s[j] - s[j - 1] > tol;
      assert s[i] <= s[j - 1];
    }
  }
}
