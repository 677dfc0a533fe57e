# NewtonBernstein in Dafny

This project models the polynomial core of NewtonBernstein over the reals and proves properties of the model. The core has two parts.

**Root isolation in Bernstein form** (`src/`):
- `BernsteinPolynomial` is a coefficient sequence on an interval `[a, b]`. Its operations are:
  - conversion from the power basis;
  - de Casteljau evaluation, derivative and subdivision;
  - coefficient bounds and the sign-change count;
  - conversion back to the power basis.
- `NewtonBernstein` finds the roots of a power-basis polynomial on an interval. Each call tries, in order:
  - a depth guard;
  - an exclusion test on the Bernstein coefficients;
  - a tiny-interval test;
  - a Newton shortcut from the midpoint;
  - bisection.

  It keeps three counters. It merges close roots and sorts the result.
- The helpers in `src/utils.py`: sign changes, Newton step and iteration, interval tests, root merging, and polynomial evaluation and differentiation.

**Newton–Bernstein interpolation**:
- It computes the divided-difference table of the data.
- A degree-raising recurrence then turns the Newton form into Bernstein control points on `[0, 1]`.
- There are three copies. The class `NewtonBernsteinUnivariate` in `python/newton_bernstein_univariate.py` is one. The other two are the scripts `python/nb_univariate.py` and `nb_core.py`, which compute the same values in their core functions (`python/nb_univariate.py:7-100`, `nb_core.py:6-65`) and are modelled once (module `Interpolation`). Their function names, dictionary keys and labels differ, and only `python/nb_univariate.py` has the basis helpers `bernstein_basis_value` and `bernstein_basis_vector`.

Modules, one per file:
- `Sums`, `Binomial`, `Poly`, `BernsteinBasis`, `Conversion`: the mathematics.
  - finite sums;
  - `Pow`, `Binom` and the binomial theorem;
  - power-basis polynomials and their shift;
  - the Bernstein basis, Bernstein sums and de Casteljau's recurrence;
  - the two basis conversions.
- `Bernstein` (`src/bernstein.py`): the polynomial as a datatype `BernsteinPolynomial(coefficients, a, b)`. Its loops are methods proved against the functions that specify them.
- `Utils` (`src/utils.py`).
- `RootFinder` (`src/newton_bernstein.py`): a class whose counter fields change in place. The recursive search is specified by a function `Search` that returns the roots together with the counter increments. The method `FindRootsRecursive` is proved to return those roots and to add exactly those increments.
- `NewtonForm`: divided differences, the Newton form, and its interpolation property.
- `DegreeRaising`: the vectors `w` and `c` after each step of the recurrence, in both forms:
  - corrected: entry 0 is updated;
  - as the scripts write it: entry 0 is never updated.
- `Univariate` (`python/newton_bernstein_univariate.py`): a class with the cached fields `dividedDifferences` and `controlPoints`.
- `Interpolation` (`python/nb_univariate.py`, `nb_core.py`).
- `Wrappers`: the `Result` type. A raised exception is modelled as a `Failure` carrying the exception's message.

How the model reads the source:
- Floating-point values are modelled as `real`, so arithmetic is exact.
- `1e-14`, the default tolerance `1e-10`, the 100 subdivisions and the 50 Newton iterations are real and integer constants.
- Python default arguments are Dafny default parameters with the same values: `tol = 1e-10` and `max_iter = 100` of `newton_raphson`, `margin = 0` of `is_in_interval`, `tol = 1e-6` of `merge_close_roots`, the interval `(0, 1)` of `from_power_basis`, `t = 0.5` of `subdivide` and `n = 15` of both Example 2.1 generators.
- `f` and `df` are the polynomial and its derivative, stored as total functions on reals.

The model follows the code where the documentation says otherwise:
- `from_power_basis` is not a basis conversion: as written it divides each shifted coefficient by `C(n, i)`.
- `to_power_basis` is correct only on intervals that start at 0.
- The Newton shortcut returns a single root for a whole interval. `RootFinder.NewtonBernstein.ShortcutMissesRoots` shows it on the cubic (x - 1)(x - 2)(x - 3) over [0, 4]: the search returns only 2, although 1 and 3 are roots there. Finding all roots is not what the code does, so no corrected member is modelled (see "## Left out").
- The two scripts never set `w_new[0]`.

The table under "## Findings" gives the other three, each with an input that shows it.

## Model

| member | source | states |
|---|---|---|
| Poly.HornerIsPowerSum | src/utils.py:150-160 | Horner evaluation (what `np.polyval` computes on the reversed coefficients) equals the sum of c_i x^i |
| Binomial.BinomialTheorem | src/bernstein.py:76-79 | the sum of C(n, i) u^i v^(n-i) over i is (u + v)^n, the expansion the coefficient shift is built on |
| Poly.ShiftedCorrect | src/bernstein.py:66-81 | the shifted coefficients q satisfy q(t) = p(a + t h) for every t |
| BernsteinBasis.PartitionOfUnity | src/bernstein.py:161-171 | the degree-n basis functions sum to 1 at every t |
| BernsteinBasis.BasisNonNegative | src/bernstein.py:161-171 | every basis function is non-negative on [0, 1] |
| BernsteinBasis.StepPreservesBSum | src/bernstein.py:100-102 | one level of de Casteljau's recurrence keeps the Bernstein sum at t |
| BernsteinBasis.IterPreservesBSum | src/bernstein.py:100-102 | after j levels the shorter vector has the same Bernstein sum at t |
| BernsteinBasis.ApexIsBSum | src/bernstein.py:96-104 | the single entry left after n levels is the Bernstein sum at t |
| BernsteinBasis.BSumAtZero | src/bernstein.py:93-104 | the Bernstein sum at 0 is the first coefficient |
| BernsteinBasis.BSumAtOne | src/bernstein.py:93-104 | the Bernstein sum at 1 is the last coefficient |
| BernsteinBasis.BSumWithin | src/bernstein.py:161-171 | on [0, 1] the Bernstein sum lies between any lower and upper bound of the coefficients |
| BernsteinBasis.LeftEdgeCorrect | src/bernstein.py:146-151 | the first row of the triangle are coefficients of the same polynomial on [0, t]: their sum at s is the parent's at s t |
| BernsteinBasis.RightEdgeCorrect | src/bernstein.py:146-154 | the anti-diagonal of the triangle are coefficients of the same polynomial on [t, 1]: their sum at s is the parent's at t + s (1 - t) |
| BernsteinBasis.TimesTCorrect | python/newton_bernstein_univariate.py:105-106 | the degree-raised coefficients (j/k) w_(j-1) represent t times the polynomial of w |
| BernsteinBasis.TimesOneMinusTCorrect | python/newton_bernstein_univariate.py:105-106 | the degree-raised coefficients ((k-j)/k) w_j represent (1 - t) times the polynomial of w |
| Conversion.PowerFormCorrect | src/bernstein.py:201-207 | the first stage of `to_power_basis` gives power coefficients m with m(t) equal to the Bernstein sum at t |
| Conversion.BernsteinFormCorrect | src/bernstein.py:57-61 | the exact conversion (sum over j <= i of C(i, j) / C(n, j) q_j) has Bernstein sum q(t) |
| Bernstein.TransformToUnitInterval | src/bernstein.py:65-81 | the loop computes the shifted coefficients, so q(t) = p(a + t (b - a)) for every t |
| Bernstein.FromPowerBasis | src/bernstein.py:36-63 | as written: the coefficients are the shifted coefficients each divided by C(n, i), on the same interval |
| Bernstein.DividedByBinomialsSigns | src/bernstein.py:57-61 | each coefficient is positive, negative or zero exactly when the shifted coefficient q_i is |
| Bernstein.DividedByBinomialsLeadingOnly | src/bernstein.py:57-61 | when only the leading shifted coefficient is non-zero the conversion as written is exact |
| Bernstein.FromPowerBasisSquare | tests/test_bernstein.py:31-39 | x^2 on [0, 1] converts to a polynomial whose value at every x is x^2 |
| Bernstein.FromPowerBasisCounterexample | tests/test_bernstein.py:21-29 | 1 + 2x on [0, 1] converts to a polynomial whose value at 1 is 2, while 1 + 2x is 3 there |
| Bernstein.FromPowerBasisCorrected | src/bernstein.py:36-63 | the corrected conversion keeps the length and the interval |
| Bernstein.FromPowerBasisCorrectedExact | src/bernstein.py:36-63 | the corrected conversion's value at every x is p(x) |
| Bernstein.Evaluate | src/bernstein.py:83-104 | fails exactly on a degenerate interval or an empty coefficient list; otherwise the triangular loop returns the Bernstein sum at (x - a) / (b - a) |
| Bernstein.ValueAtEnds | src/bernstein.py:93-104 | the value at a is c_0 and the value at b is c_n |
| Bernstein.Bounds | src/bernstein.py:161-171 | fails exactly on no coefficients; otherwise both bounds are coefficients, and every coefficient lies between them |
| Bernstein.ValueWithinBounds | src/bernstein.py:161-171 | convex hull: for x in [a, b] the value lies between the two bounds |
| Bernstein.Derivative | src/bernstein.py:106-125 | fails exactly on no coefficients or on a degenerate interval of degree >= 1; otherwise returns the derivative polynomial |
| Bernstein.Differentiated | src/bernstein.py:106-125 | the derivative lives on the same interval and has n coefficients (one for degree 0) |
| Bernstein.DifferentiatedConstant | src/bernstein.py:113-114 | degree 0 gives [0] on the same interval |
| Bernstein.DifferentiatedEntry | src/bernstein.py:121-123 | coefficient i is (n / h) (c_(i+1) - c_i) |
| Bernstein.DerivativeIsSlope | src/bernstein.py:106-125 | p(y) - p(x) = (y - x) q(x, y) for a difference quotient q, and q(x, x) is the derivative's value at x |
| Bernstein.DiagonalIsDerivative | src/bernstein.py:106-125 | the difference quotient on the diagonal is the value of the derivative polynomial |
| Bernstein.DerivativeSquare | tests/test_bernstein.py:60-70 | the derivative of x^2 on [0, 1] is 0 at 0 and 2 at 1 |
| Bernstein.Halves | src/bernstein.py:137-159 | both children have n + 1 coefficients, on [a, a + t (b - a)] and [a + t (b - a), b] |
| Bernstein.Subdivide | src/bernstein.py:127-159 | fails exactly on no coefficients; otherwise returns the two children |
| Bernstein.Triangle | src/bernstein.py:142-148 | column l of the matrix holds level l of de Casteljau's recurrence |
| Bernstein.HalvesEnds | src/bernstein.py:150-154 | left[0] = c_0, right[n] = c_n and left[n] = right[0] |
| Bernstein.HalvesLeftValue | src/bernstein.py:156 | the left child's value equals the parent's value at every x |
| Bernstein.HalvesRightValue | src/bernstein.py:157 | the right child's value equals the parent's value at every x |
| Bernstein.SignChanges | src/bernstein.py:173-192 | delegates to `Utils.CountSignChanges`, whose loop counts the strict sign flips between neighbouring non-zero coefficients |
| Bernstein.NoSignChangeNoRoot | src/bernstein.py:173-192 | no sign change and a non-zero coefficient rule out a root inside (a, b) |
| Bernstein.ToPowerBasis | src/bernstein.py:194-218 | the result is the first stage followed by the rescale |
| Bernstein.PowerStage | src/bernstein.py:201-207 | the nested loop computes the signed binomial sums of the first stage |
| Bernstein.RescaleStage | src/bernstein.py:209-218 | the nested loop computes the rescaled coefficients |
| Bernstein.ToPowerBasisAtZero | src/bernstein.py:213-218 | on [0, b] the returned coefficients evaluate to the Bernstein polynomial's value at every x |
| Bernstein.ToPowerBasisCounterexample | src/bernstein.py:213-218 | on [1, 2] the coefficients [0, 1] give back [0, 1], which is 1 at x = 1 where the Bernstein polynomial is 0 |
| Bernstein.ToPowerBasisCorrected | src/bernstein.py:194-218 | the corrected conversion keeps the length |
| Bernstein.ToPowerBasisCorrectedExact | src/bernstein.py:194-218 | the corrected conversion evaluates to the Bernstein polynomial's value at every x |
| Bernstein.CorrectedRoundTrip | src/bernstein.py:194-218 | the corrected conversions compose to the identity on the polynomial's values |
| Bernstein.ExclusionSound | src/newton_bernstein.py:96-106 | with the conversion as written, a positive minimum (or negative maximum) of the coefficients makes p positive (negative) on all of [a, b] |
| Bernstein.CorrectedExclusionSound | src/newton_bernstein.py:96-106 | the same exclusion with the corrected conversion |
| Utils.CountSignChanges | src/utils.py:12-34 | the loop returns the number of strict flips between neighbouring non-zero signs |
| Utils.FlipsBound | src/utils.py:26-34 | at most one flip fewer than the non-zero entries, and 0 when there is at most one |
| Utils.FlipsParity | src/utils.py:29-34 | the count is even exactly when the first and last non-zero signs agree |
| Utils.SignChangesOneSided | src/utils.py:12-34 | a sequence that is all >= 0 or all <= 0 has no sign change |
| Utils.SignChangesIncreasing | tests/test_utils.py:19 | [1, 2, 3] has 0 sign changes |
| Utils.SignChangesOneFlip | tests/test_utils.py:22 | [1, -1] has 1 sign change |
| Utils.SignChangesTwoFlips | tests/test_utils.py:25 | [1, -1, 2] has 2 sign changes |
| Utils.SignChangesSkipsZero | tests/test_utils.py:28 | [1, 0, -1] has 1 sign change, the zero being ignored |
| Utils.IntervalWidth | src/utils.py:37-47 | the width is non-negative exactly when a <= b, and zero exactly when a = b |
| Utils.IsInInterval | src/utils.py:109-123 | x is in [a - margin, b + margin] exactly when its distance from the midpoint is at most half the width plus the margin; the margin defaults to 0 |
| Utils.InIntervalWithinWidth | src/utils.py:109-123 | with no margin, x is in the interval exactly when 0 <= x - a <= width |
| Utils.IsInIntervalExamples | tests/test_utils.py:59-67 | with the default margin 0, 1, 1.5 and 2 lie in [1, 2] and 0 and 3 do not; with margin 0.2, 0.9 does |
| Utils.NewtonStep | src/utils.py:50-68 | fails exactly when abs(df(x0)) < 1e-14; otherwise the result is the zero of the tangent at x0 |
| Utils.NewtonStepExample | tests/test_utils.py:36-46 | for x^2 - 4 from 3 the step gives 13/6 |
| Utils.NewtonRaphson | src/utils.py:71-106 | the loop returns the result of the iteration function, which runs at most max_iter steps |
| Utils.NewtonStopsOnFlatDerivative | src/utils.py:88-104 | from a point with abs(f) >= tol, a derivative below 1e-14 (in particular 0) returns that point unconverged |
| Utils.NewtonConvergedIsRoot | src/utils.py:86-106 | the result is reported converged exactly when abs(f(root)) < tol, on every exit of the loop |
| Utils.SortAscending | src/utils.py:140 | `sorted`: ascending and a permutation of its input |
| Utils.MergeSorted | src/utils.py:141-147 | the merged list is non-empty, no longer than its input and starts with the first input root (the smallest, for sorted input) |
| Utils.MergeCloseRoots | src/utils.py:126-147 | the loop returns the merge of the sorted roots |
| Utils.MergedShape | src/utils.py:126-147 | empty exactly for empty input; ascending; neighbours differ by more than tol; a sub-multiset of the input; starts with the minimum |
| Utils.MergedCovers | src/utils.py:141-147 | every input root r has a kept root m with 0 <= r - m <= tol |
| Utils.MergedIdempotent | src/utils.py:141-147 | merging the merged list again changes nothing |
| Utils.PolynomialFromCoeffs | src/utils.py:150-160 | the returned function is the sum of c_i x^i |
| Utils.PolynomialFromCoeffsExample | tests/test_utils.py:79-87 | [1, 2, 3] at 2 gives 17 |
| Utils.DerivativeCoeffs | src/utils.py:163-177 | length 1 for at most one coefficient, otherwise n, with entry i equal to (i + 1) c_(i+1) |
| Utils.SlopeFactor | src/utils.py:163-177 | p(y) - p(x) = (y - x) s(y) for the slope polynomial s |
| Utils.SlopeAtPoint | src/utils.py:163-177 | the slope polynomial at x equals the derivative coefficients' polynomial at x, so those coefficients are p' |
| Utils.DerivativeCoeffsExample | tests/test_utils.py:89-98 | [1, 2, 3] gives [2, 6] |
| Utils.EvaluatePolynomialError | src/utils.py:194-206 | the error is abs(p(root)), non-negative and 0 exactly at a root |
| RootFinder.NewtonBernstein.constructor | src/newton_bernstein.py:24-49 | stores the coefficients, the tolerance and the depth limit, and zeroes the three counters |
| RootFinder.NewtonBernstein.MidpointRoot | src/newton_bernstein.py:108-113 | at most one root, with abs(f) < tolerance and inside the interval widened by the tolerance |
| RootFinder.NewtonBernstein.Search | src/newton_bernstein.py:72-139 | fails exactly when the coefficient list is empty and the depth guard does not stop first |
| RootFinder.NewtonBernstein.SearchDeep | src/newton_bernstein.py:86-93 | past the depth limit only the midpoint test runs and no counter moves |
| RootFinder.NewtonBernstein.SearchNoBounds | src/newton_bernstein.py:100-101 | with no coefficients the bounds fail and the search fails with them |
| RootFinder.NewtonBernstein.SearchExcluded | src/newton_bernstein.py:103-106 | exclusion returns no roots and adds exactly one exclusion |
| RootFinder.NewtonBernstein.SearchTiny | src/newton_bernstein.py:108-113 | a tiny interval returns the midpoint test's result and no counter moves |
| RootFinder.NewtonBernstein.ShortcutMissesRoots | src/newton_bernstein.py:115-128 | for (x - 1)(x - 2)(x - 3) on [0, 4], which has the roots 1 and 3 in the interval, the search returns [2] alone, after one Newton call (the cubic of tests/test_newton_bernstein.py:31-40) |
| RootFinder.NewtonBernstein.SearchShortcut | src/newton_bernstein.py:115-128 | an accepted Newton result is the one root returned, with one Newton step and no subdivision |
| RootFinder.NewtonBernstein.SearchSplit | src/newton_bernstein.py:130-139 | otherwise the result is left ++ right over (a, mid) and (mid, b), with one subdivision and one Newton step added to the children's counts |
| RootFinder.NewtonBernstein.SearchResidual | src/newton_bernstein.py:87-137 | every root returned has abs(f) < tolerance |
| RootFinder.NewtonBernstein.SearchWithin | src/newton_bernstein.py:87-137 | every root returned lies in [a - tolerance, b + tolerance] |
| RootFinder.NewtonBernstein.SearchAccounting | src/newton_bernstein.py:116-139 | subdivisions never exceed Newton steps |
| RootFinder.NewtonBernstein.SearchRootCount | src/newton_bernstein.py:87-139 | at most 2^(max_subdivisions + 1 - depth) roots, following the depth measure that makes the recursion terminate |
| RootFinder.NewtonBernstein.ExclusionHasNoRoot | src/newton_bernstein.py:96-106 | when the exclusion test fires, f has no zero on [a, b] |
| RootFinder.NewtonBernstein.FindRootsRecursive | src/newton_bernstein.py:72-139 | returns the roots of the search and adds exactly its counts to the three counters, none on failure |
| RootFinder.NewtonBernstein.Roots | src/newton_bernstein.py:51-70 | fails exactly when the coefficient list is empty and the depth limit is not negative |
| RootFinder.NewtonBernstein.FindRoots | src/newton_bernstein.py:51-70 | returns the merged, sorted search result; the counters start from 0 and end at the search's counts |
| RootFinder.NewtonBernstein.VerifyRoots | src/newton_bernstein.py:141-151 | one (r, abs(f(r))) pair per root in input order, the error 0 exactly at a zero |
| RootFinder.NewtonBernstein.GetStatistics | src/newton_bernstein.py:153-165 | reports the three counters and the degree len(coeffs) - 1 |
| RootFinder.FindRoots | src/newton_bernstein.py:171-191 | fails exactly on an empty coefficient list; otherwise the roots are strictly ascending, separated by more than tolerance, have abs(p) < tolerance, and lie within tolerance of [a, b] |
| RootFinder.VerifiedRootsWithinTolerance | src/newton_bernstein.py:141-151 | verifying the roots found gives errors below the tolerance |
| RootFinder.RootsShape | src/newton_bernstein.py:61-70 | the roots found are strictly ascending, separated, residual-bounded and within the interval |
| NewtonForm.DividedDifferenceUnfold | python/newton_bernstein_univariate.py:62-64 | f[x_k..x_(k+s)] = (f[x_(k+1)..x_(k+s)] - f[x_k..x_(k+s-1)]) / (x_(k+s) - x_k) on distinct nodes |
| NewtonForm.InterpolantAtNode | python/newton_bernstein_univariate.py:166-199 | the Newton interpolant on x_i..x_(i+s) takes the data value at each of those nodes |
| NewtonForm.NewtonSumIsInterpolant | python/newton_bernstein_univariate.py:191-197 | the accumulated sum with row 0 of the table is the Newton interpolant |
| NewtonForm.NewtonSumInterpolates | python/newton_bernstein_univariate.py:166-199 | with distinct nodes the Newton form equals f_k at x_k |
| NewtonForm.TableEntryStep | python/newton_bernstein_univariate.py:62-64 | the table's entries follow the recurrence of the loop |
| NewtonForm.TableFirstRow | python/newton_bernstein_univariate.py:87-93 | row 0 of a table on distinct nodes holds f[x_0..x_m] |
| NewtonForm.GappedAll | python/newton_bernstein_univariate.py:56-61 | once every pair (k, k + s) has been checked, all nodes are distinct |
| DegreeRaising.RaiseValue | python/newton_bernstein_univariate.py:103-114 | raising w at step k multiplies its polynomial by (t - x_(k-1)) |
| DegreeRaising.ElevateValue | python/newton_bernstein_univariate.py:103-115 | the new c represents the old c's polynomial plus f[x_0..x_k] times the new w's |
| DegreeRaising.NodeVectorValue | python/newton_bernstein_univariate.py:97-119 | after step k, w[0..k] are the Bernstein coefficients of (t - x_0)...(t - x_(k-1)) |
| DegreeRaising.ControlVectorValue | python/newton_bernstein_univariate.py:97-119 | after step k, c[0..k] are the Bernstein coefficients of the Newton form truncated at k |
| DegreeRaising.ZeroAbove | python/newton_bernstein_univariate.py:97-119 | after step k the entries above k of w and c are 0, in both versions |
| DegreeRaising.ControlPointsNewtonForm | python/newton_bernstein_univariate.py:103-115 | the final control points represent the Newton form, so c[0] is its value at 0 and c[n] its value at 1 |
| DegreeRaising.ControlPointsInterpolate | python/newton_bernstein_univariate.py:69-122 | with distinct nodes, the Bernstein sum of the final control points at x_k is f_k |
| DegreeRaising.AsWrittenFirstEntries | python/nb_univariate.py:51-57 | without the entry-0 updates c[0] stays f[x_0] and w[0] is 0 after the first step |
| DegreeRaising.AsWrittenLastEntries | nb_core.py:35-47 | w[k] is the node product at 1 and c[k] the truncated Newton form at 1 |
| DegreeRaising.AsWrittenMissesFirstNode | nb_core.py:36-44 | for nodes 0.5, 1 and data 0, 1 the corrected control points are -1, 1 and the as-written ones are 0, 1, whose polynomial is 0.5 at the node 0.5 |
| Univariate.NodeParameterRange | python/newton_bernstein_univariate.py:151-153 | the parameter (x - min) / (max - min) of `NodeParameter` is undone by min + t (max - min), and lies in [0, 1] exactly when x lies between the smallest and the largest node |
| Univariate.NodeParameterOnUnitInterval | python/newton_bernstein_univariate.py:151-153 | when the nodes span exactly [0, 1] the parameter is the point itself |
| Univariate.BernsteinMatchesNewtonOnUnitNodes | python/newton_bernstein_univariate.py:142-164 | on nodes spanning [0, 1] the Bernstein evaluation of the computed control points is the Newton form |
| Univariate.RescaledParameterMissesData | python/newton_bernstein_univariate.py:149-153 | for nodes 1, 2 and data 1, 2 the control points are 0, 1 and the evaluation at node 2 gives 1, not 2 |
| Univariate.SingleNode | python/newton_bernstein_univariate.py:151-153 | distinct nodes whose minimum equals their maximum are a single node, where the 0/0 parameter occurs |
| Univariate.EqualNodes | python/newton_bernstein_univariate.py:58-61 | two equal nodes make the nodes not distinct |
| Univariate.NewtonBernsteinUnivariate.constructor | python/newton_bernstein_univariate.py:15-34 | stores nodes and data, sets n = len(x_nodes) - 1 and leaves both caches empty |
| Univariate.NewtonBernsteinUnivariate.Create | python/newton_bernstein_univariate.py:26-31 | construction fails exactly when the data and the nodes differ in length |
| Univariate.NewtonBernsteinUnivariate.ComputeDividedDifferences | python/newton_bernstein_univariate.py:36-67 | fails exactly on no nodes or two equal nodes, storing nothing; otherwise stores and returns a fresh table of the divided differences |
| Univariate.NewtonBernsteinUnivariate.AlgorithmNewtonBernstein | python/newton_bernstein_univariate.py:69-122 | computes the table only when none is stored, fails exactly when that fails, and stores control points that equal the degree-raising result and take f_k at every node x_k |
| Univariate.NewtonBernsteinUnivariate.Steps | python/newton_bernstein_univariate.py:89-119 | the initialisation and the k loop produce the corrected control vector |
| Univariate.NewtonBernsteinUnivariate.DegreeStep | python/newton_bernstein_univariate.py:97-119 | one step yields the raised w and the elevated c, entry 0 included |
| Univariate.NewtonBernsteinUnivariate.UpperEntries | python/newton_bernstein_univariate.py:103-111 | the descending j loop fills entries k..1 and leaves entry 0 and the entries above k at 0 |
| Univariate.NewtonBernsteinUnivariate.EvaluateNewton | python/newton_bernstein_univariate.py:166-199 | fails exactly without a table; otherwise returns the Newton form, which is f_k at the node x_k |
| Univariate.NewtonBernsteinUnivariate.EvaluateBernstein | python/newton_bernstein_univariate.py:124-164 | fails exactly without control points; otherwise returns their Bernstein sum at (x - min) / (max - min), which is c_0 for a single node |
| Interpolation.DividedDifferences | python/nb_univariate.py:7-16 | fails exactly on no nodes; otherwise returns a fresh table of the divided differences; `divided_diffs` at `nb_core.py:6-13` computes the same table |
| Interpolation.BernsteinBasisValue | python/nb_univariate.py:19-20 | C(n, j) x^j (1 - x)^(n - j) is non-negative on [0, 1], is 1 at x = 0 exactly for j = 0 and 0 otherwise, and 1 at x = 1 exactly for j = n and 0 otherwise |
| Interpolation.BernsteinBasisValueProperties | python/nb_univariate.py:19-25 | the basis value is B^n_j(x), non-negative on [0, 1], and the values sum to 1 |
| Interpolation.EvaluateBernsteinPoly | python/nb_univariate.py:28-36 | the loop returns the Bernstein sum, which is c[0] at 0 and c[n] at 1; `bernstein_poly_eval` at `nb_core.py:16-23` computes the same sum |
| Interpolation.AlgorithmNewtonBernstein | python/nb_univariate.py:39-71 | fails exactly on no nodes; otherwise returns the as-written control vector and the table, with c[0] = f_0 and c[n] the Newton form at 1; `newton_bernstein` at `nb_core.py:26-53` computes the same control points |
| Interpolation.AsWrittenSteps | python/nb_univariate.py:44-62 | the initialisation and the k loop produce the as-written control vector |
| Interpolation.AsWrittenStep | python/nb_univariate.py:50-62 | one step yields w without entry 0 and c with c[0] copied |
| Interpolation.RaisedEntries | python/nb_univariate.py:54-55 | the ascending j loop fills entries 1..k of w_new; entry 0 stays 0 |
| Interpolation.ElevatedEntries | python/nb_univariate.py:57-59 | c_new[0] = c[0] and the ascending j loop fills entries 1..k |
| Interpolation.InterpolationError | python/nb_univariate.py:90-100 | fails exactly on no nodes; the maximum bounds every error and is one of them, the mean lies in [0, max], and the maximum is 0 exactly when the polynomial matches the data at every node; `interpolation_error` at `nb_core.py:56-65` computes the same maximum and mean under the keys `max` and `mean` |
| Interpolation.CorrectedHasNoError | python/nb_univariate.py:90-100 | the corrected control points have maximum and mean error 0 |
| Interpolation.ScriptMissesFirstNode | python/nb_univariate.py:51-57 | on nodes 0.5, 1 with data 0, 1 the scripts' control points are 0, 1 and their maximum error is 0.5 |
| Interpolation.Example21Nodes | python/nb_univariate.py:75 | node i is (i + 1) / (n + 2) for i = 0..n; the nodes are strictly increasing inside (0, 1) |
| Interpolation.Example21Powers | python/nb_univariate.py:77 | f1 = (1 - x)^n is the basis polynomial B^n_0 at each node |
| Interpolation.Example21UniformNodes | python/nb_univariate.py:74-87 | n defaults to 15; the nodes are Example21Nodes(n), which are distinct; f1 is (1 - x)^n at the nodes and f2, f3 are the two fixed vectors; a data set has one value per node exactly when it is f1 or n = 15 |
| Interpolation.Example21Data | nb_core.py:68-78 | the same nodes and data sets, with the short labels |

## Left out

- Floating point: everything is exact real arithmetic. The IEEE results (`inf`, `nan`) and the `ZeroDivisionError`/`OverflowError` handler in `newton_raphson` (src/utils.py:103-104) are not modelled.
- numpy vectorisation: the evaluators take one point, not an array (`np.atleast_1d`, broadcasting).
- The `info` dictionaries, which use `np.linalg.cond` and `norm`, are not modelled. Neither are the l2 and relative l2 errors of `compute_interpolation_error`/`interpolation_error`, which take square roots.
- python/newton_bernstein_univariate.py beyond the class's five operations is not part of this model:
  - `compute_error`, a square-root and R² computation;
  - the examples class, with its undefined `chebpts1`;
  - plotting.
- Printing, plotting and drivers: `print_summary_table`, `plot_interpolation`, `run_example_2_1`, `custom_interpolation_example`, `run_batch`, `format_root`, `plot_polynomial_with_roots` and `__repr__`/`__str__`.
- `np.math.comb` is modelled as the binomial coefficient. Recent numpy versions no longer provide `np.math`.
- Interpolation.DividedDifferences: requires distinct nodes, because with equal nodes the script divides by zero and fills the table with `inf`/`nan`.
- Interpolation.DividedDifferences: requires as many data values as nodes; numpy's broadcasting of a single value, and its error for other lengths, are not modelled.
- Interpolation.AlgorithmNewtonBernstein: requires distinct nodes and matching lengths, for the same two reasons.
- Interpolation.BernsteinBasisValue: requires j <= n. Above n, `comb` gives 0 and `(1 - x)` is raised to a negative power.
- Interpolation.Example21UniformNodes: the labels are kept as strings. The 16-entry vectors are constants, so their lengths are stated as facts about those constants.
- Univariate.NewtonBernsteinUnivariate.EvaluateBernstein: for a single node the source computes the parameter as 0/0, which is `nan`. The model uses 0 instead, so the result is c_0 whatever the parameter.
- Univariate.NewtonBernsteinUnivariate.Create: the source sets `n` before it raises. The model creates no object on failure.
- Bernstein.Evaluate: empty coefficients and a degenerate interval are failures. In the source they are an `IndexError` and a division by zero.
- Bernstein.ToPowerBasis: requires a non-degenerate interval at degree 1 or more, as does `RescaleStage`, which it calls. When a == b the source divides by `h ** i = 0` and returns numpy `inf`/`nan` values, which reals cannot represent.
- RootFinder.NewtonBernstein.FindRoots: the recursion depth of the interpreter and Python's exceptions inside `f` are not modelled.
- The end-to-end root lists asserted in tests/test_newton_bernstein.py are not proved. The shortcut returns a single root per interval (src/newton_bernstein.py:125-128), so the code as written does not produce those lists; `RootFinder.NewtonBernstein.ShortcutMissesRoots` proves this for the three-root cubic. A search that returns every root is not modelled.
- Utils.NewtonRaphson: `f` and `df` are total functions on reals. A user-supplied callable that raises is not modelled.

## Findings

| source | as written | input that shows it | evidently intended | confidence | as-written member | corrected member |
|---|---|---|---|---|---|---|
| src/bernstein.py:57-61 | `comb(j, i)` with `j <= i` is 0 unless `j == i`, so `c_i = q_i / C(n, i)` | `1 + 2x` on [0, 1] evaluates to 2 at x = 1 instead of 3 (tests/test_bernstein.py:29) | `c_i = sum over j <= i of C(i, j) / C(n, j) q_j` | high (not executed) | Bernstein.FromPowerBasisCounterexample | Bernstein.FromPowerBasisCorrectedExact |
| src/bernstein.py:213-218 | the rescale uses `(-a)^(j-i) / h^i`, which inverts `t = (x - a) / h` only when a = 0 | Bernstein coefficients [0, 1] on [1, 2] give power coefficients [0, 1], which are 1 at x = 1 where the polynomial is 0 | substitute `t = (x - a) / h` into the first stage | high (not executed) | Bernstein.ToPowerBasisCounterexample | Bernstein.ToPowerBasisCorrectedExact |
| python/nb_univariate.py:51-57 | `w_new[0]` is never set and `c_new[0] = c[0]` | nodes [0.5, 1], data [0, 1]: control points [0, 1], value 0.5 at the node 0.5 instead of 0 | `w_new[0] = -w[0] x_(k-1)` and `c_new[0] = c[0] + dd[0, k] w_new[0]`, as in python/newton_bernstein_univariate.py:114-115 | high (not executed) | Interpolation.ScriptMissesFirstNode | DegreeRaising.ControlPointsInterpolate |
| nb_core.py:36-42 | the same omission in `newton_bernstein` | the same nodes and data | the same two updates | high (not executed) | DegreeRaising.AsWrittenMissesFirstNode | DegreeRaising.ControlPointsInterpolate |
| python/newton_bernstein_univariate.py:149-153 | the point is rescaled to [min, max] of the nodes, although the control points are coefficients in the original variable on [0, 1] | nodes [1, 2], data [1, 2]: the evaluation at the node 2 gives 1 instead of 2 | evaluate the Bernstein sum at the point itself (or build the control points for the rescaled nodes) | medium (not executed) | Univariate.RescaledParameterMissesData | DegreeRaising.ControlPointsNewtonForm |
