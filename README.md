# Approximation routines of the interpolation and Bernstein-approximation tool

This project models the numerical core of a small desktop tool. The tool approximates a target function on an interval in four ways:

- a Bernstein polynomial of degree n;
- Lagrange interpolation through a list of nodes;
- a linear spline;
- a quadratic spline.

It also reports the largest error of each approximation on a 1000-point grid. Intervals are typed as strings of the form `[a,b]`, and two interval-string parsers are modelled as well.

All arithmetic uses exact Dafny `real`s. The target function is a parameter `f: real -> real`, and node lists are `seq<real>`. Each Python exception becomes an `Err` value of `Numeric.Result`:

| Python exception | Err value |
|---|---|
| `ValueError` of a guard | `InvalidInterval`, `NegativeDegree`, `NonPositiveDegree`, `LengthMismatch`, … |
| `ZeroDivisionError` | `ZeroDivision` |
| numpy `IndexError` | `IndexOutOfRange` |

numpy does not raise on a float division by zero. In the linear spline it yields inf or nan; the model writes this as `NonFinite`.

Modules:

- `Numeric`, `Series` and `Grid`: shared vocabulary.
  - Powers, binomial coefficients and absolute value.
  - Finite sums and products over `nat -> real`, with a double-product identity.
  - `numpy.linspace`, and the 1000-point error grid.
- `BernsteinBasis`: the Bernstein sum on [0, 1]. The binomial theorem, partition of unity, endpoint interpolation and the reproduction of constants are proved here.
- `Bernstein`: the top-level `BersteinFunctions.py`.
  - The affine maps between [a, b] and [0, 1].
  - The loop that accumulates the sum.
  - The absolute error.
- `BernsteinUI`: the variant in `PYTHONUI/BersteinFunctions.py`, which has its own n = 0 and n < 0 branches and a warning for points outside the interval.
- `BernsteinArray`: `bernstein_polynomial_on_0_1` of `PYTHONUI/main_app.py`. This is an in-place loop over an `array<real>`. The module also holds the guards and the sampling grid of `bernstein_approximation_general_interval`.
- `Lagrange`: `lagrange_interpolation`, the so-called derivative routine and `calculate_error`, each as nested loops.
  - The derivative routine computes the sum of y_i · L_i(x)^(n-2), and this is proved about it.
  - That sum is not a derivative.
- `Spline`: `linear_spline`.
  - `searchsorted` with side 'left', the clip, and numpy's negative indexing.
  - The segment's line.
- `QuadraticSpline`: `quadratic_spline`, as written and corrected (see Findings).
  - The corrected (n+1) × (n+1) system is assembled in place in an `array2`.
  - The evaluation formula is applied to a given solution vector c.
- `SplineError`: the spline `calculate_error`. Its quadratic branch uses the spline as written, which raises on the grid.
- `IntervalText`, `RootInterval`, `UiInterval`: the two `parse_interval_string` parsers and their regular languages.

## Model

| member | source | states |
|---|---|---|
| Numeric.BinomDiagonal | BersteinFunctions.py:32 | C(n, n) = 1, the coefficient of the last Bernstein term |
| Grid.Linspace | PYTHONUI/main_app.py:122 | numpy.linspace has num points, starts at lo and (for num ≥ 2) ends at hi |
| Grid.LinspaceIncreasing | PYTHONUI/main_app.py:122 | for lo < hi the grid is strictly increasing |
| Grid.LinspaceBounds | LagrangeFunctions.py:87 | every grid point lies in [lo, hi] |
| Grid.SeqMin | LagrangeFunctions.py:86 | min of the nodes is one of them and is below all of them |
| Grid.SeqMax | LagrangeFunctions.py:86 | max of the nodes is one of them and is above all of them |
| Grid.ErrorGrid | LagrangeFunctions.py:86-87 | the error grid has 1000 points, from min(xs) to max(xs) inclusive |
| BernsteinBasis.ValueAtZero | BersteinFunctions.py:30-38 | for n ≥ 1 the sum at x = 0 is g(0), with 0^0 = 1 |
| BernsteinBasis.ValueAtOne | BersteinFunctions.py:30-38 | for n ≥ 1 the sum at x = 1 is g(1) |
| BernsteinBasis.WeightPascal | BersteinFunctions.py:34 | Pascal's rule for the weights C(n,k) x^k y^(n-k) |
| BernsteinBasis.BinomialTheorem | BersteinFunctions.py:34 | the weights of degree n sum to (x + y)^n |
| BernsteinBasis.PartitionOfUnity | BersteinFunctions.py:30-38 | the Bernstein weights at x and 1 - x sum to 1 |
| BernsteinBasis.ConstantReproduced | BersteinFunctions.py:30-38 | for constant g ≡ c and n ≥ 1 the sum is c at every x |
| BernsteinBasis.ValueExtensional | BersteinFunctions.py:30-38 | the sum depends only on the values of the function |
| Bernstein.MapToUnit | BersteinFunctions.py:7-14 | for a == b: 0.0 if y == a, else an error; otherwise x with x·(b - a) = y - a |
| Bernstein.MapFromUnit | BersteinFunctions.py:16-17 | 0 maps to a and 1 maps to b |
| Bernstein.MapBetween | BersteinFunctions.py:16-17 | for a ≤ b, points of [0, 1] map into [a, b] |
| Bernstein.MapRoundTrip | BersteinFunctions.py:14-17 | for a ≠ b, map_from(map_to(y)) == y |
| Bernstein.UnmapRoundTrip | BersteinFunctions.py:14-17 | for a ≠ b, map_to(map_from(x)) == x |
| Bernstein.OutsideMapsOutside | BersteinFunctions.py:24 | a point outside [a, b] maps outside [0, 1]; it is not rejected |
| Bernstein.ApproxAtStart | BersteinFunctions.py:24-37 | for n ≥ 1 the approximation at y = a is f(a) |
| Bernstein.ApproxAtEnd | BersteinFunctions.py:24-37 | for n ≥ 1 the approximation at y = b is f(b) |
| Bernstein.ApproxConstant | BersteinFunctions.py:30-38 | for n ≥ 1 a constant f ≡ c gives c at every y |
| Bernstein.AproxBersteinOnInterval | BersteinFunctions.py:20-38 | a ≥ b raises before anything else; n == 0 divides by zero at k/n; n < 0 gives an empty loop and 0.0; n ≥ 1 gives the Bernstein sum at the mapped point |
| Bernstein.AbsError | BersteinFunctions.py:40-41 | the error is ≥ 0, is one of the two differences, bounds both, and is 0 iff the values are equal |
| Bernstein.AbsErrorSymmetric | BersteinFunctions.py:40-41 | the error does not depend on the order of its arguments |
| BernsteinUI.AproxBersteinOnInterval | PYTHONUI/BersteinFunctions.py:30-95 | a ≥ b raises; the warning is given iff y is outside [a, b]; n < 0 raises; n == 0 returns f(a); n ≥ 1 returns the same sum as the top-level routine |
| BernsteinArray.GroupedTerm | PYTHONUI/main_app.py:76-78 | the array term g(k/n)·(C(n,k)·x^k·(1-x)^(n-k)) is the scalar term k |
| BernsteinArray.AddTerm | PYTHONUI/main_app.py:75-80 | one pass of the in-place `+=` adds term k of the sum at every entry and changes nothing else |
| BernsteinArray.BernsteinPolynomialOnUnit | PYTHONUI/main_app.py:63-82 | a fresh array as long as the input; n == 0 divides by zero; n < 0 leaves the zeros of zeros_like; n ≥ 1 makes entry j the scalar Bernstein sum at x_j |
| BernsteinArray.Points | PYTHONUI/main_app.py:122-126 | num points a + t·(b - a) that start at a and end at b |
| BernsteinArray.PointsIncreasing | PYTHONUI/main_app.py:122-126 | for a < b the evaluation points are strictly increasing |
| BernsteinArray.BernsteinApproximationGeneralInterval | PYTHONUI/main_app.py:103-132 | a ≥ b and n ≤ 0 raise before any division; otherwise the result holds the points, the Bernstein sums of the pulled-back function on the unit grid, and the original values |
| BernsteinArray.SampledAtStart | PYTHONUI/main_app.py:117-124 | the approximation at t = 0 is f(a) |
| BernsteinArray.SampledAtEnd | PYTHONUI/main_app.py:117-124 | the approximation at t = 1 is f(b) |
| BernsteinArray.SampledConstant | PYTHONUI/main_app.py:75-80 | a constant function is reproduced at every grid point |
| BernsteinArray.SampledAgreesWithScalar | PYTHONUI/main_app.py:75-80 | the array form at t is the scalar approximation at a + t·(b - a) |
| BernsteinArray.MapCommutes | PYTHONUI/main_app.py:126 | map_from on [a, b] is the point a + t·(b - a) used by the grid |
| Lagrange.RowsGiveDistinct | LagrangeFunctions.py:28-33 | if no row of the loop meets a repeated node, the nodes are distinct |
| Lagrange.MultiplyFactor | LagrangeFunctions.py:31-33 | one inner step fails iff it divides by a zero node difference, and otherwise multiplies in factor j |
| Lagrange.ScaledBasis | LagrangeFunctions.py:29-34 | the inner loop gives y_i·L_i(x), or a division by zero iff node i is repeated |
| Lagrange.LagrangeInterpolation | LagrangeFunctions.py:10-35 | raises on a length mismatch; with distinct nodes returns the interpolating polynomial; with a repeated node divides by zero |
| Lagrange.BasisAtOwnNode | LagrangeFunctions.py:29-33 | with distinct nodes L_i(x_i) = 1 |
| Lagrange.BasisAtOtherNode | LagrangeFunctions.py:29-33 | L_i(x_k) = 0 for k ≠ i |
| Lagrange.InterpAtNode | LagrangeFunctions.py:28-35 | with distinct nodes the interpolant at x_k is y_k |
| Lagrange.InterpFewNodes | LagrangeFunctions.py:25-35 | no nodes give 0.0; one node gives y_0 for every x |
| Lagrange.InterpTwoNodes | LagrangeFunctions.py:28-35 | two distinct nodes give the line y0 + (y1 - y0)(x - x0)/(x1 - x0) |
| Lagrange.RowProductClosed | LagrangeFunctions.py:55-67 | row i of the derivative routine's product is L_i(x)^(n-2) |
| Lagrange.DerivTermClosed | LagrangeFunctions.py:55-67 | term i of the derivative routine is y_i·L_i(x)^(n-2) |
| Lagrange.DerivQuotient | LagrangeFunctions.py:58-65 | a numerator/denominator pair of the innermost loop is the basis product without factor j |
| Lagrange.ZeroDenominator | LagrangeFunctions.py:60-65 | a zero denominator means a node repeats node i |
| Lagrange.DenomsGiveDistinct | LagrangeFunctions.py:55-67 | with three or more nodes and no zero denominator the nodes are distinct |
| Lagrange.DenomsOfDistinct | LagrangeFunctions.py:55-67 | a zero denominator needs a repeated node and at least three nodes |
| Lagrange.DerivParts | LagrangeFunctions.py:58-65 | the innermost loop computes the two products |
| Lagrange.MultiplyQuotient | LagrangeFunctions.py:66 | one middle step multiplies in the quotient, or divides by zero only when a denominator of row i is zero |
| Lagrange.DerivRow | LagrangeFunctions.py:56-67 | the middle loop gives y_i times the row product, or a division by zero iff some denominator of row i is zero |
| Lagrange.LagrangeDerivative | LagrangeFunctions.py:37-69 | raises on a length mismatch; returns Σ y_i·L_i(x)^(n-2) when the nodes are distinct or there are at most two; divides by zero for a repeated node among three or more |
| Lagrange.DerivativeSingleNode | LagrangeFunctions.py:55-69 | one node gives y_0 |
| Lagrange.DerivativeTwoNodes | LagrangeFunctions.py:55-69 | two nodes give y0 + y1 for every x |
| Lagrange.DerivativeThreeNodes | LagrangeFunctions.py:55-69 | three nodes give exactly the interpolated value |
| Lagrange.DerivativeOfConstantData | LagrangeFunctions.py:55-69 | example: for constant data 1 on two nodes the routine returns 2, not the derivative 0 |
| Lagrange.SampleError | LagrangeFunctions.py:91-93 | a sampled error is ≥ 0 and is 0 iff the interpolant meets the target there |
| Lagrange.Errors | LagrangeFunctions.py:87-93 | one error per grid point, 1000 in all |
| Lagrange.MaxError | LagrangeFunctions.py:89-96 | the result is ≥ 0, bounds every sampled error and equals one of them |
| Lagrange.CalculateError | LagrangeFunctions.py:71-96 | raises on a length mismatch and on no nodes; with distinct nodes returns the largest sampled error |
| Spline.SearchSortedLeft | SplineFunctions.py:17 | the insertion index: every earlier node is below v, and the node there is not |
| Spline.SearchIsCount | SplineFunctions.py:17 | on sorted nodes the index is the number of nodes below v |
| Spline.SearchUnique | SplineFunctions.py:17 | that insertion index is the only one |
| Spline.SearchAtNode | SplineFunctions.py:17 | with increasing nodes, searching for x_k gives k |
| Spline.SearchInside | SplineFunctions.py:17 | a point in (x_i, x_{i+1}] gives i + 1 |
| Spline.Clip | SplineFunctions.py:18 | numpy.clip stays in [lo, hi], keeps values already there, raises values below lo to lo and lowers values above hi to hi, and gives hi when lo > hi |
| Spline.SegmentIsCount | SplineFunctions.py:17-18 | the segment is (number of nodes below v) - 1, clipped to [0, len - 2] |
| Spline.PyIndex | SplineFunctions.py:21-22 | numpy indexing reads from the end for negative indices and raises outside -len .. len - 1 |
| Spline.LinearSplineAt | SplineFunctions.py:10-24 | one point: defined for two or more nodes with one value each; no nodes raise; one node divides by zero width |
| Spline.LinearOnSegment | SplineFunctions.py:17-24 | the value is the line through the selected segment's ends |
| Spline.MapPoints | SplineFunctions.py:14-24 | elementwise evaluation keeps the length and puts g(v_j) at entry j, or raises if any point does |
| Spline.LinearElementwise | SplineFunctions.py:14-24 | the array result has the input's length and entry j is the scalar result |
| Spline.LinearAtNode | SplineFunctions.py:17-24 | with increasing nodes the spline at x_k is y_k |
| Spline.LinearBetween | SplineFunctions.py:21-24 | inside [x_i, x_{i+1}] the value lies between y_i and y_{i+1} |
| Spline.LineBetween | SplineFunctions.py:24 | a line between two points stays between their values on the segment |
| Spline.LinearBeforeFirst | SplineFunctions.py:18-24 | below the first node the first segment's line is extrapolated |
| Spline.LinearAfterLast | SplineFunctions.py:18-24 | above the last node the last segment's line is extrapolated |
| QuadraticSpline.Steps | SplineFunctions.py:33 | numpy.diff: one width per segment, h_k = x_{k+1} - x_k |
| QuadraticSpline.AsWrittenOutcome | SplineFunctions.py:26-68 | the as-written spline raises for any non-empty set of evaluation points, and can only return the empty array, for two nodes |
| QuadraticSpline.QuadraticSplineAsWritten | SplineFunctions.py:26-68 | no nodes fail in numpy.zeros; one node fails at A[0, 0]; three or more fail at A[n-1, n]; two nodes give an empty b, so any evaluation point raises; the result is the outcome AsWrittenOutcome states |
| QuadraticSpline.WriteRow | SplineFunctions.py:45-50 | one interior iteration writes row i of the matrix and of rhs and nothing else |
| QuadraticSpline.WriteEnds | SplineFunctions.py:53-54 | the natural end rows complete the system |
| QuadraticSpline.AssembleCorrected | SplineFunctions.py:41-54 | the corrected (n+1) × (n+1) assembly: length mismatch and no nodes are errors; a zero interior width is reported as ZeroDivision, a choice of the model, since numpy's float division gives inf or nan there; otherwise the matrix and rhs hold the intended entries |
| QuadraticSpline.EndConditions | SplineFunctions.py:53-54 | every solution of the assembled system has c_0 = 0 and c_n = 0 |
| QuadraticSpline.InteriorDominant | SplineFunctions.py:46-48 | with increasing nodes each interior row is strictly diagonally dominant with positive entries |
| QuadraticSpline.QuadraticAt | SplineFunctions.py:60-68 | evaluation is defined iff there are two or more nodes and one value and one c per node; otherwise it raises |
| QuadraticSpline.QuadraticOnSegment | SplineFunctions.py:63-68 | the value is the selected segment's quadratic |
| QuadraticSpline.QuadraticAtFirstNode | SplineFunctions.py:60-68 | the spline at x_0 is y_0 |
| QuadraticSpline.QuadraticAtNode | SplineFunctions.py:60-68 | at x_k, k ≥ 1, the left segment gives y_k + h²(c_{k-1} - c_k)/6, which is y_k when c is continuous there |
| QuadraticSpline.QuadraticFlat | SplineFunctions.py:60-68 | with c ≡ 0 the quadratic spline is the linear spline |
| SplineError.AbsError | SplineFunctions.py:90-98 | a finite sample gives |f(v) - y| ≥ 0, which is 0 iff they agree; a non-finite one stays non-finite |
| SplineError.NumMax | SplineFunctions.py:98 | numpy.max is finite iff every entry is, is attained, and bounds every entry |
| SplineError.MaxAbsError | SplineFunctions.py:90-98 | the maximum is defined iff every sample is, is finite iff every sample is, is ≥ 0, bounds every sampled error, and equals one of them |
| SplineError.CalculateError | SplineFunctions.py:80-98 | no nodes raise; the "quadratic" type always raises, with the as-written spline's error on the 1000-point grid; for the other types the error over the grid is defined iff every sample is, and when finite it is ≥ 0, bounds every sampled error and is attained |
| SplineError.LinearErrorFinite | SplineFunctions.py:83-98 | for increasing nodes the linear spline's error is finite and bounds every sampled error |
| SplineError.LinearFinite | SplineFunctions.py:17-24 | with increasing nodes the linear spline is finite everywhere |
| IntervalText.Decide | ui_helpers.py:38-42 | the pair is returned iff lo < hi, with its values |
| IntervalText.Dec | ui_helpers.py:25 | the decimal numeral of a natural is a run of digits |
| IntervalText.DecValue | ui_helpers.py:35-36 | reading the numeral of n gives n |
| IntervalText.LeadingZeros | ui_helpers.py:35-36 | leading zeros do not change a numeral's value |
| IntervalText.IndexOf | ui_helpers.py:25 | the first comma: none before it, and one at it when there is one |
| RootInterval.ParseRoot | ui_helpers.py:25-42 | any pair returned satisfies lo < hi |
| RootInterval.RootForm | ui_helpers.py:25-42 | `[digits,digits]` yields the values of the two numerals, compared |
| RootInterval.RootLanguage | ui_helpers.py:25-32 | a string is accepted iff it has the form `[digits,digits]` |
| RootInterval.RootValues | ui_helpers.py:35-42 | an accepted string returns its numerals' values iff the first is smaller, and otherwise reports "not increasing" |
| RootInterval.RootLeadingZeros | ui_helpers.py:35-36 | leading zeros are accepted and change nothing |
| RootInterval.RootRoundTrip | ui_helpers.py:25-42 | parsing `[dec(a),dec(b)]` gives (a, b) when a < b, and "not increasing" otherwise |
| UiInterval.TrimLeft | PYTHONUI/ui_helpers.py:30 | strips exactly the leading whitespace |
| UiInterval.TrimRight | PYTHONUI/ui_helpers.py:30 | strips exactly the trailing whitespace |
| UiInterval.TrimSplit | PYTHONUI/ui_helpers.py:30 | a string is its leading blanks, its trimmed core and its trailing blanks |
| UiInterval.TrimPadded | PYTHONUI/ui_helpers.py:30 | trimming padded text gives the text back |
| UiInterval.Convert | PYTHONUI/ui_helpers.py:30-47 | the two slots convert iff both are numbers |
| UiInterval.ParseUi | PYTHONUI/ui_helpers.py:27-53 | any pair returned satisfies lo < hi |
| UiInterval.NumberShape | PYTHONUI/ui_helpers.py:30 | a number is an optional minus, digits and an optional point, and has no blanks or commas |
| UiInterval.NumberParts | PYTHONUI/ui_helpers.py:30-41 | `-? digits . digits` is a number of value ±(whole + fraction / 10^len(fraction)) |
| UiInterval.IntegerNumber | PYTHONUI/ui_helpers.py:30-41 | `-? digits` is a number of value ±digits |
| UiInterval.UiForm | PYTHONUI/ui_helpers.py:30-47 | a padded `[ p , q ]` converts p and q |
| UiInterval.UiValues | PYTHONUI/ui_helpers.py:30-47 | a string of the accepted shape yields its numbers' values, compared |
| UiInterval.UiLanguage | PYTHONUI/ui_helpers.py:30-37 | a string is accepted iff it has the shape `[ ws* num ws* , ws* num ws* ]` |
| UiInterval.UiWhitespace | PYTHONUI/ui_helpers.py:30 | inserting or removing blanks around the numbers does not change the result |
| UiInterval.SeparatorIsBlank | PYTHONUI/ui_helpers.py:30 | a file separator U+001C before the first number is skipped like any other `\s` character |
| UiInterval.NumberRejects | PYTHONUI/ui_helpers.py:30 | example: `1.`, `.5`, `+1`, `1e5` and `1E5` are not numbers |
| UiInterval.FirstSlotRejected | PYTHONUI/ui_helpers.py:30-37 | a first slot that is not a number rejects the string |
| UiInterval.UiRejects | PYTHONUI/ui_helpers.py:30-37 | example: intervals starting with `1.`, `.5`, `+1` or `1e5` are rejected |
| UiInterval.MinusOneAndHalf | PYTHONUI/ui_helpers.py:40-41 | example: `-1.5` is a number of value -1.5 |
| UiInterval.DigitSlots | PYTHONUI/ui_helpers.py:30-47 | `[digits,digits]` yields the numerals' values, compared |
| UiInterval.UiExtendsRoot | PYTHONUI/ui_helpers.py:30 | every string the top-level parser accepts is parsed here to the same result |

## Left out

- The Qt windows, matplotlib plots, sliders and animations are not modelled. They are widget and event-loop code.
- sympy parsing and `lambdify` in `PYTHONUI/main_app.py` are not modelled. They are a foreign library; the routines take the already-built function `f` as a parameter.
- The target functions `cos(πx)` and `sin` are not modelled. They are transcendental; every routine takes `f` instead.
- Floating-point rounding is not modelled (in `/`, `**`, scipy's float `binom`, `numpy.linspace` steps, and `float()` of long decimals). All arithmetic is exact over `real`.
- The printed messages are not modelled. The out-of-interval warning of the `PYTHONUI` Bernstein routine is kept only as the boolean `warned`.
- `cubic_spline` wraps scipy's `CubicSpline`. It is not modelled; the spline error routine takes it as the parameter `cubic`.
- `numpy.linalg.solve` is not modelled. The corrected quadratic spline's evaluation `QuadraticSpline.QuadraticAt` takes the solution vector `c` as an input; `QuadraticSpline.EndConditions` says what any solution of the corrected system satisfies.
- Lagrange.CalculateError: with a repeated node it reports `ZeroDivision`. In Python the grid points are numpy float64 values, so the division gives inf or nan with a warning and does not raise. The running `max(max_error, error)` keeps max_error when error is nan, so nan samples are dropped: the routine returns the largest error among the samples that are not nan (0.0 if all are nan), which is inf only if some sample is infinite. For x_points = [0.0, 0.0] and y_points = [1.0, -1.0] every sample is nan and Python returns 0.0.
- Spline.SearchSortedLeft: for unsorted nodes numpy's binary search can return another index. The model returns the first index whose node is at least v. On sorted nodes that is the number of nodes below v, which is what numpy returns.
- Python's `\d` and `\s` also match non-ASCII digits and spaces. The model's digits are ASCII `0`-`9`. Its whitespace is the ASCII characters that `str.isspace` accepts: space, tab, newline, vertical tab, form feed, carriage return, and the separators U+001C to U+001F.
- The `ValueError` branches around `float()` in both parsers are not modelled: after a successful match, `float()` of the matched text cannot fail.
- The `PYTHONUI` copies of `map_to_unit_interval` and `map_from_unit_interval` are not modelled separately. They compute the same values as the top-level ones, except for the text of the error message, so `Bernstein.MapToUnit` and `Bernstein.MapFromUnit` serve both.
- Bernstein.MapFromUnit: the fact that [0, 1] maps into [a, b] is stated as the separate lemma `Bernstein.MapBetween`, not in the function's own contract.
- QuadraticSpline.AssembleCorrected: models the corrected system rather than the n × n one as written, which never assembles for three or more nodes (see Findings). A zero interior segment width is reported as `ZeroDivision`. This is a choice of the model: numpy's float division would give inf or nan there without raising.

## Findings

| source | as written | input that shows it | evidently intended | confidence | as-written member | corrected member |
|---|---|---|---|---|---|---|
| SplineFunctions.py:32-68 | n = len(x) - 1 segments give an n × n matrix. The interior loop writes A[i, i+1], which is column n at i = n - 1, so every call with three or more nodes raises IndexError. With two nodes, c has one entry, b comes out empty, and b[i] raises for any evaluation point. | x = [0, 1, 2], y = [0, 1, 0]: the loop writes A[1, 2] in a 2 × 2 matrix | one unknown c_k per node: an (n+1) × (n+1) system with natural end rows c_0 = c_n = 0, which is what the formula for b (with c[:-1] and c[1:]) expects | not executed | QuadraticSpline.QuadraticSplineAsWritten | QuadraticSpline.AssembleCorrected |
