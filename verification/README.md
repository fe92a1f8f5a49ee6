# Local resolution of a 2D map, modelled in Dafny

`localResolution2D.py` estimates a local resolution for every pixel of a
square image inside a mask. For each window half-width `width` in
`[width0, widthMax]` it does the following:

- it cuts the `(2*width+1)²` window around every masked pixel out of the image;
- it fits two models by weighted least squares: a constant, and a constant
  plus sine/cosine waves along `floor(pi/angleStep)` directions;
- it compares the two residual sums of squares with an F statistic;
- it divides that statistic by a critical value from a precomputed table.

Per pixel, the result is the width offset with the largest ratio. When that
ratio is not above 1, the result is the sentinel `widthMax`.

This project models the discrete logic of that script and its arithmetic
over exact reals. The modules follow the script's structure:

| module | file | what it holds |
|---|---|---|
| `Basics` | basics.dfy | `Option` |
| `Floats` | floats.dfy | reals extended with +inf, -inf and NaN; IEEE division; numpy's order and `<= 1` test |
| `Vectors` | vectors.dfy | element-wise vector arithmetic, sums, `np.dot`, `max(abs(.))`, weighted residual sums, `flatten` |
| `DirectionBasis` | direction_basis.dfy | number of directions, their angles, the column layout of the design matrix `A` |
| `Bisection` | bisection.dfy | `bisect.bisect` as a binary search, and a linear-scan reference |
| `CriticalValues` | critical_values.dfy | window side and degrees of freedom, the table `fAlphaPreComp` |
| `LocalRegression` | local_regression.dfy | the per-window constant fit, the rescaled sine/cosine fit, the residuals and the F statistic |
| `MaskLayout` | mask_layout.dfy | row-major enumeration of the masked pixels, the counter `tmpIdx` as a rank, `mask.sum()` |
| `WidthSweep` | width_sweep.dfy | windows, the gather and scatter loops, the statistic grid of one width |
| `Resolution` | resolution.dfy | numpy `argmax`/`amax` with NaN, and the sentinel rule |
| `LocalResolution` | local_resolution.dfy | parameters, the whole resolution map, end-to-end properties |

Values that the script computes with floating-point transcendentals or
foreign libraries become parameters:

- the kernel, the design matrix `A` and the pseudo-inverse `H` of each width (`Level`);
- the sampled F distribution function `cdf(dof)`.

A masked pixel whose window crosses the image border makes the script fail.
The top-level map then returns `None`.

Several behaviours of the script are easy to misread:

- Entries of `res` are 0-based width offsets (`np.argmax` over the width axis).
  They are not widths in `[width0, widthMax]`.
- The sentinel `widthMax` is an absolute width placed among offsets. With
  width0 ≥ 1 every offset is below widthMax, so the sentinel cannot be
  mistaken for an offset. With width0 = 0 it equals the offset of the last
  width, and the two cases cannot be told apart in `res`.
- The chosen offset is the first index of the largest ratio, not the smallest
  width whose ratio exceeds 1.
- An all-zero window is not handled as "not significant". In the script it
  gives NaN, and NaN wins `argmax`. The model keeps both behaviours:
  `Statistic.AsWritten` is the script's statistic and `Statistic.Guarded` the
  corrected one. See "## Findings".
- An image border policy does not exist: a window that leaves the image is an
  error.

## Model

| member | source | states |
|---|---|---|
| DirectionBasis.NumDirections | localResolution2D.py:13 | the direction count d is the integer with d·angleStep ≤ π < (d+1)·angleStep, i.e. floor(π/angleStep) |
| DirectionBasis.DirectionAngles | localResolution2D.py:17-18 | there is one rotation angle per direction and angle i is i·angleStep; the angles lie in [0, π) and strictly increase, so no direction repeats |
| DirectionBasis.ColumnIndexRoundTrip | localResolution2D.py:94-98 | the constant, sine i and cosine i (i < d) sit at columns 0, 2i+1 and 2i+2, all below 1+2d, and reading the column back names the same basis function |
| DirectionBasis.ColumnAtRoundTrip | localResolution2D.py:90-98 | every column below numComb = 1+2d holds exactly one valid basis function whose index is that column |
| DirectionBasis.ColumnsDisjoint | localResolution2D.py:95-98 | distinct basis functions never share a column |
| DirectionBasis.BuildLayout | localResolution2D.py:94-98 | the loop that fills the zero-initialised A leaves numComb columns, each holding the basis function that belongs there and none left unset |
| Bisection.FirstAbove | localResolution2D.py:51 | reference: the first index whose element exceeds alpha (all before it are ≤ alpha) |
| Bisection.BisectLoop | localResolution2D.py:51 | the binary-search loop keeps "element before lo ≤ x < element at hi" and ends at such a crossing point |
| Bisection.BisectRight | localResolution2D.py:51 | bisect.bisect returns k ≤ \|a\| with a[k-1] ≤ x < a[k]; on sorted input everything before k is ≤ x and everything from k on is > x |
| Bisection.BisectIsFirstAbove | localResolution2D.py:48-51 | on a non-decreasing CDF, bisect and the linear scan agree |
| Bisection.BisectPositive | localResolution2D.py:51 | a CDF starting at or below alpha gives an insertion point ≥ 1 |
| CriticalValues.CriticalTable | localResolution2D.py:42-51 | the table has maxDof+1 entries; entries below dof 10 are 0; for a non-decreasing CDF, entry dof is stepSize times the first grid index whose CDF value exceeds alpha |
| CriticalValues.CriticalValuePositive | localResolution2D.py:46-51 | with a positive step and a CDF starting at or below alpha, a populated entry is positive |
| CriticalValues.DofInTable | localResolution2D.py:42-46 | for 2 ≤ width0 ≤ width ≤ widthMax, dof = (2·width+1)² lies in the populated range [10, maxDof] |
| CriticalValues.DofMonotone | localResolution2D.py:61-62 | larger widths have at least as many degrees of freedom |
| Floats.Div | localResolution2D.py:155 | IEEE division: NaN exactly for NaN operands, inf/inf and 0/0; a number exactly for a number over a nonzero number or an infinity, and then quotient·divisor = dividend; signed infinities for a nonzero number over zero |
| Vectors.MaxAbs | localResolution2D.py:124 | max(abs(w)) is the magnitude of one of the samples, bounds every magnitude, and is 0 exactly when the window is all zero |
| Vectors.WeightedSSNonnegative | localResolution2D.py:131-132 | a residual sum of squares with nonnegative weights is nonnegative |
| Vectors.FlattenAt | localResolution2D.py:69 | flatten puts element b of row a of equal-length rows at a·m+b |
| LocalRegression.ConstCoefBounds | localResolution2D.py:120 | with positive weights the coefficient lies between the smallest and largest window values |
| LocalRegression.ConstFitLeastSquares | localResolution2D.py:120-121 | no constant has a smaller weighted residual sum of squares than constCoef |
| LocalRegression.ConstantWindowFit | localResolution2D.py:120-131 | a constant window c gives constCoef = c and RSSconst = 0 |
| LocalRegression.UnscaleScale | localResolution2D.py:125-127 | scaling the data and then dividing the coefficients by the same factor is the identity |
| LocalRegression.SinCosCoef | localResolution2D.py:124-127 | the rescaled coefficients are undefined exactly when the window is all zero; otherwise they equal H·w, so the rescaling changes nothing |
| LocalRegression.FStatistic | localResolution2D.py:135-136 | F is a number exactly when numComb ≠ 1 and RSSsincos ≠ 0, and then F·(numComb−1)·RSSsincos = (RSSconst−RSSsincos)·(dof−numComb); with numComb > 1, dof > numComb and RSSsincos = 0, F is +inf, −inf or NaN as RSSconst is positive, negative or zero |
| LocalRegression.FStatisticSign | localResolution2D.py:135-136 | with numComb > 1, dof > numComb and RSSsincos > 0, F is positive (zero) exactly when RSSconst is larger than (equal to) RSSsincos |
| LocalRegression.PixelF | localResolution2D.py:117-136 | an all-zero window gives NaN; any other window gives the F statistic of its two residual sums, with numComb−1 and dof−numComb degrees of freedom |
| LocalRegression.ConstantWindowStatistic | localResolution2D.py:117-136 | with more window pixels than basis functions and at least one direction (dof > numComb > 1), a constant window never gets a positive statistic (it is NaN or negative) |
| LocalRegression.GuardedPixelF | localResolution2D.py:120-136 | the corrected statistic: an all-zero window has both residual sums 0 over exact reals (the script computes 1/0 at line 124 and NaN from there) and gets statistic 0; every other window keeps the script's statistic |
| LocalRegression.ZeroWindowAsWritten | localResolution2D.py:124-136 | as written, an all-zero window gives a NaN ratio, which is not ≤ 1 |
| MaskLayout.BeforeCount | localResolution2D.py:64-70 | tmpIdx at loop position (i, j) is the number of true mask entries in rows above i plus those left of j in row i |
| MaskLayout.MaskedMembers | localResolution2D.py:66-68 | the enumeration holds exactly the in-grid pixels whose mask entry is true |
| MaskLayout.MaskedOrdered | localResolution2D.py:66-67 | the enumeration is strictly increasing in row-major order, so it repeats no pixel |
| MaskLayout.RankOfMasked | localResolution2D.py:64-70 | the tmpIdx value at a masked pixel is a valid index and the enumeration has that pixel there |
| MaskLayout.MaskedRank | localResolution2D.py:145-151 | the k-th masked pixel is masked and has tmpIdx value k |
| MaskLayout.MaskedCount | localResolution2D.py:65 | there are mask.sum() masked pixels, the row count of tmpData |
| WidthSweep.Window | localResolution2D.py:69 | the flattened slice has (2·width+1)² samples |
| WidthSweep.WindowAt | localResolution2D.py:69 | sample a·(2w+1)+b of the window is the image value at (i−w+a, j−w+b) |
| WidthSweep.InsideMonotone | localResolution2D.py:60-69 | if every masked window fits at some width, it fits at every smaller width |
| WidthSweep.GatheredAt | localResolution2D.py:64-71 | the packed data has mask.sum() rows and its row tmpIdx(p) is the window of p |
| WidthSweep.Gather | localResolution2D.py:64-70 | the loop produces mask.sum() rows of dof samples, and the row of each masked pixel is that pixel's window |
| WidthSweep.ScatterReadBack | localResolution2D.py:145-151 | reading the scattered grid back at the masked pixels, in row-major order, returns the packed values |
| WidthSweep.Scatter | localResolution2D.py:145-151 | the loop writes each masked pixel's packed value, returns exactly the packed values when read back, and leaves unmasked pixels at 0 |
| WidthSweep.GatherScatter | localResolution2D.py:141-152 | values computed per pixel in mask order and scattered land on their own pixel; every other pixel is 0 |
| WidthSweep.LevelMapAt | localResolution2D.py:111-152 | at one width a masked pixel carries the statistic of its own window and an unmasked pixel carries 0; with `AsWritten` that statistic is the script's, with `Guarded` the corrected one |
| WidthSweep.ComputeLevel | localResolution2D.py:111-152 | gather, per-window statistic and scatter in the script's order give that grid: with `AsWritten` this is the script's tmpF |
| Resolution.FirstNaN | localResolution2D.py:157 | the index of the first NaN (or the length), with no NaN before it |
| Resolution.FirstMax | localResolution2D.py:157 | on NaN-free input, an index whose value is ≥ every value and > every earlier value |
| Resolution.Amax | localResolution2D.py:156 | np.amax is NaN exactly when some ratio is NaN, and otherwise bounds every ratio |
| Resolution.ArgMax | localResolution2D.py:157 | np.argmax returns the first NaN when there is one, and otherwise an index whose value is ≥ every value and > every earlier value |
| Resolution.ArgMaxUnique | localResolution2D.py:157 | np.argmax is the one index that is the first NaN, or else the first maximum |
| Resolution.AmaxAtArgMax | localResolution2D.py:156-157 | the maximum value is found at the argmax index |
| Resolution.Resolve | localResolution2D.py:156-158 | the result is widthMax when the maximum ratio is ≤ 1; otherwise it is the argmax index, and the ratio there is above 1 or NaN |
| Resolution.ResolveRange | localResolution2D.py:156-158 | the result is widthMax or an offset into the width axis |
| Resolution.ResolveSentinel | localResolution2D.py:158 | with at most widthMax widths (width0 ≥ 1), the result is widthMax exactly when the maximum ratio is ≤ 1 |
| Resolution.ResolveSignificant | localResolution2D.py:156-158 | when the maximum ratio is not ≤ 1, the result is the argmax, and the ratio there is NaN or above 1 |
| Resolution.ResolveChosen | localResolution2D.py:156-158 | for any number of widths, a result other than widthMax is an offset whose ratio is above 1 or NaN |
| Resolution.AmaxAtMostOne | localResolution2D.py:156-158 | on NaN-free ratios, the maximum is ≤ 1 exactly when every ratio is |
| LocalResolution.ResolutionMap | localResolution2D.py:54-158 | for either statistic, the map is undefined exactly when some masked pixel's window at widthMax leaves the image; otherwise it is n×n. With `AsWritten` it is the script's `res` |
| LocalResolution.ResolutionRange | localResolution2D.py:156-158 | every entry is widthMax or an offset in [0, widthMax−width0] |
| LocalResolution.MaskedPixel | localResolution2D.py:60-158 | for either statistic, a masked pixel's entry is chosen from the statistics of its own windows, one per width |
| LocalResolution.UnmaskedPixel | localResolution2D.py:146-158 | for either statistic and with positive critical values, an unmasked pixel gets widthMax |
| LocalResolution.SignificantPixel | localResolution2D.py:155-158 | for either statistic, a masked pixel that does not get widthMax gets the first offset of the largest ratio, and that ratio is NaN or above 1 |
| LocalResolution.FalphaTable | localResolution2D.py:46-51 | Falpha of a width is 0 when its dof is below 10; otherwise, for a non-decreasing CDF, it is stepSize times the first grid index whose CDF value exceeds alpha |
| LocalResolution.WidthOneRatio | localResolution2D.py:46-51 | with width0 = 1 the first critical value is 0, so every pixel's first ratio is an infinity or NaN, never a number |
| LocalResolution.FalphaPositive | localResolution2D.py:108 | for width0 ≥ 2, a positive step and a CDF starting at or below alpha, every Falpha is positive |
| LocalResolution.DefaultConfig | localResolution2D.py:35-42 | the default parameters give 9 widths, maxDof 441, 9 basis functions, and every dof inside the populated table |
| LocalResolution.ZeroWindowResolvedAsWritten | localResolution2D.py:124-158 | as written, a pixel whose smallest window is all zero gets offset 0 whatever the critical values |
| LocalResolution.ZeroWindowMappedAsWritten | localResolution2D.py:60-158 | in the map as the script computes it, a masked pixel whose smallest window is all zero gets offset 0 |
| LocalResolution.GuardAgreesAsWritten | localResolution2D.py:124-136 | when no window is all zero, the guarded and the as-written ratios coincide |
| LocalResolution.ZeroWindowRatio | localResolution2D.py:124-155 | with the guard and a positive critical value, a width whose window is all zero has ratio exactly 0 |
| LocalResolution.ZeroWindowNeverChosen | localResolution2D.py:124-158 | with the guard and positive critical values, the offset chosen from a pixel's ratios, if not the sentinel, is a width whose window is not all zero |
| LocalResolution.ZeroWindowNeverMapped | localResolution2D.py:60-158 | with the guard and positive critical values, the entry of a masked pixel in the map, if not the sentinel, is a width whose window is not all zero |

## Findings

| source | as written | input that shows it | evidently intended | confidence | as-written member | corrected member |
|---|---|---|---|---|---|---|
| localResolution2D.py:124-136 | an all-zero window makes the scaling factor 1/0 = inf, so the scaled data, the coefficients, RSSsincos and F are NaN; `np.argmax` then picks the first NaN and `NaN <= 1` is false | a masked pixel whose 5×5 window at width 2 is all zero (a masked pixel in a zero background) | an all-zero window is not significant (both fits are zero), so it should not decide the resolution | medium, not executed | LocalResolution.ZeroWindowMappedAsWritten | LocalResolution.ZeroWindowNeverMapped |

The as-written statistic is `LocalRegression.PixelF`. The corrected one is
`LocalRegression.GuardedPixelF`, which gives an all-zero window the
statistic 0. The per-width grids, the ratios and the resolution map take the
statistic as a parameter:

- `ResolutionMap(cfg, AsWritten, ...)` is the script's map.
  `ZeroWindowMappedAsWritten` shows the discrepancy there.
- `ResolutionMap(cfg, Guarded, ...)` is the corrected map.
  `ZeroWindowNeverMapped` proves the intended property for it.

`LocalResolution.GuardAgreesAsWritten` shows the two agree wherever no window
is all zero.

## Left out

- The kernel values `exp(-2u)`, the grid `np.mgrid`, the projections `x cos + y sin`, and the sine and cosine columns of `A` (lines 9-10, 18, 78-83, 97-98): floating-point transcendentals. `A`, `H` and the kernel are parameters (`Level`). Only their shapes and the positivity of the kernel are assumed.
- The SVD and pseudo-inverse `H` (lines 101-105): a foreign linear-algebra call. `H` is a parameter, so nothing is claimed about `RSSsincos ≤ RSSconst`.
- `scipy.stats.f.cdf` and `np.linspace` (line 48): a foreign statistical function. `cdf(dof)` is a parameter. The floating-point `numComb` of line 44 only feeds that call.
- `scipy.io.loadmat` (lines 28-30) and the matplotlib figures (lines 160-167): I/O and display.
- Floating-point rounding and signed zero: all arithmetic is on exact reals extended with ±inf and NaN.
- The lists `dataList` and `fStatList` (lines 58-59, 71, 138): each width's gather, statistic and scatter are modelled together. The widths do not interact, so the result is the same.
- Non-square images and masks with entries other than 0 and 1: the image is n×n with n = `data.shape[0]`, and the mask is boolean.
- A window that leaves the image gives `None`. numpy raises a shape error there, except when Python's slice clamping leaves a 1×1 slice, which numpy broadcasts over the whole row of `tmpData`. That case is not modelled. It happens when each coordinate x of the pixel (x = i and x = j) is below width and also satisfies one of these:
  - n = 2·width (any such x, e.g. pixel (0, 0) of a 4×4 image at width 2);
  - n < 2·width and x = width−1 (e.g. pixel (1, 1) of a 3×3 image at width 2);
  - n = 1 (at every width).
- Parameters that `ValidConfig` excludes make the script fail, so they are not modelled:
  - widthMax < width0: `np.zeros` gets a negative dimension, or `np.amax` reduces an empty axis.
  - angleStep = 0: line 44 divides by zero.
  - angleStep < 0: `np.zeros` in `makeDirections` gets a negative dimension.
  - stepSize = 0 when widthMax ≥ 2: line 48 divides by zero.
  - stepSize < 0 when widthMax ≥ 2: `np.linspace` at line 48 gets a negative number of samples.
  - With widthMax ≤ 1 the table loop (`range(10, maxDof+1)`, maxDof ≤ 9) is empty, stepSize is never read, and any stepSize is accepted.
- ResolutionMap: when any masked window leaves the image at widthMax it returns `None` as a whole, not a partial map. The script stops at the first such width.
- LocalRegression.ConstFitLeastSquares: states that constCoef minimises the weighted residual, but not that the minimiser is unique.
- LocalRegression.SinCosCoef: the rescaled coefficients are stated equal to H·w. Invariance of the whole statistic under scaling of the window is not stated.
- LocalRegression.ConstantWindowStatistic: with dof > numComb > 1, a nonzero constant window gets NaN or a negative statistic; with dof < numComb (e.g. width0 = 0, dof 1, numComb 9) lines 135-136 divide two negatives and the statistic can be positive, which is not stated. Which of the two depends on `H`, which is not modelled.
