# Classical seasonal decomposition by moving averages, in Dafny

This project models `seasonal_decompose` from `statsmodels/tsa/seasonal.py` and proves properties of the model. The function splits a series into three components:

- a **trend**: a moving average of the series;
- a **seasonal** component: one average per phase of the cycle, normalised and repeated;
- a **residual**: what is left.

The model covers the whole pipeline:

- the input checks and period resolution;
- the default filter;
- the least-squares extrapolation of the trend's undefined ends (`_extrapolate_trend`);
- the phase averages (`seasonal_mean`);
- normalisation, tiling and the residual;
- the `DecomposeResult` record.

The original computes in floating point. The model computes over Dafny's exact `real`s. An undefined entry (NaN) is written `None` in a `Value = Option<real>`.

| file | module | what |
|---|---|---|
| `wrappers.dfy` | `Wrappers` | `Option` and `Result` |
| `series.dfy` | `Series` | `Period`, `Value`, sums, the defined/undefined view of a series |
| `modular.dfy` | `ModArith` | Euclidean division facts behind the phase `t % period` |
| `filter.dfy` | `TrendFilter` | the default moving-average weights |
| `least_squares.dfy` | `LeastSquares` | the straight-line fit of `np.linalg.lstsq` on rows `(i, 1)` |
| `extrapolate.dfy` | `TrendExtrapolation` | `_extrapolate_trend`: specification functions and the in-place array method |
| `seasonal_mean.dfy` | `PhaseAverage` | `seasonal_mean` and NaN-skipping means |
| `components.dfy` | `Components` | detrending, normalisation, tiling, residual |
| `result.dfy` | `DecomposeResults` | the `DecomposeResult` record |
| `decompose.dfy` | `SeasonalDecompose` | validation, the full decomposition as a function, and the step-by-step method |

The source mixes two styles, and the model follows each where it appears:

- **Imperative parts**: the scans and slice assignments of `_extrapolate_trend`, the in-place `period_averages -=` / `/=`, and the sequence of steps in `seasonal_decompose`. These are methods, on arrays where the original mutates arrays. Each method is proved equal to a specification function: `ExtrapolateTrend` against `Extrapolated`, `NormaliseInPlace` against `Normalised`, and `Decompose` against `Decomposition`.
- **Pure parts**: the comprehension in `seasonal_mean` and the arithmetic identities. These are functions and lemmas.

Two things the source calls into become parameters:

- The convolution with the filter is library code outside this model. It is a function parameter `convolve(x, filt, nsides)`, assumed only to return one possibly-undefined entry per observation.
- The period that pandas infers from an index frequency (`freq_to_period(index.inferred_freq)`) is the optional parameter `hint`.

## Model

| member | source | states |
|---|---|---|
| SeasonalDecompose.ParseModel | statsmodels/tsa/seasonal.py:127 | the model is multiplicative exactly when the name starts with `m` |
| SeasonalDecompose.Validate | statsmodels/tsa/seasonal.py:117-143 | each error happens exactly when the checks before it pass and its own fails: non-finite value, then multiplicative with a value `<= 0`, then no period and no hint, then fewer than `2 * period` observations, an error that carries both the required `2 * period` and the actual count, as the original's message does; on success the values are the input's, positive for the multiplicative model, and the period is the given one or else the hint |
| SeasonalDecompose.Check | statsmodels/tsa/seasonal.py:125-143 | the sequence of `raise` checks returns exactly the outcome of `Validate` |
| TrendFilter.DefaultFilter | statsmodels/tsa/seasonal.py:145-149 | even period: `period + 1` weights, `0.5 / period` at both ends and `1 / period` inside; odd period: `period` weights of `1 / period` |
| TrendFilter.DefaultFilterSumsToOne | statsmodels/tsa/seasonal.py:145-149 | the default weights sum to one |
| SeasonalDecompose.FilterFor | statsmodels/tsa/seasonal.py:145-149 | a given filter is used as is; without one the default filter is used, and its weights sum to one |
| SeasonalDecompose.Sides | statsmodels/tsa/seasonal.py:151 | `nsides` is 2 exactly for a two-sided filter and 1 otherwise |
| SeasonalDecompose.ExtrapolationPoints | statsmodels/tsa/seasonal.py:154-158 | extrapolation runs exactly when the setting is positive (`'freq'` counts as `period - 1`), with `npoints` one more than the setting |
| SeasonalDecompose.TrendOf | statsmodels/tsa/seasonal.py:154-158 | without extrapolation the trend is the filtered series; with it, the trend is the extrapolated series |
| SeasonalDecompose.ExtendTrend | statsmodels/tsa/seasonal.py:154-158 | running the in-place extrapolation on a copy gives `TrendOf` |
| TrendExtrapolation.FirstDefined | statsmodels/tsa/seasonal.py:23-24 | the index of the first defined entry, with all entries before it undefined; `None` exactly when no entry is defined |
| TrendExtrapolation.LastDefined | statsmodels/tsa/seasonal.py:25-26 | the index of the last defined entry, with all entries after it undefined; `None` exactly when no entry is defined |
| TrendExtrapolation.DefinedSpan | statsmodels/tsa/seasonal.py:23-26 | `front <= back < len`; both ends are defined and everything outside `[front, back]` is undefined; `None` exactly when no entry is defined |
| TrendExtrapolation.ScanFront | statsmodels/tsa/seasonal.py:23-24 | the forward scan over the array finds `FirstDefined` |
| TrendExtrapolation.ScanBack | statsmodels/tsa/seasonal.py:25-26 | the scan of the reversed array finds `LastDefined` |
| TrendExtrapolation.FrontLast | statsmodels/tsa/seasonal.py:27 | `front <= front_last <= back`; the head window holds `npoints` entries unless it is cut short at `back` |
| TrendExtrapolation.BackFirst | statsmodels/tsa/seasonal.py:28 | `front <= back_first <= back`; the tail window holds `npoints` entries unless it is cut short at `front` |
| LeastSquares.Xs | statsmodels/tsa/seasonal.py:31 | the window's abscissae are the consecutive indices `lo, ..., lo + m - 1` |
| TrendExtrapolation.FitWindow | statsmodels/tsa/seasonal.py:30-32 | the fitted line exists exactly when every entry of the window is defined |
| TrendExtrapolation.HeadFit | statsmodels/tsa/seasonal.py:30-32 | the head line exists exactly when every entry of `[front, front_last)` is defined |
| TrendExtrapolation.TailFit | statsmodels/tsa/seasonal.py:38-40 | the tail line exists exactly when every entry of `[back_first, back)` is defined |
| TrendExtrapolation.Fill | statsmodels/tsa/seasonal.py:33 | the value at index `i` is defined exactly when the line is, and is then `k * i + n` |
| TrendExtrapolation.Extra | statsmodels/tsa/seasonal.py:33 | the replacement for indices `lo, ..., hi - 1` is the fitted line's value `k * i + n` at each index |
| TrendExtrapolation.Spliced | statsmodels/tsa/seasonal.py:36-44 | same length; before `front` the head line's values, `[front, back]` unchanged, after `back` the tail line's values |
| TrendExtrapolation.FillRange | statsmodels/tsa/seasonal.py:36 | the slice assignment writes the line's value at every index of the range and changes nothing else |
| TrendExtrapolation.Extrapolated | statsmodels/tsa/seasonal.py:18-46 | the length is kept; there is no result exactly when no entry of the trend is defined |
| TrendExtrapolation.ExtrapolatedEntries | statsmodels/tsa/seasonal.py:18-46 | entry by entry: head `[0, front)` filled by the head fit, `[front, back]` unchanged, tail `(back, len)` filled by the tail fit |
| TrendExtrapolation.ExtrapolatedDefined | statsmodels/tsa/seasonal.py:84-89 | when `[front, back]` has no undefined entry, both fits exist and the extrapolated trend has no undefined entry |
| TrendExtrapolation.ExtrapolatedComplete | statsmodels/tsa/seasonal.py:18-46 | a non-empty trend with no undefined entry comes back unchanged |
| TrendExtrapolation.ExtrapolatedIdempotent | statsmodels/tsa/seasonal.py:18-46 | extrapolating a fully defined result again changes nothing |
| TrendExtrapolation.ExtrapolatedExact | statsmodels/tsa/seasonal.py:18-46 | a trend whose defined stretch has three or more entries and lies on a line is continued along that same line at both ends, when `npoints` is two or more (so both windows hold two or more points) |
| TrendExtrapolation.FitWindowExact | statsmodels/tsa/seasonal.py:30-32 | a window of two or more entries, all defined and on a line, is fitted by that line |
| TrendExtrapolation.FitWindowIsLeastSquares | statsmodels/tsa/seasonal.py:30-32 | over a fully defined window of two or more points, no line has a smaller squared error than the fit |
| TrendExtrapolation.ExtrapolateTrend | statsmodels/tsa/seasonal.py:18-46 | the in-place method succeeds exactly when `Extrapolated` has a result, and then leaves that result in the array; otherwise the array is untouched |
| LeastSquares.FitLine | statsmodels/tsa/seasonal.py:30-32 | the coefficients `lstsq` returns for the rows `(x, 1)`, as a specification function without a contract of its own: it is characterised by `FitLineIsLeastSquares`, `FitLineNormalEquations`, `FitLineRecoversLine` and `FitLineMinimumNorm` |
| LeastSquares.ClosedForm | statsmodels/tsa/seasonal.py:30-32 | the solution of the normal equations from the window's sums, with no contract of its own: `ClosedFormNormalEquations` states that it solves them |
| LeastSquares.ClosedFormNormalEquations | statsmodels/tsa/seasonal.py:30-32 | the closed-form line satisfies both normal equations |
| LeastSquares.OnePointFit | statsmodels/tsa/seasonal.py:30-32 | the minimum-norm line through one point, with no contract of its own: `OnePointFitPasses` and `OnePointFitMinimal` state what it is |
| LeastSquares.OnePointFitPasses | statsmodels/tsa/seasonal.py:30-32 | the one-point fit passes through its point |
| LeastSquares.OnePointFitMinimal | statsmodels/tsa/seasonal.py:30-32 | among the lines through the point, the one-point fit has the smallest coefficient norm |
| LeastSquares.FitLineClosedForm | statsmodels/tsa/seasonal.py:30-32 | with two or more abscissae, increasing and at least one apart (as window indices are), the normal equations are non-singular and the fit is their closed-form solution |
| LeastSquares.FitLineNormalEquations | statsmodels/tsa/seasonal.py:30-32 | with two or more abscissae, increasing and at least one apart, the fit's residuals sum to zero and are orthogonal to the abscissae |
| LeastSquares.FitLineIsLeastSquares | statsmodels/tsa/seasonal.py:30-32 | with two or more abscissae, increasing and at least one apart, no line has a smaller sum of squared residuals than the fit |
| LeastSquares.FitLineRecoversLine | statsmodels/tsa/seasonal.py:30-32 | two or more points on a line, with abscissae increasing and at least one apart, are fitted by exactly that line (one point is fitted by the minimum-norm line instead) |
| LeastSquares.FitLineMinimumNorm | statsmodels/tsa/seasonal.py:30-32 | with fewer than two points (numpy's minimum-norm case) the fit passes through the point, and among the lines that do (every line, for no point) it has the smallest coefficient norm |
| PhaseAverage.Stride | statsmodels/tsa/seasonal.py:56 | the slice `x[i::period]` holds as many entries as numpy's slice does, `ceil((len - i) / period)`; `StrideIsPhase` gives which ones |
| PhaseAverage.StrideIsPhase | statsmodels/tsa/seasonal.py:56 | the slice `x[i::period]` selects exactly the entries whose index is `i` modulo `period`, in order |
| PhaseAverage.PhaseFromUndefined | statsmodels/tsa/seasonal.py:56 | a phase's selection is all undefined exactly when every entry of that phase is undefined |
| PhaseAverage.PhaseFromConstant | statsmodels/tsa/seasonal.py:56 | where every entry of a phase is the same number, the selection is non-empty exactly when the phase occurs, and every entry of it is that number |
| PhaseAverage.NanMean | statsmodels/tsa/seasonal.py:56 | undefined exactly when no entry is defined; otherwise it times the number of defined entries is their sum |
| PhaseAverage.NanMeanIgnoresUndefined | statsmodels/tsa/seasonal.py:53-54 | inserting an undefined entry does not change the mean |
| PhaseAverage.NanMeanOfComplete | statsmodels/tsa/seasonal.py:56 | with no undefined entry the NaN-skipping mean is the ordinary mean |
| PhaseAverage.NanMeanOfConstant | statsmodels/tsa/seasonal.py:56 | the mean of one or more copies of one number is that number |
| PhaseAverage.SeasonalMean | statsmodels/tsa/seasonal.py:50-56 | one average per phase: exactly `period` of them |
| PhaseAverage.SeasonalMeanPhase | statsmodels/tsa/seasonal.py:50-56 | average `i` is the NaN-skipping mean of the entries at indices `t` with `t % period == i`; it is undefined exactly when all of them are |
| PhaseAverage.SeasonalMeanDefined | statsmodels/tsa/seasonal.py:50-56 | a defined series spanning one cycle has every phase average defined |
| PhaseAverage.SeasonalMeanOfPeriodic | statsmodels/tsa/seasonal.py:50-56 | a purely periodic series spanning at least one cycle has its own pattern as its phase averages |
| Components.Remove | statsmodels/tsa/seasonal.py:160-163 | `a - b` or `a / b` is defined exactly when both sides are, and the divisor is nonzero; composing `b` with the result gives `a` back |
| Components.Detrend | statsmodels/tsa/seasonal.py:160-163 | the detrended entry is defined exactly where the trend is (nonzero, to divide), and the trend composed with it gives the observation |
| Components.Mean | statsmodels/tsa/seasonal.py:168-170 | the plain mean is defined exactly when the averages are non-empty and all defined, and times the count it is their sum |
| Components.Normalised | statsmodels/tsa/seasonal.py:167-170 | one normalised average per average; what normalising achieves is stated by the four lemmas below |
| Components.NormalisedUndefined | statsmodels/tsa/seasonal.py:167-170 | one undefined average leaves every normalised average undefined |
| Components.NormalisedSumsToZero | statsmodels/tsa/seasonal.py:170 | from non-empty, fully defined averages, the additive step gives averages that are all defined, sum to zero and have mean zero |
| Components.NormalisedMeanOne | statsmodels/tsa/seasonal.py:168 | from non-empty, fully defined averages with a nonzero mean, the multiplicative step gives averages that are all defined and have mean one |
| Components.NormalisedIdempotent | statsmodels/tsa/seasonal.py:167-170 | for non-empty, fully defined averages (with a nonzero mean, for the multiplicative model), normalising a second time changes nothing |
| Components.NormaliseInPlace | statsmodels/tsa/seasonal.py:167-170 | the in-place update leaves exactly the normalised averages in the array |
| Components.Repeat | statsmodels/tsa/seasonal.py:172 | `n` copies of the cycle have `n` times its length |
| Components.RepeatPhase | statsmodels/tsa/seasonal.py:172 | entry `t` of the copies is entry `t % period` of the cycle |
| Components.Tile | statsmodels/tsa/seasonal.py:172 | the seasonal component has `nobs` entries and `seasonal[t] == averages[t % period]` |
| Components.TilePeriodic | statsmodels/tsa/seasonal.py:172 | `seasonal[t] == seasonal[t + period]` whenever both exist |
| Components.TileDefined | statsmodels/tsa/seasonal.py:172 | tiling non-empty, fully defined averages leaves no seasonal entry undefined |
| Components.Residual | statsmodels/tsa/seasonal.py:174-177 | the residual is defined exactly where trend and seasonal are (nonzero, to divide); there `trend + seasonal + resid == x`, or `trend * seasonal * resid == x` |
| DecomposeResults.MakeResult | statsmodels/tsa/seasonal.py:188-228 | the accessors return what was stored; missing weights default to one per observation |
| DecomposeResults.DecomposeResult.Nobs | statsmodels/tsa/seasonal.py:226-228 | the number of observations; no contract of its own, and `MakeResult` states that it is the length of the observed series. The original returns `observed.shape`, a tuple; for the one-column series modelled here it is `(nobs,)`, and the model returns the `nobs` inside it |
| SeasonalDecompose.SeasonalAverages | statsmodels/tsa/seasonal.py:160-170 | one normalised average per phase |
| SeasonalDecompose.Assemble | statsmodels/tsa/seasonal.py:160-184 | observed and trend kept, all components as long as the series, unit weights, `seasonal[t]` is the normalised average of phase `t % period`; the residual is defined exactly where trend and seasonal are (and, for the multiplicative model, nonzero), and there the three compose to the observation |
| SeasonalDecompose.AssembleFirstCycle | statsmodels/tsa/seasonal.py:165-172 | for a series spanning at least one cycle, the first `period` seasonal entries are the normalised phase averages |
| SeasonalDecompose.AssembleSeasonalNormalised | statsmodels/tsa/seasonal.py:165-172 | for a series spanning at least one cycle, once any one seasonal entry is defined all are, and one cycle has mean 0 (additive) or 1 (multiplicative) |
| SeasonalDecompose.AssembleAdditiveComplete | statsmodels/tsa/seasonal.py:160-177 | additive, for a series spanning at least one cycle with a fully defined trend: every component is defined, `trend + seasonal + resid == x` everywhere, and one seasonal cycle has mean zero |
| SeasonalDecompose.BuildResult | statsmodels/tsa/seasonal.py:160-184 | the steps with the in-place normalisation give `Assemble` |
| SeasonalDecompose.Decomposition | statsmodels/tsa/seasonal.py:117-184 | the whole of `seasonal_decompose` as one specification function, with no contract of its own: its properties are the `Decomposition*` lemmas below, and `Decompose` is proved equal to it |
| SeasonalDecompose.DecompositionErrors | statsmodels/tsa/seasonal.py:117-158 | a failed check is the decomposition's error; the only later error happens exactly when extrapolation is asked for and the filtered trend has no defined entry |
| SeasonalDecompose.DecompositionAssembled | statsmodels/tsa/seasonal.py:117-184 | a successful decomposition is the assembly of the checked series with its trend |
| SeasonalDecompose.DecompositionOfTrend | statsmodels/tsa/seasonal.py:117-184 | once the checks pass and the trend is found, the decomposition succeeds with their assembly |
| SeasonalDecompose.DecompositionShape | statsmodels/tsa/seasonal.py:117-184 | on success the observations are kept, the components have their length, the seasonal component repeats with the period, the residual is defined exactly where trend and seasonal are (and, for the multiplicative model, nonzero), and there the components compose to the observation |
| SeasonalDecompose.DecompositionComplete | statsmodels/tsa/seasonal.py:84-89 | additive, with extrapolation on and no gap in the filtered trend's defined stretch: no component has an undefined entry, `trend + seasonal + resid == x` everywhere, and one seasonal cycle has mean zero |
| SeasonalDecompose.Decompose | statsmodels/tsa/seasonal.py:117-184 | the step-by-step function returns exactly `Decomposition` |

## Left out

- Convolution: `convolution_filter` (line 152) is not part of this model. It is a parameter that keeps the length of the series.
- Period from the index: `freq_to_period` and the `inferred_freq` lookup (lines 120, 134) are not part of this model. Their outcome is the optional `hint`.
- Wrapping: `PandasWrapper`, `array_like`, `.squeeze()`, the loop that wraps the four outputs (lines 179-182) and the pandas `weights` Series (lines 193-195) only carry labels. They are left out, and the model returns plain sequences.
- Two-dimensional input: the model handles one column. The original treats each column the same way.
- Period: it is typed as a positive integer. The original does not check it, and a period of zero fails later with a division error.
- Floating point: the model uses exact reals, so IEEE rounding is not modelled.
  - An undefined input value stands for both NaN and infinity, which the original rejects alike.
  - A division by zero (`x / trend`, averages by their mean, `x / seasonal / trend`) is modelled as undefined. IEEE arithmetic gives an infinity or NaN, and an infinity would not be skipped by `nanmean` as NaN is.
- `np.linalg.lstsq`: the model states the exact real solution.
  - With two or more points it is the unique least-squares line.
  - With one point it is the minimum-norm line through it.
  - With none it is the zero line.
  - `rcond` and the SVD are not modelled.
  - A window holding an undefined entry is modelled as a line with undefined coefficients. For filters that leave gaps inside the defined stretch, what `lstsq` does on NaN input (undefined values or an error) is not modelled.
- TrendExtrapolation.BackFirst: modelled as written. The tail window `[back_first, back)` leaves out `back` itself, while the head window `[front, front_last)` starts at `front`. No claim is made about which was intended.
- SeasonalDecompose.DecompositionComplete: only the additive model is covered. For the multiplicative model the same result also needs the trend and the seasonal averages to be nonzero, and that is not proved.
- `DecomposeResult.plot` (lines 230-284) is not part of this model.
- The `STL` re-export and the `deprecate_kwarg` decorators are not part of this model.
