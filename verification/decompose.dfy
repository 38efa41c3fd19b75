/**
 * `seasonal_decompose` on a one-column series: validate the input, resolve the period,
 * smooth out the seasonal cycle with a moving-average filter, optionally extrapolate the
 * trend to the ends, average the detrended series per phase, normalise and tile those
 * averages into the seasonal component, and take both out to leave the residual.
 *
 * The convolution with the filter is library code outside this model; it is a parameter
 * `convolve(x, filt, nsides)` that returns one entry, possibly undefined, per observation.
 */
module SeasonalDecompose {
  import opened Wrappers
  import opened Series
  import opened ModArith
  import opened TrendFilter
  import opened TrendExtrapolation
  import opened PhaseAverage
  import opened Components
  import opened DecomposeResults

  /** `model.startswith('m')`: a name starting with `m` is multiplicative, any other additive. */
  function ParseModel(name: string): (m: Model)
    ensures m == Multiplicative <==> |name| > 0 && name[0] == 'm'
  {
    if |name| > 0 && name[0] == 'm' then Multiplicative else Additive
  }

  /** The `extrapolate_trend` argument: a number of points, or `'freq'` for `period - 1`. */
  datatype ExtrapolateSetting = Points(count: int) | PeriodMinusOne

  /**
   * The `npoints` passed to `_extrapolate_trend`, one more than the setting; `None` when the
   * setting is not positive and the trend is left as the filter produced it.
   */
  function ExtrapolationPoints(setting: ExtrapolateSetting, period: Period): (r: Option<nat>)
    ensures setting.Points? ==> (r.Some? <==> setting.count > 0)
    ensures setting.Points? && r.Some? ==> r.value == setting.count + 1
    ensures setting.PeriodMinusOne? ==> (r.Some? <==> period > 1)
    ensures setting.PeriodMinusOne? && r.Some? ==> r.value == period
  {
    var count := match setting
      case Points(n) => n
      case PeriodMinusOne => period - 1;
    if count > 0 then Some(count + 1) else None
  }

  /** Why no decomposition is produced. */
  datatype DecomposeError =
    | MissingValues       // a NaN or infinite observation
    | NonPositiveValues   // multiplicative model with an observation `<= 0`
    | NoPeriod            // no period given and none inferred from the index frequency
    | TooFewObservations(required: nat, given: nat)  // fewer than two full cycles: `2 * period` needed, `nobs` given
    | NoDefinedTrend      // extrapolation asked for, but the filtered trend is undefined everywhere

  /** The validated observations and the period in force. */
  datatype Checked = Checked(values: seq<real>, period: Period)

  /** Some observation is zero or negative (`np.any(x <= 0)`). */
  predicate NonPositive(values: seq<real>) {
    exists t :: 0 <= t < |values| && values[t] <= 0.0
  }

  /**
   * The checks, in the order the original makes them. `hint` is the period inferred from the
   * index frequency of a pandas input; it is only consulted when no period is given.
   */
  function Validate(x: seq<Value>, model: Model, period: Option<Period>, hint: Option<Period>)
    : (r: Result<Checked, DecomposeError>)
    ensures r == Failure(MissingValues) <==> !AllDefined(x)
    ensures r == Failure(NonPositiveValues) <==>
      AllDefined(x) && model == Multiplicative && NonPositive(Values(x))
    ensures r == Failure(NoPeriod) <==>
      AllDefined(x) && !(model == Multiplicative && NonPositive(Values(x))) && period.None? && hint.None?
    ensures r.Failure? && r.error.TooFewObservations? <==>
      AllDefined(x) && !(model == Multiplicative && NonPositive(Values(x))) && (period.Some? || hint.Some?)
      && |x| < 2 * (if period.Some? then period.value else hint.value)
    ensures r.Failure? && r.error.TooFewObservations? ==>
      r.error.required == 2 * (if period.Some? then period.value else hint.value) && r.error.given == |x|
    ensures r.Success? ==>
      && AllDefined(x) && r.value.values == Values(x)
      && (model == Multiplicative ==> forall t :: 0 <= t < |x| ==> r.value.values[t] > 0.0)
      && r.value.period == (if period.Some? then period.value else hint.value)
      && |x| >= 2 * r.value.period
    ensures r != Failure(NoDefinedTrend)
  {
    if !AllDefined(x) then Failure(MissingValues)
    else if model == Multiplicative && NonPositive(Values(x)) then Failure(NonPositiveValues)
    else if period.None? && hint.None? then Failure(NoPeriod)
    else
      var p := if period.Some? then period.value else hint.value;
      if |x| < 2 * p then Failure(TooFewObservations(2 * p, |x|)) else Success(Checked(Values(x), p))
  }

  /**
   * The filter in force: the one given, or else the default centred moving average, whose
   * weights sum to one.
   */
  function FilterFor(filt: Option<seq<real>>, period: Period): (w: seq<real>)
    ensures filt.Some? ==> w == filt.value
    ensures filt.None? ==> w == DefaultFilter(period) && Sum(w) == 1.0
  {
    match filt
    case Some(given) => given
    case None =>
      DefaultFilterSumsToOne(period);
      DefaultFilter(period)
  }

  /** `nsides = int(two_sided) + 1`: 2 for a centred filter, 1 for past values only. */
  function Sides(twoSided: bool): (n: nat)
    ensures n == 2 <==> twoSided
    ensures n == 1 <==> !twoSided
  {
    if twoSided then 2 else 1
  }

  /** The normalised phase averages of the detrended series: one seasonal cycle. */
  function SeasonalAverages(values: seq<real>, trend: seq<Value>, period: Period, model: Model): (r: seq<Value>)
    requires |trend| == |values|
    ensures |r| == period
  {
    Normalised(SeasonalMean(Detrend(values, trend, model), period), model)
  }

  /**
   * Everything after the trend: detrend, average per phase, normalise, tile and take the
   * residual. The seasonal entry at `t` is the average of phase `t % period`; the residual is
   * defined exactly where trend and seasonal are (and nonzero, to divide), and there trend,
   * seasonal and residual put together give back the observation.
   */
  function Assemble(values: seq<real>, trend: seq<Value>, period: Period, model: Model): (r: DecomposeResult)
    requires |trend| == |values|
    ensures r.observed == values && r.trend == trend
    ensures |r.seasonal| == |values| && |r.resid| == |values| && |r.weights| == |values|
    ensures forall i :: 0 <= i < |values| ==> r.weights[i] == 1.0
    ensures forall t :: 0 <= t < |values| ==> r.seasonal[t] == SeasonalAverages(values, trend, period, model)[t % period]
    ensures forall t :: 0 <= t < |values| ==>
      (r.resid[t].Some? <==> trend[t].Some? && r.seasonal[t].Some?
                             && (model == Multiplicative ==> trend[t].value != 0.0 && r.seasonal[t].value != 0.0))
    ensures forall t :: 0 <= t < |values| && r.resid[t].Some? ==>
      Compose(model, Compose(model, trend[t].value, r.seasonal[t].value), r.resid[t].value) == values[t]
  {
    var seasonal := Tile(SeasonalAverages(values, trend, period, model), |values|);
    MakeResult(values, seasonal, trend, Residual(values, trend, seasonal, model), None)
  }

  /** The first cycle of the seasonal component is the normalised phase averages. */
  lemma AssembleFirstCycle(values: seq<real>, trend: seq<Value>, period: Period, model: Model)
    requires |trend| == |values| >= period
    ensures Assemble(values, trend, period, model).seasonal[..period] == SeasonalAverages(values, trend, period, model)
  {
    var seasonal := Assemble(values, trend, period, model).seasonal;
    forall t | 0 <= t < period
      ensures seasonal[t] == SeasonalAverages(values, trend, period, model)[t]
    {
      ModSmall(t, period);
    }
  }

  /**
   * Once one seasonal entry is defined they all are, and over one cycle the seasonal
   * component averages to 0 (additive) or to 1 (multiplicative).
   */
  lemma AssembleSeasonalNormalised(values: seq<real>, trend: seq<Value>, period: Period, model: Model)
    requires |trend| == |values| >= period
    requires exists t :: 0 <= t < |values| && Assemble(values, trend, period, model).seasonal[t].Some?
    ensures var seasonal := Assemble(values, trend, period, model).seasonal;
            && AllDefined(seasonal)
            && Mean(seasonal[..period]) == Some(if model == Additive then 0.0 else 1.0)
  {
    var means := SeasonalMean(Detrend(values, trend, model), period);
    AssembleFirstCycle(values, trend, period, model);
    if !AllDefined(means) {
      NormalisedUndefined(means, model);
      assert false;
    }
    match model
    case Additive =>
      NormalisedSumsToZero(means);
    case Multiplicative =>
      assert Normalised(means, model)[0].Some?;
      NormalisedMeanOne(means);
  }

  /**
   * An additive decomposition with nothing left undefined: `trend + seasonal + resid` is the
   * observation at every index, and the seasonal component averages to zero over a cycle.
   */
  predicate AdditiveExact(r: DecomposeResult, period: Period) {
    && |r.trend| == |r.observed| && |r.seasonal| == |r.observed| && |r.resid| == |r.observed|
    && |r.observed| >= period
    && AllDefined(r.trend) && AllDefined(r.seasonal) && AllDefined(r.resid)
    && (forall t :: 0 <= t < |r.observed| ==> r.trend[t].value + r.seasonal[t].value + r.resid[t].value == r.observed[t])
    && Mean(r.seasonal[..period]) == Some(0.0)
  }

  /** Additive model with a trend defined everywhere: the decomposition is exact. */
  lemma AssembleAdditiveComplete(values: seq<real>, trend: seq<Value>, period: Period)
    requires |trend| == |values| >= period && AllDefined(trend)
    ensures AdditiveExact(Assemble(values, trend, period, Additive), period)
  {
    var detrended := Detrend(values, trend, Additive);
    var means := SeasonalMean(detrended, period);
    SeasonalMeanDefined(detrended, period);
    NormalisedSumsToZero(means);
    var averages := SeasonalAverages(values, trend, period, Additive);
    TileDefined(averages, |values|);
    var r := Assemble(values, trend, period, Additive);
    assert r.seasonal == Tile(averages, |values|);
    assert r.resid == Residual(values, trend, r.seasonal, Additive);
    AssembleSeasonalNormalised(values, trend, period, Additive);
  }

  /**
   * The trend passed on to the rest of the decomposition: the filtered series, extrapolated
   * at both ends when `npoints` is given; `None` when extrapolation finds no defined entry.
   */
  function TrendOf(filtered: seq<Value>, npoints: Option<nat>): (r: Option<seq<Value>>)
    ensures r.Some? ==> |r.value| == |filtered|
    ensures npoints.None? ==> r == Some(filtered)
    ensures npoints.Some? ==> r == Extrapolated(filtered, npoints.value)
  {
    match npoints
    case None => Some(filtered)
    case Some(n) => Extrapolated(filtered, n)
  }

  /** `seasonal_decompose(x, model, filt, period, two_sided, extrapolate_trend)`. */
  function Decomposition(x: seq<Value>, modelName: string, filt: Option<seq<real>>, period: Option<Period>,
                         hint: Option<Period>, twoSided: bool, extrapolate: ExtrapolateSetting,
                         convolve: (seq<real>, seq<real>, nat) -> seq<Value>)
    : Result<DecomposeResult, DecomposeError>
    requires forall v, f, n :: |convolve(v, f, n)| == |v|
  {
    var model := ParseModel(modelName);
    match Validate(x, model, period, hint)
    case Failure(e) => Failure(e)
    case Success(c) =>
      var filtered := convolve(c.values, FilterFor(filt, c.period), Sides(twoSided));
      match TrendOf(filtered, ExtrapolationPoints(extrapolate, c.period))
      case None => Failure(NoDefinedTrend)
      case Some(trend) => Success(Assemble(c.values, trend, c.period, model))
  }

  /**
   * A failed check is the error of the whole decomposition, and the only later error is
   * `NoDefinedTrend`: extrapolation was asked for and the filtered trend has no defined entry.
   */
  lemma DecompositionErrors(x: seq<Value>, modelName: string, filt: Option<seq<real>>, period: Option<Period>,
                            hint: Option<Period>, twoSided: bool, extrapolate: ExtrapolateSetting,
                            convolve: (seq<real>, seq<real>, nat) -> seq<Value>)
    requires forall v, f, n :: |convolve(v, f, n)| == |v|
    ensures var v := Validate(x, ParseModel(modelName), period, hint);
            v.Failure? ==> Decomposition(x, modelName, filt, period, hint, twoSided, extrapolate, convolve) == Failure(v.error)
    ensures var v := Validate(x, ParseModel(modelName), period, hint);
            Decomposition(x, modelName, filt, period, hint, twoSided, extrapolate, convolve) == Failure(NoDefinedTrend)
            <==> && v.Success?
                 && ExtrapolationPoints(extrapolate, v.value.period).Some?
                 && forall j :: 0 <= j < |x| ==> convolve(v.value.values, FilterFor(filt, v.value.period), Sides(twoSided))[j].None?
  {
    var v := Validate(x, ParseModel(modelName), period, hint);
    if v.Success? {
      var filtered := convolve(v.value.values, FilterFor(filt, v.value.period), Sides(twoSided));
      assert |filtered| == |x|;
    }
  }

  /** A successful decomposition is the assembly of the checked series with its trend. */
  lemma DecompositionAssembled(x: seq<Value>, modelName: string, filt: Option<seq<real>>, period: Option<Period>,
                               hint: Option<Period>, twoSided: bool, extrapolate: ExtrapolateSetting,
                               convolve: (seq<real>, seq<real>, nat) -> seq<Value>)
    requires forall v, f, n :: |convolve(v, f, n)| == |v|
    requires Decomposition(x, modelName, filt, period, hint, twoSided, extrapolate, convolve).Success?
    ensures Validate(x, ParseModel(modelName), period, hint).Success?
    ensures var c := Validate(x, ParseModel(modelName), period, hint).value;
            var trend := TrendOf(convolve(c.values, FilterFor(filt, c.period), Sides(twoSided)),
                                 ExtrapolationPoints(extrapolate, c.period));
            && trend.Some? && |trend.value| == |c.values|
            && Decomposition(x, modelName, filt, period, hint, twoSided, extrapolate, convolve).value
               == Assemble(c.values, trend.value, c.period, ParseModel(modelName))
  {
  }

  /** Once the checks pass and the trend is found, the decomposition is its assembly. */
  lemma DecompositionOfTrend(x: seq<Value>, modelName: string, filt: Option<seq<real>>, period: Option<Period>,
                             hint: Option<Period>, twoSided: bool, extrapolate: ExtrapolateSetting,
                             convolve: (seq<real>, seq<real>, nat) -> seq<Value>, c: Checked, trend: seq<Value>)
    requires forall v, f, n :: |convolve(v, f, n)| == |v|
    requires Validate(x, ParseModel(modelName), period, hint) == Success(c)
    requires TrendOf(convolve(c.values, FilterFor(filt, c.period), Sides(twoSided)),
                     ExtrapolationPoints(extrapolate, c.period)) == Some(trend)
    ensures |trend| == |c.values|
    ensures Decomposition(x, modelName, filt, period, hint, twoSided, extrapolate, convolve)
            == Success(Assemble(c.values, trend, c.period, ParseModel(modelName)))
  {
    assert |convolve(c.values, FilterFor(filt, c.period), Sides(twoSided))| == |c.values|;
  }

  /**
   * A decomposition that succeeds keeps the observations, gives components as long as the
   * series, a seasonal component that repeats with the period, and a residual that is defined
   * exactly where trend and seasonal are (and nonzero, to divide) and there puts the
   * observation back together with them.
   */
  lemma DecompositionShape(x: seq<Value>, modelName: string, filt: Option<seq<real>>, period: Option<Period>,
                           hint: Option<Period>, twoSided: bool, extrapolate: ExtrapolateSetting,
                           convolve: (seq<real>, seq<real>, nat) -> seq<Value>)
    requires forall v, f, n :: |convolve(v, f, n)| == |v|
    requires Decomposition(x, modelName, filt, period, hint, twoSided, extrapolate, convolve).Success?
    ensures Validate(x, ParseModel(modelName), period, hint).Success?
    ensures var r := Decomposition(x, modelName, filt, period, hint, twoSided, extrapolate, convolve).value;
            var p := Validate(x, ParseModel(modelName), period, hint).value.period;
            && AllDefined(x) && r.observed == Values(x) && |x| >= 2 * p
            && |r.trend| == |x| && |r.seasonal| == |x| && |r.resid| == |x|
            && (forall t :: 0 <= t && t + p < |x| ==> r.seasonal[t] == r.seasonal[t + p])
            && (forall t :: 0 <= t < |x| ==>
                  (r.resid[t].Some? <==> r.trend[t].Some? && r.seasonal[t].Some?
                                         && (ParseModel(modelName) == Multiplicative ==>
                                               r.trend[t].value != 0.0 && r.seasonal[t].value != 0.0)))
            && (forall t :: 0 <= t < |x| && r.resid[t].Some? ==>
                  Compose(ParseModel(modelName), Compose(ParseModel(modelName), r.trend[t].value, r.seasonal[t].value),
                             r.resid[t].value) == r.observed[t])
  {
    DecompositionAssembled(x, modelName, filt, period, hint, twoSided, extrapolate, convolve);
    var c := Validate(x, ParseModel(modelName), period, hint).value;
    var trend := TrendOf(convolve(c.values, FilterFor(filt, c.period), Sides(twoSided)),
                         ExtrapolationPoints(extrapolate, c.period)).value;
    var r := Assemble(c.values, trend, c.period, ParseModel(modelName));
    var p := c.period;
    forall t | 0 <= t && t + p < |x|
      ensures r.seasonal[t] == r.seasonal[t + p]
    {
      ModShift(t, p);
    }
  }

  /**
   * With extrapolation on and a filtered trend whose defined stretch has no gap, the additive
   * decomposition is exact: no entry is left undefined, `trend + seasonal + resid` is the
   * observation everywhere, and the seasonal component averages to zero over a cycle.
   */
  lemma DecompositionComplete(x: seq<Value>, modelName: string, filt: Option<seq<real>>, period: Option<Period>,
                              hint: Option<Period>, twoSided: bool, extrapolate: ExtrapolateSetting,
                              convolve: (seq<real>, seq<real>, nat) -> seq<Value>, c: Checked)
    requires forall v, f, n :: |convolve(v, f, n)| == |v|
    requires ParseModel(modelName) == Additive
    requires Validate(x, Additive, period, hint) == Success(c)
    requires var filtered := convolve(c.values, FilterFor(filt, c.period), Sides(twoSided));
             && ExtrapolationPoints(extrapolate, c.period).Some?
             && DefinedSpan(filtered).Some?
             && forall j :: DefinedSpan(filtered).value.front <= j <= DefinedSpan(filtered).value.back ==> filtered[j].Some?
    ensures Decomposition(x, modelName, filt, period, hint, twoSided, extrapolate, convolve).Success?
    ensures AdditiveExact(Decomposition(x, modelName, filt, period, hint, twoSided, extrapolate, convolve).value, c.period)
  {
    var filtered := convolve(c.values, FilterFor(filt, c.period), Sides(twoSided));
    var npoints := ExtrapolationPoints(extrapolate, c.period).value;
    ExtrapolatedDefined(filtered, npoints);
    var trend := Extrapolated(filtered, npoints).value;
    DecompositionOfTrend(x, modelName, filt, period, hint, twoSided, extrapolate, convolve, c, trend);
    AssembleAdditiveComplete(c.values, trend, c.period);
  }

  /** The checks of `seasonal_decompose`, one `raise` after another. */
  method Check(x: seq<Value>, model: Model, period: Option<Period>, hint: Option<Period>)
    returns (r: Result<Checked, DecomposeError>)
    ensures r == Validate(x, model, period, hint)
  {
    if !AllDefined(x) {
      return Failure(MissingValues);
    }
    var values := Values(x);
    if model == Multiplicative && NonPositive(values) {
      return Failure(NonPositiveValues);
    }
    var p: Period;
    if period.Some? {
      p := period.value;
    } else if hint.Some? {
      p := hint.value;
    } else {
      return Failure(NoPeriod);
    }
    if |values| < 2 * p {
      return Failure(TooFewObservations(2 * p, |values|));
    }
    return Success(Checked(values, p));
  }

  /** `trend = _extrapolate_trend(trend, npoints)` when asked for, on a fresh array. */
  method ExtendTrend(filtered: seq<Value>, npoints: Option<nat>) returns (r: Option<seq<Value>>)
    ensures r == TrendOf(filtered, npoints)
  {
    var trend := new Value[|filtered|](i requires 0 <= i < |filtered| => filtered[i]);
    assert trend[..] == filtered;
    if npoints.Some? {
      var found := ExtrapolateTrend(trend, npoints.value);
      if !found {
        return None;
      }
    }
    return Some(trend[..]);
  }

  /** Detrend, average per phase, normalise the averages in place, tile, take the residual. */
  method BuildResult(values: seq<real>, trend: seq<Value>, period: Period, model: Model)
    returns (r: DecomposeResult)
    requires |trend| == |values|
    ensures r == Assemble(values, trend, period, model)
  {
    var detrended := Detrend(values, trend, model);
    var means := SeasonalMean(detrended, period);
    var averages := new Value[period](i requires 0 <= i < period => means[i]);
    assert averages[..] == means;
    NormaliseInPlace(averages, model);
    var seasonal := Tile(averages[..], |values|);
    var resid := Residual(values, trend, seasonal, model);
    r := MakeResult(values, seasonal, trend, resid, None);
  }

  /** `seasonal_decompose`, step by step: check, filter, extrapolate, assemble. */
  method Decompose(x: seq<Value>, modelName: string, filt: Option<seq<real>>, period: Option<Period>,
                   hint: Option<Period>, twoSided: bool, extrapolate: ExtrapolateSetting,
                   convolve: (seq<real>, seq<real>, nat) -> seq<Value>)
    returns (r: Result<DecomposeResult, DecomposeError>)
    requires forall v, f, n :: |convolve(v, f, n)| == |v|
    ensures r == Decomposition(x, modelName, filt, period, hint, twoSided, extrapolate, convolve)
  {
    var model := ParseModel(modelName);
    var checked := Check(x, model, period, hint);
    if checked.Failure? {
      return Failure(checked.error);
    }
    var values, p := checked.value.values, checked.value.period;
    var filter := FilterFor(filt, p);
    var filtered := convolve(values, filter, Sides(twoSided));
    var trend := ExtendTrend(filtered, ExtrapolationPoints(extrapolate, p));
    if trend.None? {
      return Failure(NoDefinedTrend);
    }
    var result := BuildResult(values, trend.value, p, model);
    return Success(result);
  }
}
