/**
 * The exact algebra of `seasonal_decompose` once the trend is known: removing the trend,
 * normalising the phase averages, tiling them into the seasonal component and forming
 * the residual. Undefined entries (NaN) are `None`; a division by zero, which IEEE
 * arithmetic turns into an infinity or NaN, is `None` as well.
 */
module Components {
  import opened Wrappers
  import opened Series
  import opened ModArith

  /** Additive, `x = trend + seasonal + resid`, or multiplicative, `x = trend * seasonal * resid`. */
  datatype Model = Additive | Multiplicative

  /** How the model puts two components together: `a + b` or `a * b`. */
  function Compose(model: Model, a: real, b: real): real {
    match model
    case Additive => a + b
    case Multiplicative => a * b
  }

  /**
   * Takes component `b` out of `a`: `a - b` or `a / b`. The result puts `a` back together
   * with `b`; it is undefined when either side is, or when dividing by zero.
   */
  function Remove(model: Model, a: Value, b: Value): (r: Value)
    ensures r.Some? <==> a.Some? && b.Some? && (model == Multiplicative ==> b.value != 0.0)
    ensures r.Some? ==> Compose(model, b.value, r.value) == a.value
  {
    if a.None? || b.None? then None
    else
      match model
      case Additive => Some(a.value - b.value)
      case Multiplicative => if b.value == 0.0 then None else Some(a.value / b.value)
  }

  /** `x - trend` or `x / trend`: defined where the trend is (and, to divide, nonzero). */
  function Detrend(x: seq<real>, trend: seq<Value>, model: Model): (r: seq<Value>)
    requires |trend| == |x|
    ensures |r| == |x|
    ensures forall t :: 0 <= t < |x| ==>
      (r[t].Some? <==> trend[t].Some? && (model == Multiplicative ==> trend[t].value != 0.0))
    ensures forall t :: 0 <= t < |x| && r[t].Some? ==> Compose(model, trend[t].value, r[t].value) == x[t]
  {
    seq(|x|, t requires 0 <= t < |x| => Remove(model, Some(x[t]), trend[t]))
  }

  /** `np.mean` without NaN skipping: undefined as soon as one entry is. */
  function Mean(v: seq<Value>): (r: Value)
    ensures r.Some? <==> |v| > 0 && AllDefined(v)
    ensures r.Some? ==> r.value * |v| as real == Sum(Values(v))
  {
    if |v| > 0 && AllDefined(v) then Some(Sum(Values(v)) / |v| as real) else None
  }

  /**
   * `period_averages -= mean` (additive) or `period_averages /= mean` (multiplicative):
   * every average has the mean of all of them taken out.
   */
  function Normalised(avgs: seq<Value>, model: Model): (r: seq<Value>)
    ensures |r| == |avgs|
  {
    var m := Mean(avgs);
    seq(|avgs|, i requires 0 <= i < |avgs| => Remove(model, avgs[i], m))
  }

  /** One undefined average makes the mean, and so every normalised average, undefined. */
  lemma NormalisedUndefined(avgs: seq<Value>, model: Model)
    requires !AllDefined(avgs)
    ensures forall i :: 0 <= i < |avgs| ==> Normalised(avgs, model)[i].None?
  {
  }

  /** Additive normalisation leaves averages that sum to zero. */
  lemma NormalisedSumsToZero(avgs: seq<Value>)
    requires |avgs| > 0 && AllDefined(avgs)
    ensures AllDefined(Normalised(avgs, Additive))
    ensures Sum(Values(Normalised(avgs, Additive))) == 0.0
    ensures Mean(Normalised(avgs, Additive)) == Some(0.0)
  {
    var r := Normalised(avgs, Additive);
    var m := Mean(avgs).value;
    var u, w := Values(avgs), Values(r);
    var n := |avgs| as real;
    assert forall j :: 0 <= j < |w| ==> w[j] == u[j] - Constant(m, |avgs|)[j];
    SumSub(u, Constant(m, |avgs|), w);
    SumConstant(m, |avgs|);
    assert m * n == Sum(u);
  }

  /** Multiplicative normalisation, by a nonzero mean, leaves averages whose mean is one. */
  lemma NormalisedMeanOne(avgs: seq<Value>)
    requires |avgs| > 0 && AllDefined(avgs) && Mean(avgs).value != 0.0
    ensures AllDefined(Normalised(avgs, Multiplicative))
    ensures Sum(Values(Normalised(avgs, Multiplicative))) == |avgs| as real
    ensures Mean(Normalised(avgs, Multiplicative)) == Some(1.0)
  {
    var r := Normalised(avgs, Multiplicative);
    var m := Mean(avgs).value;
    var u, w := Values(avgs), Values(r);
    var n := |avgs| as real;
    assert forall j :: 0 <= j < |w| ==> m * w[j] == u[j];
    assert forall j :: 0 <= j < |w| ==> w[j] == (1.0 / m) * u[j];
    SumScale(u, w, 1.0 / m);
    assert m * n == Sum(u);
    assert (1.0 / m) * m == 1.0;
    assert (1.0 / m) * (m * n) == ((1.0 / m) * m) * n;
    assert Sum(w) == n;
    var mr := Mean(r).value;
    assert mr * n == Sum(w);
    UnitFactor(mr, n);
  }

  lemma UnitFactor(a: real, n: real)
    requires n > 0.0 && a * n == n
    ensures a == 1.0
  {
    assert (a - 1.0) * n == 0.0;
  }

  /** Normalising twice is normalising once: the normalised averages already have mean 0 (or 1). */
  lemma NormalisedIdempotent(avgs: seq<Value>, model: Model)
    requires |avgs| > 0 && AllDefined(avgs)
    requires model == Multiplicative ==> Mean(avgs).value != 0.0
    ensures Normalised(Normalised(avgs, model), model) == Normalised(avgs, model)
  {
    var r := Normalised(avgs, model);
    match model
    case Additive =>
      NormalisedSumsToZero(avgs);
      assert Normalised(r, model) == r;
    case Multiplicative =>
      NormalisedMeanOne(avgs);
      assert Normalised(r, model) == r;
  }

  /** The in-place `period_averages -= mean` / `period_averages /= mean`. */
  method NormaliseInPlace(avgs: array<Value>, model: Model)
    modifies avgs
    ensures avgs[..] == Normalised(old(avgs[..]), model)
  {
    var m := Mean(avgs[..]);
    var i := 0;
    while i < avgs.Length
      invariant 0 <= i <= avgs.Length
      invariant forall j :: 0 <= j < i ==> avgs[j] == Remove(model, old(avgs[j]), m)
      invariant forall j :: i <= j < avgs.Length ==> avgs[j] == old(avgs[j])
    {
      avgs[i] := Remove(model, avgs[i], m);
      i := i + 1;
    }
  }

  /** `np.tile(c, n)`: `n` back-to-back copies of the cycle `c`. */
  function Repeat(c: seq<Value>, n: nat): (r: seq<Value>)
    ensures |r| == n * |c|
  {
    if n == 0 then [] else Repeat(c, n - 1) + c
  }

  /** Entry `t` of the repetition is entry `t % |c|` of the cycle. */
  lemma {:induction false} RepeatPhase(c: seq<Value>, n: nat)
    requires |c| > 0
    ensures forall t :: 0 <= t < n * |c| ==> Repeat(c, n)[t] == c[t % |c|]
  {
    if n > 0 {
      RepeatPhase(c, n - 1);
      var prev := Repeat(c, n - 1);
      forall t | |prev| <= t < n * |c|
        ensures Repeat(c, n)[t] == c[t % |c|]
      {
        DivModUnique(t, |c|, n - 1, t - |prev|);
      }
    }
  }

  /**
   * `np.tile(avgs, nobs // period + 1)[:nobs]`: the seasonal component, one cycle of
   * phase averages after another, cut to `nobs` entries.
   */
  function Tile(avgs: seq<Value>, nobs: nat): (r: seq<Value>)
    requires |avgs| > 0
    ensures |r| == nobs
    ensures forall t :: 0 <= t < nobs ==> r[t] == avgs[t % |avgs|]
  {
    var copies := nobs / |avgs| + 1;
    CoverBound(nobs, |avgs|);
    RepeatPhase(avgs, copies);
    Repeat(avgs, copies)[..nobs]
  }

  /** The seasonal component repeats with the period wherever both entries exist. */
  lemma TilePeriodic(avgs: seq<Value>, nobs: nat, t: nat)
    requires |avgs| > 0 && t + |avgs| < nobs
    ensures Tile(avgs, nobs)[t] == Tile(avgs, nobs)[t + |avgs|]
  {
    ModShift(t, |avgs|);
  }

  /** Tiling defined averages gives a seasonal component that is defined everywhere. */
  lemma TileDefined(avgs: seq<Value>, nobs: nat)
    requires |avgs| > 0 && AllDefined(avgs)
    ensures AllDefined(Tile(avgs, nobs))
  {
  }

  /**
   * The residual: `detrended - seasonal` (additive) or `x / seasonal / trend`
   * (multiplicative). Where it is defined, trend, seasonal and residual put back together
   * give the observation; an undefined trend entry leaves the residual undefined.
   */
  function Residual(x: seq<real>, trend: seq<Value>, seasonal: seq<Value>, model: Model): (r: seq<Value>)
    requires |trend| == |x| && |seasonal| == |x|
    ensures |r| == |x|
    ensures forall t :: 0 <= t < |x| ==>
      (r[t].Some? <==> trend[t].Some? && seasonal[t].Some?
                       && (model == Multiplicative ==> trend[t].value != 0.0 && seasonal[t].value != 0.0))
    ensures forall t :: 0 <= t < |x| && r[t].Some? ==>
      Compose(model, Compose(model, trend[t].value, seasonal[t].value), r[t].value) == x[t]
  {
    match model
    case Additive =>
      var detrended := Detrend(x, trend, Additive);
      seq(|x|, t requires 0 <= t < |x| => Remove(Additive, detrended[t], seasonal[t]))
    case Multiplicative =>
      var r := seq(|x|, t requires 0 <= t < |x| =>
                      Remove(Multiplicative, Remove(Multiplicative, Some(x[t]), seasonal[t]), trend[t]));
      assert forall t :: 0 <= t < |x| && r[t].Some? ==>
        (trend[t].value * seasonal[t].value) * r[t].value == seasonal[t].value * (trend[t].value * r[t].value);
      r
  }
}
