/** The record `seasonal_decompose` returns: its components, stored once and only read. */
module DecomposeResults {
  import opened Wrappers
  import opened Series

  /** Observed series, the three components and the observation weights. */
  datatype DecomposeResult = DecomposeResult(
    observed: seq<real>,
    seasonal: seq<Value>,
    trend: seq<Value>,
    resid: seq<Value>,
    weights: seq<real>)
  {
    /** Number of observations, the length of the observed series. */
    function Nobs(): nat {
      |observed|
    }
  }

  /**
   * `DecomposeResult(observed, seasonal, trend, resid, weights)`: the accessors give back
   * what was passed in, and missing weights default to one per observation.
   */
  function MakeResult(observed: seq<real>, seasonal: seq<Value>, trend: seq<Value>, resid: seq<Value>,
                      weights: Option<seq<real>>): (r: DecomposeResult)
    ensures r.observed == observed && r.seasonal == seasonal && r.trend == trend && r.resid == resid
    ensures r.Nobs() == |observed|
    ensures weights.Some? ==> r.weights == weights.value
    ensures weights.None? ==> |r.weights| == |observed| && forall i :: 0 <= i < |observed| ==> r.weights[i] == 1.0
  {
    var w := match weights
      case Some(given) => given
      case None => Constant(1.0, |observed|);
    DecomposeResult(observed, seasonal, trend, resid, w)
  }
}
