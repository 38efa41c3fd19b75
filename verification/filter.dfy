/** The moving-average filter used for the trend when the caller supplies none. */
module TrendFilter {
  import opened Series

  /**
   * Even period: half weights at both ends, `[0.5, 1, ..., 1, 0.5] / period`, so that the
   * centred window spans exactly one cycle; odd period: `period` equal weights.
   */
  function DefaultFilter(period: Period): (w: seq<real>)
    ensures period % 2 == 0 ==>
      && |w| == period + 1
      && w[0] == w[period] == 0.5 / period as real
      && forall i :: 0 < i < period ==> w[i] == 1.0 / period as real
    ensures period % 2 == 1 ==>
      && |w| == period
      && forall i :: 0 <= i < period ==> w[i] == 1.0 / period as real
  {
    if period % 2 == 0 then
      var w := Divided([0.5] + Constant(1.0, period - 1) + [0.5], period as real);
      assert forall i :: 0 < i < period ==> w[i] * period as real == 1.0;
      w
    else
      Constant(1.0 / period as real, period)
  }

  /** The default weights always sum to one, so the filter preserves a constant level. */
  lemma DefaultFilterSumsToOne(period: Period)
    ensures Sum(DefaultFilter(period)) == 1.0
  {
    var p := period as real;
    if period % 2 == 0 {
      var ones := Constant(1.0, period - 1);
      var raw := [0.5] + ones + [0.5];
      SumAppend([0.5] + ones, [0.5]);
      SumAppend([0.5], ones);
      SumConstant(1.0, period - 1);
      assert Sum([0.5]) == 0.5;
      assert Sum(ones) == p - 1.0;
      assert Sum(raw) == p;
      SumDivided(raw, p);
      assert DefaultFilter(period) == Divided(raw, p);
    } else {
      SumConstant(1.0 / p, period);
      assert p * (1.0 / p) == 1.0;
    }
  }
}
