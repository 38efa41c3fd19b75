/**
 * `seasonal_mean`: for each phase `i` of the cycle, the mean of the defined entries at
 * `i, i + period, i + 2 * period, ...`, undefined (NaN) entries ignored as `nanmean` does.
 */
module PhaseAverage {
  import opened Wrappers
  import opened Series
  import opened ModArith

  /**
   * The slice `x[i::period]`: the entries at `i, i + period, i + 2 * period, ...`, as many as
   * numpy's slice holds, `ceil((len - i) / period)`.
   */
  function Stride(x: seq<Value>, i: nat, period: Period): (r: seq<Value>)
    ensures |r| == if i >= |x| then 0 else (|x| - i - 1) / period + 1
    decreases |x| - i
  {
    if i >= |x| then []
    else
      DivStep(|x| - i - 1, period);
      [x[i]] + Stride(x, i + period, period)
  }

  /**
   * Reference selection: the entries at index `k` or later whose index has phase `ph`
   * (`t % period == ph`), in order.
   */
  function PhaseFrom(x: seq<Value>, k: nat, ph: nat, period: Period): seq<Value>
    decreases |x| - k
  {
    if k >= |x| then []
    else (if k % period == ph then [x[k]] else []) + PhaseFrom(x, k + 1, ph, period)
  }

  /** Indices in `[a, b)` that are not of phase `ph` contribute nothing to the selection. */
  lemma {:induction false} PhaseFromSkip(x: seq<Value>, a: nat, b: nat, ph: nat, period: Period)
    requires a <= b
    requires forall m :: a <= m < b ==> m % period != ph
    ensures PhaseFrom(x, a, ph, period) == PhaseFrom(x, b, ph, period)
    decreases b - a
  {
    if a < b {
      PhaseFromSkip(x, a + 1, b, ph, period);
      if a >= |x| {
        assert PhaseFrom(x, a + 1, ph, period) == [];
        assert PhaseFrom(x, b, ph, period) == [];
      } else {
        assert PhaseFrom(x, a, ph, period) == [] + PhaseFrom(x, a + 1, ph, period);
      }
    }
  }

  /** Stepping by `period` from an index of phase `ph` visits exactly the indices of phase `ph`. */
  lemma {:induction false} StrideFrom(x: seq<Value>, k: nat, period: Period)
    ensures Stride(x, k, period) == PhaseFrom(x, k, k % period, period)
    decreases |x| - k
  {
    if k < |x| {
      StrideFrom(x, k + period, period);
      ModShift(k, period);
      forall m | k + 1 <= m < k + period
        ensures m % period != k % period
      {
        PhaseGap(k, m, period);
      }
      PhaseFromSkip(x, k + 1, k + period, k % period, period);
    }
  }

  /**
   * `x[i::period]` for a phase `i < period` selects exactly the entries `x[t]` with
   * `t % period == i`, in order.
   */
  lemma StrideIsPhase(x: seq<Value>, i: nat, period: Period)
    requires i < period
    ensures Stride(x, i, period) == PhaseFrom(x, 0, i, period)
  {
    StrideFrom(x, i, period);
    ModSmall(i, period);
    forall m | 0 <= m < i
      ensures m % period != i
    {
      ModSmall(m, period);
    }
    PhaseFromSkip(x, 0, i, i, period);
  }

  /** No entry of `v` is defined. */
  predicate NoneDefined(v: seq<Value>) {
    forall j :: 0 <= j < |v| ==> v[j].None?
  }

  lemma NoneDefinedConcat(a: seq<Value>, b: seq<Value>)
    ensures NoneDefined(a + b) <==> NoneDefined(a) && NoneDefined(b)
  {
    assert forall j :: 0 <= j < |a| ==> (a + b)[j] == a[j];
    assert forall j :: 0 <= j < |b| ==> (a + b)[|a| + j] == b[j];
  }

  /** The selection splits into its first candidate, kept when it is of phase `ph`, and the rest. */
  lemma PhaseFromStep(x: seq<Value>, k: nat, ph: nat, period: Period)
    requires k < |x|
    ensures k % period == ph ==> PhaseFrom(x, k, ph, period) == [x[k]] + PhaseFrom(x, k + 1, ph, period)
    ensures k % period != ph ==> PhaseFrom(x, k, ph, period) == PhaseFrom(x, k + 1, ph, period)
  {
    if k % period != ph {
      assert PhaseFrom(x, k, ph, period) == [] + PhaseFrom(x, k + 1, ph, period);
    }
  }

  lemma {:induction false} PhaseEntryUndefined(x: seq<Value>, k: nat, ph: nat, period: Period, t: nat)
    requires NoneDefined(PhaseFrom(x, k, ph, period))
    requires k <= t < |x| && t % period == ph
    ensures x[t].None?
    decreases t - k
  {
    PhaseFromStep(x, k, ph, period);
    var rest := PhaseFrom(x, k + 1, ph, period);
    if k % period == ph {
      var head := [x[k]];
      NoneDefinedConcat(head, rest);
      assert head[0] == x[k];
    }
    if t > k {
      PhaseEntryUndefined(x, k + 1, ph, period, t);
    }
  }

  lemma {:induction false} PhaseUndefinedSelection(x: seq<Value>, k: nat, ph: nat, period: Period)
    requires forall t :: k <= t < |x| && t % period == ph ==> x[t].None?
    ensures NoneDefined(PhaseFrom(x, k, ph, period))
    decreases |x| - k
  {
    if k < |x| {
      PhaseUndefinedSelection(x, k + 1, ph, period);
      PhaseFromStep(x, k, ph, period);
      if k % period == ph {
        NoneDefinedConcat([x[k]], PhaseFrom(x, k + 1, ph, period));
      }
    }
  }

  /** The selection is all undefined exactly when every entry of that phase is undefined. */
  lemma PhaseFromUndefined(x: seq<Value>, k: nat, ph: nat, period: Period)
    ensures NoneDefined(PhaseFrom(x, k, ph, period))
            <==> (forall t :: k <= t < |x| && t % period == ph ==> x[t].None?)
  {
    if NoneDefined(PhaseFrom(x, k, ph, period)) {
      forall t | k <= t < |x| && t % period == ph
        ensures x[t].None?
      {
        PhaseEntryUndefined(x, k, ph, period, t);
      }
    }
    if forall t :: k <= t < |x| && t % period == ph ==> x[t].None? {
      PhaseUndefinedSelection(x, k, ph, period);
    }
  }

  /** Where every entry of phase `ph` is the number `a`, the selection is non-empty copies of `a`. */
  lemma {:induction false} PhaseFromConstant(x: seq<Value>, k: nat, ph: nat, period: Period, a: real)
    requires forall t :: k <= t < |x| && t % period == ph ==> x[t] == Some(a)
    ensures var v := PhaseFrom(x, k, ph, period);
            (|v| > 0 <==> exists t :: k <= t < |x| && t % period == ph)
            && forall j :: 0 <= j < |v| ==> v[j] == Some(a)
    decreases |x| - k
  {
    if k < |x| {
      PhaseFromConstant(x, k + 1, ph, period, a);
      var head: seq<Value> := if k % period == ph then [x[k]] else [];
      var rest := PhaseFrom(x, k + 1, ph, period);
      assert PhaseFrom(x, k, ph, period) == head + rest;
      assert forall j :: 0 <= j < |rest| ==> (head + rest)[|head| + j] == rest[j];
    }
  }

  /** The defined entry's number, or 0 for an undefined one (the part `nansum` keeps). */
  function Part(v: Value): real {
    v.GetOr(0.0)
  }

  /** Sum of the defined entries (`nansum`). */
  function DefinedSum(v: seq<Value>): real {
    if |v| == 0 then 0.0 else Part(v[0]) + DefinedSum(v[1..])
  }

  /** Number of defined entries. */
  function DefinedCount(v: seq<Value>): nat {
    if |v| == 0 then 0 else (if v[0].Some? then 1 else 0) + DefinedCount(v[1..])
  }

  lemma {:induction false} DefinedCountZero(v: seq<Value>)
    ensures DefinedCount(v) == 0 <==> forall j :: 0 <= j < |v| ==> v[j].None?
  {
    if |v| > 0 {
      DefinedCountZero(v[1..]);
      assert forall j :: 1 <= j < |v| ==> v[j] == v[1..][j - 1];
    }
  }

  lemma {:induction false} DefinedAppend(v: seq<Value>, w: seq<Value>)
    ensures DefinedSum(v + w) == DefinedSum(v) + DefinedSum(w)
    ensures DefinedCount(v + w) == DefinedCount(v) + DefinedCount(w)
  {
    if |v| > 0 {
      assert (v + w)[0] == v[0] && (v + w)[1..] == v[1..] + w;
      DefinedAppend(v[1..], w);
    } else {
      assert v + w == w;
    }
  }

  /** `nanmean`: the mean of the defined entries; undefined when no entry is defined. */
  function NanMean(v: seq<Value>): (r: Value)
    ensures r.None? <==> forall j :: 0 <= j < |v| ==> v[j].None?
    ensures r.Some? ==> r.value * DefinedCount(v) as real == DefinedSum(v)
  {
    DefinedCountZero(v);
    if DefinedCount(v) == 0 then None else Some(DefinedSum(v) / DefinedCount(v) as real)
  }

  /** Undefined entries do not count: dropping one leaves the mean as it was. */
  lemma NanMeanIgnoresUndefined(v: seq<Value>, w: seq<Value>)
    ensures NanMean(v + [None] + w) == NanMean(v + w)
  {
    var gap: seq<Value> := [None];
    DefinedAppend(v, gap);
    DefinedAppend(v + gap, w);
    DefinedAppend(v, w);
    assert DefinedSum(gap) == 0.0 && DefinedCount(gap) == 0 by {
      assert gap[1..] == [];
    }
  }

  lemma {:induction false} DefinedOfComplete(u: seq<real>)
    ensures DefinedSum(Defined(u)) == Sum(u) && DefinedCount(Defined(u)) == |u|
  {
    if |u| > 0 {
      assert Defined(u)[1..] == Defined(u[1..]);
      DefinedOfComplete(u[1..]);
    }
  }

  /** On a series without undefined entries `nanmean` is the ordinary mean. */
  lemma NanMeanOfComplete(u: seq<real>)
    requires |u| > 0
    ensures NanMean(Defined(u)) == Some(Sum(u) / |u| as real)
  {
    DefinedOfComplete(u);
  }

  lemma {:induction false} DefinedSumOfConstant(v: seq<Value>, a: real)
    requires forall j :: 0 <= j < |v| ==> v[j] == Some(a)
    ensures DefinedCount(v) == |v| && DefinedSum(v) == |v| as real * a
  {
    if |v| > 0 {
      DefinedSumOfConstant(v[1..], a);
    }
  }

  /** The mean of `m > 0` copies of the same number is that number. */
  lemma NanMeanOfConstant(v: seq<Value>, a: real)
    requires |v| > 0 && forall j :: 0 <= j < |v| ==> v[j] == Some(a)
    ensures NanMean(v) == Some(a)
  {
    DefinedSumOfConstant(v, a);
    var m := |v| as real;
    assert NanMean(v).value * m == m * a;
  }

  /** `seasonal_mean(x, period)`: one `nanmean` per phase `0 <= i < period`. */
  function SeasonalMean(x: seq<Value>, period: Period): (r: seq<Value>)
    ensures |r| == period
  {
    seq(period, i requires 0 <= i < period => NanMean(Stride(x, i, period)))
  }

  /**
   * Phase `i`'s average is the `nanmean` of the entries `x[t]` with `t % period == i`; it is
   * defined exactly when one of those entries is defined.
   */
  lemma SeasonalMeanPhase(x: seq<Value>, period: Period, i: nat)
    requires i < period
    ensures SeasonalMean(x, period)[i] == NanMean(PhaseFrom(x, 0, i, period))
    ensures SeasonalMean(x, period)[i].None? <==> forall t :: 0 <= t < |x| && t % period == i ==> x[t].None?
  {
    StrideIsPhase(x, i, period);
    PhaseFromUndefined(x, 0, i, period);
    assert NoneDefined(PhaseFrom(x, 0, i, period)) <==> NanMean(PhaseFrom(x, 0, i, period)).None?;
  }

  /** Every phase has a defined average once the series is defined and spans one cycle. */
  lemma SeasonalMeanDefined(x: seq<Value>, period: Period)
    requires AllDefined(x) && |x| >= period
    ensures AllDefined(SeasonalMean(x, period))
  {
    forall i | 0 <= i < period
      ensures SeasonalMean(x, period)[i].Some?
    {
      ModSmall(i, period);
      SeasonalMeanPhase(x, period, i);
    }
  }

  /**
   * A purely periodic series, `x[t] == c[t % period]`, spanning at least one cycle has its
   * pattern `c` as phase averages.
   */
  lemma SeasonalMeanOfPeriodic(x: seq<Value>, period: Period, c: seq<real>)
    requires |c| == period && |x| >= period
    requires forall t :: 0 <= t < |x| ==> x[t] == Some(c[t % period])
    ensures SeasonalMean(x, period) == Defined(c)
  {
    forall i | 0 <= i < period
      ensures SeasonalMean(x, period)[i] == Some(c[i])
    {
      ModSmall(i, period);
      PhaseFromConstant(x, 0, i, period, c[i]);
      SeasonalMeanPhase(x, period, i);
      NanMeanOfConstant(PhaseFrom(x, 0, i, period), c[i]);
    }
  }
}
