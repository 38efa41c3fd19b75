/**
 * Trend end-point extrapolation (`_extrapolate_trend`). A centred moving average leaves the
 * first and last entries of the trend undefined (NaN). They are overwritten in place with a
 * straight line fitted by least squares to the `npoints` defined entries nearest to each end.
 */
module TrendExtrapolation {
  import opened Wrappers
  import opened Series
  import opened LeastSquares

  /** Index of the first defined entry, scanning forwards; `None` when there is none. */
  function FirstDefined(s: seq<Value>): (r: Option<nat>)
    ensures r.None? <==> forall j :: 0 <= j < |s| ==> s[j].None?
    ensures r.Some? ==> r.value < |s| && s[r.value].Some?
    ensures r.Some? ==> forall j :: 0 <= j < r.value ==> s[j].None?
  {
    if |s| == 0 then None
    else if s[0].Some? then Some(0)
    else
      match FirstDefined(s[1..])
      case None =>
        assert forall j :: 1 <= j < |s| ==> s[j] == s[1..][j - 1];
        None
      case Some(i) =>
        assert forall j :: 1 <= j < i + 1 ==> s[j] == s[1..][j - 1];
        Some(i + 1)
  }

  /** Index of the last defined entry, scanning the reversed trend; `None` when there is none. */
  function LastDefined(s: seq<Value>): (r: Option<nat>)
    ensures r.None? <==> forall j :: 0 <= j < |s| ==> s[j].None?
    ensures r.Some? ==> r.value < |s| && s[r.value].Some?
    ensures r.Some? ==> forall j :: r.value < j < |s| ==> s[j].None?
  {
    if |s| == 0 then None
    else if s[|s| - 1].Some? then Some(|s| - 1)
    else
      var r := LastDefined(s[..|s| - 1]);
      assert forall j :: 0 <= j < |s| - 1 ==> s[j] == s[..|s| - 1][j];
      r
  }

  /** The stretch `[front, back]` between the first and the last defined entry. */
  datatype Span = Span(front: nat, back: nat)

  /** `front` and `back` of a trend; `None` when no entry is defined (`next` raises). */
  function DefinedSpan(s: seq<Value>): (r: Option<Span>)
    ensures r.None? <==> forall j :: 0 <= j < |s| ==> s[j].None?
    ensures r.Some? ==> r.value.front <= r.value.back < |s|
    ensures r.Some? ==> s[r.value.front].Some? && s[r.value.back].Some?
    ensures r.Some? ==> forall j :: 0 <= j < r.value.front ==> s[j].None?
    ensures r.Some? ==> forall j :: r.value.back < j < |s| ==> s[j].None?
  {
    match FirstDefined(s)
    case None => None
    case Some(front) => Some(Span(front, LastDefined(s).value))
  }

  /**
   * End of the head window `[front, front_last)`, `min(front + npoints, back)`: the window
   * holds `npoints` entries unless it is cut short at `back`.
   */
  function FrontLast(sp: Span, npoints: nat): (r: nat)
    requires sp.front <= sp.back
    ensures sp.front <= r <= sp.back
    ensures r - sp.front <= npoints && (r - sp.front == npoints || r == sp.back)
  {
    if sp.front + npoints <= sp.back then sp.front + npoints else sp.back
  }

  /**
   * Start of the tail window `[back_first, back)`, `max(front, back - npoints)`: the window
   * holds `npoints` entries unless it is cut short at `front`. It never contains `back`.
   */
  function BackFirst(sp: Span, npoints: nat): (r: nat)
    requires sp.front <= sp.back
    ensures sp.front <= r <= sp.back
    ensures sp.back - r <= npoints && (sp.back - r == npoints || r == sp.front)
  {
    if sp.back - npoints >= sp.front then sp.back - npoints else sp.front
  }

  /**
   * `np.linalg.lstsq` of the trend entries in `[lo, hi)` against the rows `(i, 1)`. An
   * undefined entry in the window makes the coefficients undefined (NaN), hence `None`.
   */
  function FitWindow(s: seq<Value>, lo: nat, hi: nat): (r: Option<Line>)
    requires lo <= hi <= |s|
    ensures r.Some? <==> forall j :: lo <= j < hi ==> s[j].Some?
  {
    var w := s[lo..hi];
    if AllDefined(w) then
      XsSpread(lo, hi - lo);
      Some(FitLine(Xs(lo, hi - lo), Values(w)))
    else
      assert exists j :: 0 <= j < |w| && w[j].None?;
      None
  }

  /** The fitted line at index `i`, `k * i + n`; undefined (NaN) when the fit is. */
  function Fill(fit: Option<Line>, i: int): (r: Value)
    ensures r.Some? <==> fit.Some?
    ensures r.Some? ==> r.value == fit.value.slope * i as real + fit.value.intercept
  {
    match fit
    case None => None
    case Some(l) => Some(l.At(i as real))
  }

  /** The replacement values `np.arange(lo, hi) * k + n` for the entries `lo, ..., hi - 1`. */
  function Extra(fit: Option<Line>, lo: nat, hi: nat): (r: seq<Value>)
    requires lo <= hi
    ensures |r| == hi - lo && forall j :: 0 <= j < hi - lo ==> r[j] == Fill(fit, lo + j)
  {
    seq(hi - lo, j => Fill(fit, lo + j))
  }

  /** The line that replaces the head `[0, front)`. */
  function HeadFit(s: seq<Value>, sp: Span, npoints: nat): (r: Option<Line>)
    requires sp.front <= sp.back < |s|
    ensures r.Some? <==> forall j :: sp.front <= j < FrontLast(sp, npoints) ==> s[j].Some?
  {
    FitWindow(s, sp.front, FrontLast(sp, npoints))
  }

  /** The line that replaces the tail `(back, len)`. */
  function TailFit(s: seq<Value>, sp: Span, npoints: nat): (r: Option<Line>)
    requires sp.front <= sp.back < |s|
    ensures r.Some? <==> forall j :: BackFirst(sp, npoints) <= j < sp.back ==> s[j].Some?
  {
    FitWindow(s, BackFirst(sp, npoints), sp.back)
  }

  /**
   * The slice assignments `trend[:front] = head values` and `trend[back + 1:] = tail values`:
   * every index before `front` holds the head line's value there, every index after `back`
   * the tail line's, and `[front, back]` is unchanged.
   */
  function Spliced(s: seq<Value>, sp: Span, head: Option<Line>, tail: Option<Line>): (r: seq<Value>)
    requires sp.front <= sp.back < |s|
    ensures |r| == |s|
    ensures forall i :: 0 <= i < sp.front ==> r[i] == Fill(head, i)
    ensures forall i :: sp.front <= i <= sp.back ==> r[i] == s[i]
    ensures forall i :: sp.back < i < |s| ==> r[i] == Fill(tail, i)
  {
    var a := Extra(head, 0, sp.front);
    var b := s[sp.front..sp.back + 1];
    var c := Extra(tail, sp.back + 1, |s|);
    assert forall i :: sp.front <= i <= sp.back ==> (a + b + c)[i] == b[i - sp.front];
    assert forall i :: sp.back < i < |s| ==> (a + b + c)[i] == c[i - sp.back - 1];
    a + b + c
  }

  /**
   * The trend after `_extrapolate_trend(trend, npoints)`. `None` when no entry of the trend
   * is defined, where the original stops with an exception.
   */
  function Extrapolated(s: seq<Value>, npoints: nat): (r: Option<seq<Value>>)
    ensures r.None? <==> forall j :: 0 <= j < |s| ==> s[j].None?
    ensures r.Some? ==> |r.value| == |s|
  {
    match DefinedSpan(s)
    case None => None
    case Some(sp) => Some(Spliced(s, sp, HeadFit(s, sp, npoints), TailFit(s, sp, npoints)))
  }

  /**
   * Entry by entry: every index before `front` holds the head line's value there, every
   * index after `back` the tail line's, and `[front, back]` is unchanged.
   */
  lemma ExtrapolatedEntries(s: seq<Value>, npoints: nat)
    requires DefinedSpan(s).Some?
    ensures var sp := DefinedSpan(s).value;
            var r := Extrapolated(s, npoints).value;
            && (forall i :: 0 <= i < sp.front ==> r[i] == Fill(HeadFit(s, sp, npoints), i))
            && (forall i :: sp.front <= i <= sp.back ==> r[i] == s[i])
            && (forall i :: sp.back < i < |s| ==> r[i] == Fill(TailFit(s, sp, npoints), i))
  {
    var sp := DefinedSpan(s).value;
    assert Extrapolated(s, npoints).value == Spliced(s, sp, HeadFit(s, sp, npoints), TailFit(s, sp, npoints));
  }

  /**
   * When the stretch `[front, back]` has no undefined entry, both windows are defined, both
   * lines exist and the extrapolated trend is defined everywhere.
   */
  lemma ExtrapolatedDefined(s: seq<Value>, npoints: nat)
    requires DefinedSpan(s).Some?
    requires var sp := DefinedSpan(s).value; forall j :: sp.front <= j <= sp.back ==> s[j].Some?
    ensures var sp := DefinedSpan(s).value;
            HeadFit(s, sp, npoints).Some? && TailFit(s, sp, npoints).Some?
    ensures AllDefined(Extrapolated(s, npoints).value)
  {
    ExtrapolatedEntries(s, npoints);
  }

  /** A trend that is already defined everywhere comes back unchanged. */
  lemma ExtrapolatedComplete(s: seq<Value>, npoints: nat)
    requires |s| > 0 && AllDefined(s)
    ensures Extrapolated(s, npoints) == Some(s)
  {
    var sp := Span(0, |s| - 1);
    assert DefinedSpan(s) == Some(sp);
    var r := Spliced(s, sp, HeadFit(s, sp, npoints), TailFit(s, sp, npoints));
    assert Extrapolated(s, npoints) == Some(r);
    assert r == s;
  }

  /** Extrapolating again changes nothing once the result is defined everywhere. */
  lemma ExtrapolatedIdempotent(s: seq<Value>, npoints: nat)
    requires Extrapolated(s, npoints).Some? && AllDefined(Extrapolated(s, npoints).value)
    ensures Extrapolated(Extrapolated(s, npoints).value, npoints) == Extrapolated(s, npoints)
  {
    var r := Extrapolated(s, npoints).value;
    assert |r| > 0;
    ExtrapolatedComplete(r, npoints);
  }

  /** A window whose entries lie on a line `l` and that holds two or more of them is fitted by `l`. */
  lemma FitWindowExact(s: seq<Value>, lo: nat, hi: nat, l: Line)
    requires lo + 2 <= hi <= |s|
    requires forall j :: lo <= j < hi ==> s[j] == Some(l.At(j as real))
    ensures FitWindow(s, lo, hi) == Some(l)
  {
    var xs, ys := Xs(lo, hi - lo), Values(s[lo..hi]);
    assert forall j :: 0 <= j < |ys| ==> ys[j] == l.At(xs[j]);
    XsSpread(lo, hi - lo);
    FitLineRecoversLine(xs, ys, l);
  }

  /** Among all lines, the fitted one has the least squared error over its window. */
  lemma FitWindowIsLeastSquares(s: seq<Value>, lo: nat, hi: nat, other: Line)
    requires lo + 2 <= hi <= |s|
    requires FitWindow(s, lo, hi).Some?
    ensures var xs, ys := Xs(lo, hi - lo), Values(s[lo..hi]);
            SquaredError(xs, ys, FitWindow(s, lo, hi).value) <= SquaredError(xs, ys, other)
  {
    XsSpread(lo, hi - lo);
    FitLineIsLeastSquares(Xs(lo, hi - lo), Values(s[lo..hi]), other);
  }

  /**
   * A trend whose defined stretch lies on a line `l` is continued along `l` at both ends,
   * provided each window holds at least two points (`npoints >= 2`, `back - front >= 2`).
   */
  lemma ExtrapolatedExact(s: seq<Value>, npoints: nat, l: Line)
    requires DefinedSpan(s).Some? && npoints >= 2
    requires var sp := DefinedSpan(s).value;
             sp.back - sp.front >= 2 && forall j :: sp.front <= j <= sp.back ==> s[j] == Some(l.At(j as real))
    ensures forall i :: 0 <= i < |s| ==> Extrapolated(s, npoints).value[i] == Some(l.At(i as real))
  {
    var sp := DefinedSpan(s).value;
    FitWindowExact(s, sp.front, FrontLast(sp, npoints), l);
    FitWindowExact(s, BackFirst(sp, npoints), sp.back, l);
    ExtrapolatedEntries(s, npoints);
  }

  /** The forward scan `next(i for i, v in enumerate(trend) if not isnan(v))`. */
  method ScanFront(trend: array<Value>) returns (front: Option<nat>)
    ensures front == FirstDefined(trend[..])
  {
    var i := 0;
    while i < trend.Length && trend[i].None?
      invariant i <= trend.Length
      invariant forall j :: 0 <= j < i ==> trend[j].None?
    {
      i := i + 1;
    }
    if i == trend.Length {
      return None;
    }
    front := Some(i);
  }

  /**
   * The backward scan: `len - 1 - next(i for i, v in enumerate(trend[::-1]) if not isnan(v))`,
   * counting `i` entries from the end.
   */
  method ScanBack(trend: array<Value>) returns (back: Option<nat>)
    ensures back == LastDefined(trend[..])
  {
    var i := 0;
    while i < trend.Length && trend[trend.Length - 1 - i].None?
      invariant i <= trend.Length
      invariant forall j :: trend.Length - 1 - i < j < trend.Length ==> trend[j].None?
    {
      i := i + 1;
    }
    if i == trend.Length {
      return None;
    }
    back := Some(trend.Length - 1 - i);
  }

  /** The slice assignment `trend[lo:hi] = np.arange(lo, hi) * k + n`. */
  method FillRange(trend: array<Value>, lo: nat, hi: nat, fit: Option<Line>)
    requires lo <= hi <= trend.Length
    modifies trend
    ensures forall t :: lo <= t < hi ==> trend[t] == Fill(fit, t)
    ensures forall t :: 0 <= t < trend.Length && !(lo <= t < hi) ==> trend[t] == old(trend[t])
  {
    var j := lo;
    while j < hi
      invariant lo <= j <= hi
      invariant forall t :: lo <= t < j ==> trend[t] == Fill(fit, t)
      invariant forall t :: 0 <= t < trend.Length && !(lo <= t < j) ==> trend[t] == old(trend[t])
    {
      trend[j] := Fill(fit, j);
      j := j + 1;
    }
  }

  /**
   * `_extrapolate_trend` on a one-column trend: find `front` and `back`, fit the two windows
   * and overwrite the head and the tail in place. `found` is false, and the trend untouched,
   * when no entry is defined.
   */
  method ExtrapolateTrend(trend: array<Value>, npoints: nat) returns (found: bool)
    modifies trend
    ensures found <==> Extrapolated(old(trend[..]), npoints).Some?
    ensures found ==> trend[..] == Extrapolated(old(trend[..]), npoints).value
    ensures !found ==> trend[..] == old(trend[..])
  {
    ghost var s := trend[..];
    var first := ScanFront(trend);
    if first.None? {
      return false;
    }
    var last := ScanBack(trend);
    var sp := Span(first.value, last.value);
    assert DefinedSpan(s) == Some(sp);
    var head := FitWindow(trend[..], sp.front, FrontLast(sp, npoints));
    FillRange(trend, 0, sp.front, head);
    var backFirst := BackFirst(sp, npoints);
    assert trend[backFirst..sp.back] == s[backFirst..sp.back];
    var tail := FitWindow(trend[..], backFirst, sp.back);
    FillRange(trend, sp.back + 1, trend.Length, tail);
    ghost var r := Spliced(s, sp, head, tail);
    assert Extrapolated(s, npoints) == Some(r);
    assert trend[..] == r;
    return true;
  }
}
