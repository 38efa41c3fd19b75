/**
 * The straight-line least-squares fit that trend extrapolation performs with
 * `np.linalg.lstsq` on the design matrix `[x, 1]`, one row per point. A window is a
 * sequence of abscissae `xs` (the indices of the trend entries, as reals) and the
 * values `ys` found there.
 */
module LeastSquares {
  import opened Series

  datatype Line = Line(slope: real, intercept: real) {
    /** The fitted value at abscissa `x`: `k * x + n`. */
    function At(x: real): real {
      slope * x + intercept
    }

    /** Squared Euclidean norm of the coefficient vector `(k, n)`. */
    function Norm2(): real {
      slope * slope + intercept * intercept
    }
  }

  /** The abscissae `lo, lo + 1, ..., lo + m - 1` of a window of consecutive indices. */
  function Xs(lo: int, m: nat): (xs: seq<real>)
    ensures |xs| == m && forall j :: 0 <= j < m ==> xs[j] == (lo + j) as real
  {
    seq(m, j => (lo + j) as real)
  }

  /** Abscissae in increasing order, spaced at least one apart (distinct indices). */
  ghost predicate Spread(xs: seq<real>) {
    forall i, j :: 0 <= i < j < |xs| ==> xs[j] >= xs[i] + 1.0
  }

  /** The number of points of a window, as a real (`|u|`, built up by the same recursion as `Sum`). */
  function Count(u: seq<real>): real {
    CountRec(u)
  }

  function CountRec(u: seq<real>): real {
    if |u| == 0 then 0.0 else 1.0 + CountRec(u[1..])
  }

  /** The dot product; like `Sum`, a non-recursive entry point over `DotRec`. */
  function Dot(u: seq<real>, v: seq<real>): real
    requires |u| == |v|
  {
    DotRec(u, v)
  }

  function DotRec(u: seq<real>, v: seq<real>): real
    requires |u| == |v|
  {
    if |u| == 0 then 0.0 else u[0] * v[0] + DotRec(u[1..], v[1..])
  }

  /** The line's values `l(xs[j])` at the abscissae. */
  function Fitted(xs: seq<real>, l: Line): (f: seq<real>)
    ensures |f| == |xs| && forall j :: 0 <= j < |xs| ==> f[j] == l.slope * xs[j] + l.intercept
  {
    seq(|xs|, j requires 0 <= j < |xs| => l.At(xs[j]))
  }

  /** The residuals `ys[j] - l(xs[j])` of a line. */
  function Residuals(xs: seq<real>, ys: seq<real>, l: Line): (r: seq<real>)
    requires |xs| == |ys|
    ensures |r| == |ys| && forall j :: 0 <= j < |ys| ==> r[j] == ys[j] - (l.slope * xs[j] + l.intercept)
  {
    seq(|ys|, j requires 0 <= j < |ys| => ys[j] - l.At(xs[j]))
  }

  /** Sum of squared residuals: the quantity least squares minimises. */
  function SquaredError(xs: seq<real>, ys: seq<real>, l: Line): real
    requires |xs| == |ys|
  {
    var r := Residuals(xs, ys, l);
    Dot(r, r)
  }

  /**
   * The coefficients `np.linalg.lstsq` returns: with two or more points the unique
   * solution of the normal equations; with one point the minimum-norm line through it;
   * with no point the zero line.
   */
  function FitLine(xs: seq<real>, ys: seq<real>): Line
    requires |xs| == |ys| && Spread(xs)
  {
    var m := |ys|;
    if m == 0 then Line(0.0, 0.0)
    else if m == 1 then OnePointFit(xs[0], ys[0])
    else
      DenominatorBound(xs);
      CountIsLength(xs);
      ClosedForm(Count(xs), Sum(xs), Dot(xs, xs), Sum(ys), Dot(xs, ys))
  }

  /** The minimum-norm line `(k, n)` with `k * x + n == y`: `(x, 1) * y / (x * x + 1)`. */
  function OnePointFit(x: real, y: real): Line {
    Square(x);
    Line(x * y / (x * x + 1.0), y / (x * x + 1.0))
  }

  /** Solution of the normal equations from the window's sums. */
  function ClosedForm(m: real, sx: real, sxx: real, sy: real, sxy: real): Line
    requires m > 0.0 && m * sxx - sx * sx > 0.0
  {
    var k := (m * sxy - sx * sy) / (m * sxx - sx * sx);
    Line(k, (sy - k * sx) / m)
  }

  /** The abscissae scaled by `a`. */
  function Scaled(xs: seq<real>, a: real): (s: seq<real>)
    ensures |s| == |xs| && forall j :: 0 <= j < |xs| ==> s[j] == a * xs[j]
  {
    seq(|xs|, j requires 0 <= j < |xs| => a * xs[j])
  }

  /** The gap `l(xs[j]) - other(xs[j])` between two lines, sampled at the abscissae. */
  function Gap(xs: seq<real>, l: Line, other: Line): (g: seq<real>)
    ensures |g| == |xs|
    ensures forall j :: 0 <= j < |xs| ==> g[j] == l.At(xs[j]) - other.At(xs[j])
  {
    seq(|xs|, j requires 0 <= j < |xs| => l.At(xs[j]) - other.At(xs[j]))
  }

  // ---------------------------------------------------------------------------
  // Algebra of sums and dot products. Each inductive lemma moves one kind of
  // operation (a scale, a sum, a difference, a constant) through the dot product,
  // and leaves the arithmetic of one step to a lemma over plain reals.

  lemma Square(a: real)
    ensures a * a >= 0.0
  {
    if a < 0.0 {
      assert a * a == (-a) * (-a);
    }
  }

  lemma {:induction false} DotNonNegative(u: seq<real>)
    ensures Dot(u, u) >= 0.0
  {
    if |u| > 0 {
      DotNonNegative(u[1..]);
      Square(u[0]);
    }
  }

  lemma {:induction false} DotSymmetric(u: seq<real>, v: seq<real>)
    requires |u| == |v|
    ensures Dot(u, v) == Dot(v, u)
  {
    if |u| > 0 {
      DotSymmetric(u[1..], v[1..]);
    }
  }

  lemma {:induction false} DotScale(t: seq<real>, u: seq<real>, w: seq<real>, a: real)
    requires |t| == |u| == |w|
    requires forall j :: 0 <= j < |w| ==> w[j] == a * u[j]
    ensures Dot(t, w) == a * Dot(t, u)
  {
    if |w| > 0 {
      DotScale(t[1..], u[1..], w[1..], a);
      ScaleStep(t[0], u[0], w[0], a, Dot(t, u), Dot(t[1..], u[1..]), Dot(t, w), Dot(t[1..], w[1..]));
    }
  }

  lemma ScaleStep(t0: real, u0: real, w0: real, a: real, su: real, su': real, sw: real, sw': real)
    requires w0 == a * u0
    requires su == t0 * u0 + su' && sw == t0 * w0 + sw'
    requires sw' == a * su'
    ensures sw == a * su
  {
  }

  lemma {:induction false} DotConst(t: seq<real>, w: seq<real>, c: real)
    requires |t| == |w|
    requires forall j :: 0 <= j < |w| ==> w[j] == c
    ensures Dot(t, w) == c * Sum(t)
  {
    if |w| > 0 {
      DotConst(t[1..], w[1..], c);
      ConstStep(t[0], c, Dot(t, w), Dot(t[1..], w[1..]), Sum(t), Sum(t[1..]));
    }
  }

  lemma ConstStep(t0: real, c: real, sw: real, sw': real, st: real, st': real)
    requires sw == t0 * c + sw' && st == t0 + st'
    requires sw' == c * st'
    ensures sw == c * st
  {
  }

  lemma {:induction false} DotAdd(t: seq<real>, u: seq<real>, v: seq<real>, w: seq<real>)
    requires |t| == |u| == |v| == |w|
    requires forall j :: 0 <= j < |w| ==> w[j] == u[j] + v[j]
    ensures Dot(t, w) == Dot(t, u) + Dot(t, v)
  {
    if |w| > 0 {
      DotAdd(t[1..], u[1..], v[1..], w[1..]);
      AddStep(t[0], u[0], v[0], w[0], Dot(t, u), Dot(t[1..], u[1..]), Dot(t, v), Dot(t[1..], v[1..]),
        Dot(t, w), Dot(t[1..], w[1..]));
    }
  }

  lemma AddStep(t0: real, u0: real, v0: real, w0: real, su: real, su': real, sv: real, sv': real,
                sw: real, sw': real)
    requires w0 == u0 + v0
    requires su == t0 * u0 + su' && sv == t0 * v0 + sv' && sw == t0 * w0 + sw'
    requires sw' == su' + sv'
    ensures sw == su + sv
  {
  }

  lemma {:induction false} DotSub(t: seq<real>, u: seq<real>, v: seq<real>, w: seq<real>)
    requires |t| == |u| == |v| == |w|
    requires forall j :: 0 <= j < |w| ==> w[j] == u[j] - v[j]
    ensures Dot(t, w) == Dot(t, u) - Dot(t, v)
  {
    if |w| > 0 {
      DotSub(t[1..], u[1..], v[1..], w[1..]);
      SubStep(t[0], u[0], v[0], w[0], Dot(t, u), Dot(t[1..], u[1..]), Dot(t, v), Dot(t[1..], v[1..]),
        Dot(t, w), Dot(t[1..], w[1..]));
    }
  }

  lemma SubStep(t0: real, u0: real, v0: real, w0: real, su: real, su': real, sv: real, sv': real,
                sw: real, sw': real)
    requires w0 == u0 - v0
    requires su == t0 * u0 + su' && sv == t0 * v0 + sv' && sw == t0 * w0 + sw'
    requires sw' == su' - sv'
    ensures sw == su - sv
  {
  }

  /** Expanding the square of a sum of two vectors. */
  lemma DotOfSum(r: seq<real>, g: seq<real>, e: seq<real>)
    requires |r| == |g| == |e|
    requires forall j :: 0 <= j < |e| ==> e[j] == r[j] + g[j]
    ensures Dot(e, e) == Dot(r, r) + 2.0 * Dot(r, g) + Dot(g, g)
  {
    DotAdd(e, r, g, e);
    DotAdd(r, r, g, e);
    DotAdd(g, r, g, e);
    DotSymmetric(e, r);
    DotSymmetric(e, g);
    DotSymmetric(g, r);
  }

  // ---------------------------------------------------------------------------
  // Sums over the values and residuals of a line

  lemma ScaledDot(t: seq<real>, xs: seq<real>, a: real)
    requires |t| == |xs|
    ensures Dot(t, Scaled(xs, a)) == a * Dot(t, xs)
  {
    DotScale(t, xs, Scaled(xs, a), a);
  }

  lemma ConstantDot(t: seq<real>, c: real)
    ensures Dot(t, Constant(c, |t|)) == c * Sum(t)
  {
    DotConst(t, Constant(c, |t|), c);
  }

  lemma FittedSplit(t: seq<real>, xs: seq<real>, l: Line)
    requires |t| == |xs|
    ensures Dot(t, Fitted(xs, l)) == Dot(t, Scaled(xs, l.slope)) + Dot(t, Constant(l.intercept, |t|))
  {
    DotAdd(t, Scaled(xs, l.slope), Constant(l.intercept, |t|), Fitted(xs, l));
  }

  lemma SplitDot(t: seq<real>, xs: seq<real>, l: Line)
    requires |t| == |xs|
    ensures Dot(t, Scaled(xs, l.slope)) + Dot(t, Constant(l.intercept, |t|))
         == l.slope * Dot(t, xs) + l.intercept * Sum(t)
  {
    ScaledDot(t, xs, l.slope);
    ConstantDot(t, l.intercept);
  }

  /** Dot products with the values of a line: `t . l(xs) = k (t . xs) + n Sum(t)`. */
  lemma FittedDot(t: seq<real>, xs: seq<real>, l: Line)
    requires |t| == |xs|
    ensures Dot(t, Fitted(xs, l)) == l.slope * Dot(t, xs) + l.intercept * Sum(t)
  {
    FittedSplit(t, xs, l);
    SplitDot(t, xs, l);
  }

  /** Dot products with residuals: `t . r = t . ys - (k (t . xs) + n Sum(t))`. */
  lemma ResidualsDot(t: seq<real>, xs: seq<real>, ys: seq<real>, l: Line)
    requires |t| == |xs| == |ys|
    ensures Dot(t, Residuals(xs, ys, l)) == Dot(t, ys) - (l.slope * Dot(t, xs) + l.intercept * Sum(t))
  {
    DotSub(t, ys, Fitted(xs, l), Residuals(xs, ys, l));
    FittedDot(t, xs, l);
  }

  lemma {:induction false} SumOfConstant(u: seq<real>, w: seq<real>, c: real)
    requires |u| == |w|
    requires forall j :: 0 <= j < |w| ==> w[j] == c
    ensures Sum(w) == Count(u) * c
  {
    if |w| > 0 {
      SumOfConstant(u[1..], w[1..], c);
      CountStep(c, Sum(w), Sum(w[1..]), Count(u), Count(u[1..]));
    }
  }

  lemma CountStep(c: real, sw: real, sw': real, k: real, k': real)
    requires sw == c + sw' && k == 1.0 + k'
    requires sw' == k' * c
    ensures sw == k * c
  {
  }

  lemma {:induction false} CountIsLength(u: seq<real>)
    ensures Count(u) == |u| as real
  {
    if |u| > 0 {
      CountIsLength(u[1..]);
    }
  }

  lemma SplitSum(xs: seq<real>, l: Line)
    ensures Sum(Scaled(xs, l.slope)) + Sum(Constant(l.intercept, |xs|))
         == l.slope * Sum(xs) + Count(xs) * l.intercept
  {
    SumScale(xs, Scaled(xs, l.slope), l.slope);
    SumOfConstant(xs, Constant(l.intercept, |xs|), l.intercept);
  }

  /** The values of a line sum to `k Sum(xs) + n m`. */
  lemma FittedSum(xs: seq<real>, l: Line)
    ensures Sum(Fitted(xs, l)) == l.slope * Sum(xs) + Count(xs) * l.intercept
  {
    SumAdd(Scaled(xs, l.slope), Constant(l.intercept, |xs|), Fitted(xs, l));
    SplitSum(xs, l);
  }

  /** The residuals of a line sum to `Sum(ys) - (k Sum(xs) + n m)`. */
  lemma ResidualsSum(xs: seq<real>, ys: seq<real>, l: Line)
    requires |xs| == |ys|
    ensures Sum(Residuals(xs, ys, l)) == Sum(ys) - (l.slope * Sum(xs) + Count(xs) * l.intercept)
  {
    SumSub(ys, Fitted(xs, l), Residuals(xs, ys, l));
    FittedSum(xs, l);
  }

  // ---------------------------------------------------------------------------
  // The normal equations are non-singular

  lemma XsSpread(lo: int, m: nat)
    ensures Spread(Xs(lo, m))
  {
  }

  /** Abscissae at least one above `t` each contribute at least 1 to the spread about `t`. */
  lemma {:induction false} SpreadAbove(u: seq<real>, t: real)
    requires forall j :: 0 <= j < |u| ==> u[j] >= t + 1.0
    ensures Dot(u, u) - 2.0 * t * Sum(u) + Count(u) * t * t >= Count(u)
  {
    if |u| > 0 {
      SpreadAbove(u[1..], t);
      SpreadStep(u[0], t, Sum(u), Sum(u[1..]), Dot(u, u), Dot(u[1..], u[1..]), Count(u), Count(u[1..]));
    }
  }

  lemma SpreadStep(a: real, t: real, sx: real, sx': real, sxx: real, sxx': real, k: real, k': real)
    requires a >= t + 1.0
    requires sx == a + sx' && sxx == a * a + sxx' && k == k' + 1.0
    requires sxx' - 2.0 * t * sx' + k' * t * t >= k'
    ensures sxx - 2.0 * t * sx + k * t * t >= k
  {
    var d := a - t;
    assert d * d >= 1.0 * d;
    assert a * a - 2.0 * t * a + t * t == d * d;
  }

  /** `m * Sxx - Sx * Sx >= m - 1`: positive as soon as the window holds two points. */
  lemma {:induction false} DenominatorBound(u: seq<real>)
    requires |u| >= 1 && Spread(u)
    ensures Count(u) * Dot(u, u) - Sum(u) * Sum(u) >= Count(u) - 1.0
  {
    if |u| == 1 {
      assert CountRec(u[1..]) == 0.0 && SumRec(u[1..]) == 0.0 && DotRec(u[1..], u[1..]) == 0.0;
      assert Count(u) == 1.0 && Sum(u) == u[0] && Dot(u, u) == u[0] * u[0];
    } else {
      var rest := u[1..];
      assert Spread(rest);
      DenominatorBound(rest);
      SpreadAbove(rest, u[0]);
      CountIsLength(rest);
      DenominatorStep(u[0], Sum(u), Sum(rest), Dot(u, u), Dot(rest, rest), Count(u), Count(rest));
    }
  }

  lemma DenominatorStep(t: real, sx: real, sx': real, sxx: real, sxx': real, m: real, k: real)
    requires k >= 1.0 && m == k + 1.0
    requires sx == t + sx' && sxx == t * t + sxx'
    requires k * sxx' - sx' * sx' >= k - 1.0
    requires sxx' - 2.0 * t * sx' + k * t * t >= k
    ensures m * sxx - sx * sx >= m - 1.0
  {
    assert m * sxx == k * sxx' + k * t * t + t * t + sxx';
    assert sx * sx == t * t + 2.0 * t * sx' + sx' * sx';
  }

  // ---------------------------------------------------------------------------
  // What the fit means

  /** The closed form satisfies both normal equations. */
  lemma ClosedFormNormalEquations(m: real, sx: real, sxx: real, sy: real, sxy: real, l: Line)
    requires m > 0.0 && m * sxx - sx * sx > 0.0
    requires l == ClosedForm(m, sx, sxx, sy, sxy)
    ensures sy - (l.slope * sx + m * l.intercept) == 0.0
    ensures sxy - (l.slope * sxx + l.intercept * sx) == 0.0
  {
    var d := m * sxx - sx * sx;
    var k, n := l.slope, l.intercept;
    assert k * d == m * sxy - sx * sy;
    assert n * m == sy - k * sx;
    assert m * (sxy - k * sxx - n * sx) == (m * sxy - sx * sy) - k * d;
  }

  /** With two or more points the fit is the closed-form solution of the normal equations. */
  lemma FitLineClosedForm(xs: seq<real>, ys: seq<real>)
    requires |xs| == |ys| >= 2 && Spread(xs)
    ensures Count(xs) > 0.0
    ensures Count(xs) * Dot(xs, xs) - Sum(xs) * Sum(xs) > 0.0
    ensures FitLine(xs, ys) == ClosedForm(Count(xs), Sum(xs), Dot(xs, xs), Sum(ys), Dot(xs, ys))
  {
    DenominatorBound(xs);
    CountIsLength(xs);
  }

  /** The residuals of the closed-form line sum to zero and are orthogonal to the abscissae. */
  lemma ClosedFormResiduals(xs: seq<real>, ys: seq<real>, l: Line)
    requires |xs| == |ys| && Count(xs) > 0.0
    requires Count(xs) * Dot(xs, xs) - Sum(xs) * Sum(xs) > 0.0
    requires l == ClosedForm(Count(xs), Sum(xs), Dot(xs, xs), Sum(ys), Dot(xs, ys))
    ensures Sum(Residuals(xs, ys, l)) == 0.0
    ensures Dot(xs, Residuals(xs, ys, l)) == 0.0
  {
    ResidualsSum(xs, ys, l);
    ResidualsDot(xs, xs, ys, l);
    ClosedFormNormalEquations(Count(xs), Sum(xs), Dot(xs, xs), Sum(ys), Dot(xs, ys), l);
  }

  /** With two or more points the residuals of the fit sum to zero and are orthogonal to the abscissae. */
  lemma FitLineNormalEquations(xs: seq<real>, ys: seq<real>)
    requires |xs| == |ys| >= 2 && Spread(xs)
    ensures Sum(Residuals(xs, ys, FitLine(xs, ys))) == 0.0
    ensures Dot(xs, Residuals(xs, ys, FitLine(xs, ys))) == 0.0
  {
    FitLineClosedForm(xs, ys);
    ClosedFormResiduals(xs, ys, FitLine(xs, ys));
  }

  lemma VanishingCombination(a: real, k: real, x: real, n: real, s: real)
    requires x == 0.0 && s == 0.0 && a == k * x + n * s
    ensures a == 0.0
  {
  }

  /** The fit's residuals are orthogonal to the gap between the fit and any line. */
  lemma ResidualsOrthogonalToGap(xs: seq<real>, ys: seq<real>, other: Line)
    requires |xs| == |ys| >= 2 && Spread(xs)
    ensures var l := FitLine(xs, ys);
            Dot(Residuals(xs, ys, l), Gap(xs, l, other)) == 0.0
  {
    var l := FitLine(xs, ys);
    var r := Residuals(xs, ys, l);
    FitLineNormalEquations(xs, ys);
    DotSymmetric(r, xs);
    DotSub(r, Fitted(xs, l), Fitted(xs, other), Gap(xs, l, other));
    FittedDot(r, xs, l);
    FittedDot(r, xs, other);
    VanishingCombination(Dot(r, Fitted(xs, l)), l.slope, Dot(r, xs), l.intercept, Sum(r));
    VanishingCombination(Dot(r, Fitted(xs, other)), other.slope, Dot(r, xs), other.intercept, Sum(r));
  }

  /** Any line's squared error is the fit's plus the squared gap between the two lines. */
  lemma SquaredErrorShift(xs: seq<real>, ys: seq<real>, other: Line)
    requires |xs| == |ys| >= 2 && Spread(xs)
    ensures var l := FitLine(xs, ys);
            var g := Gap(xs, l, other);
            SquaredError(xs, ys, other) == SquaredError(xs, ys, l) + Dot(g, g)
  {
    var l := FitLine(xs, ys);
    var r, ro, g := Residuals(xs, ys, l), Residuals(xs, ys, other), Gap(xs, l, other);
    assert forall j :: 0 <= j < |ys| ==> ro[j] == r[j] + g[j];
    DotOfSum(r, g, ro);
    ResidualsOrthogonalToGap(xs, ys, other);
  }

  /** With two or more points no line has a smaller sum of squared residuals than the fit. */
  lemma FitLineIsLeastSquares(xs: seq<real>, ys: seq<real>, other: Line)
    requires |xs| == |ys| >= 2 && Spread(xs)
    ensures SquaredError(xs, ys, FitLine(xs, ys)) <= SquaredError(xs, ys, other)
  {
    SquaredErrorShift(xs, ys, other);
    DotNonNegative(Gap(xs, FitLine(xs, ys), other));
  }

  lemma RecoverAlgebra(m: real, sx: real, sxx: real, sy: real, sxy: real, l: Line)
    requires m > 0.0 && m * sxx - sx * sx > 0.0
    requires sy == l.slope * sx + m * l.intercept && sxy == l.slope * sxx + l.intercept * sx
    ensures ClosedForm(m, sx, sxx, sy, sxy) == l
  {
    var a, b := l.slope, l.intercept;
    var d := m * sxx - sx * sx;
    assert m * sxy - sx * sy == m * (a * sxx + b * sx) - sx * (a * sx + b * m);
    assert m * sxy - sx * sy == a * d;
    assert sy - a * sx == b * m;
  }

  /** Points that already lie on a line give back exactly that line. */
  lemma FitLineRecoversLine(xs: seq<real>, ys: seq<real>, l: Line)
    requires |xs| == |ys| >= 2 && Spread(xs)
    requires forall j :: 0 <= j < |ys| ==> ys[j] == l.At(xs[j])
    ensures FitLine(xs, ys) == l
  {
    assert ys == Fitted(xs, l);
    FitLineOfFitted(xs, l);
  }

  lemma FitLineOfFitted(xs: seq<real>, l: Line)
    requires |xs| >= 2 && Spread(xs)
    ensures FitLine(xs, Fitted(xs, l)) == l
  {
    var f := Fitted(xs, l);
    FitLineClosedForm(xs, f);
    FittedSum(xs, l);
    FittedDot(xs, xs, l);
    RecoverAlgebra(Count(xs), Sum(xs), Dot(xs, xs), Sum(f), Dot(xs, f), l);
  }

  /** The one-point fit passes through its point. */
  lemma OnePointFitPasses(x: real, y: real, fit: Line)
    requires fit == OnePointFit(x, y)
    ensures fit.At(x) == y
  {
    var c := x * x + 1.0;
    Square(x);
    var k0, n0 := fit.slope, fit.intercept;
    assert k0 * c == x * y && n0 * c == y;
    assert (k0 * x + n0) * c == y * c;
  }

  /** Among the lines through `(x, y)` the one-point fit has the smallest coefficient norm. */
  lemma OnePointFitMinimal(x: real, y: real, fit: Line, other: Line)
    requires fit == OnePointFit(x, y)
    requires other.At(x) == y
    ensures fit.Norm2() <= other.Norm2()
  {
    var c := x * x + 1.0;
    Square(x);
    var k0, n0, k, n := fit.slope, fit.intercept, other.slope, other.intercept;
    assert k0 * c == x * y && n0 * c == y;
    var dk, dn := k - k0, n - n0;
    OnePointFitPasses(x, y, fit);
    assert dk * x + dn == 0.0;
    assert (k0 * dk + n0 * dn) * c == y * (x * dk + dn);
    assert k0 * dk + n0 * dn == 0.0;
    assert k * k + n * n == (k0 * k0 + n0 * n0) + (dk * dk + dn * dn) + 2.0 * (k0 * dk + n0 * dn);
    Square(dk);
    Square(dn);
  }

  /**
   * With fewer than two points the fit passes through every point and, among all lines
   * that do, has the smallest coefficient norm (the minimum-norm least-squares solution).
   */
  lemma FitLineMinimumNorm(xs: seq<real>, ys: seq<real>, other: Line)
    requires |xs| == |ys| <= 1
    ensures |ys| == 1 ==> FitLine(xs, ys).At(xs[0]) == ys[0]
    ensures (|ys| == 0 || other.At(xs[0]) == ys[0]) ==> FitLine(xs, ys).Norm2() <= other.Norm2()
  {
    FitLineFewPoints(xs, ys);
    if |ys| == 1 {
      OnePointFitPasses(xs[0], ys[0], FitLine(xs, ys));
      if other.At(xs[0]) == ys[0] {
        OnePointFitMinimal(xs[0], ys[0], FitLine(xs, ys), other);
      }
    } else {
      ZeroLineMinimal(other);
    }
  }

  lemma ZeroLineMinimal(other: Line)
    ensures Line(0.0, 0.0).Norm2() <= other.Norm2()
  {
    var k, n := other.slope, other.intercept;
    SumOfSquares(k, n);
    calc {
      Line(0.0, 0.0).Norm2();
      0.0;
    <=
      k * k + n * n;
      other.Norm2();
    }
  }

  lemma SumOfSquares(a: real, b: real)
    ensures a * a + b * b >= 0.0
  {
    Square(a);
    Square(b);
  }

  lemma FitLineFewPoints(xs: seq<real>, ys: seq<real>)
    requires |xs| == |ys| <= 1
    ensures |ys| == 0 ==> FitLine(xs, ys) == Line(0.0, 0.0)
    ensures |ys| == 1 ==> FitLine(xs, ys) == OnePointFit(xs[0], ys[0])
  {
  }
}
