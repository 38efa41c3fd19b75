/**
 * Shared vocabulary for series: the period type, sums over real sequences and
 * the "undefined value" view of a series whose entries may be NaN (`None`).
 */
module Series {
  import opened Wrappers

  /** Number of observations per seasonal cycle. */
  type Period = p: int | p >= 1 witness 1

  /** An entry that may be undefined (NaN in the original arrays). */
  type Value = Option<real>

  /** `n` copies of `v` (`np.repeat(v, n)`, `np.ones(n)` for `v == 1`). */
  function Constant(v: real, n: nat): (s: seq<real>)
    ensures |s| == n && forall i :: 0 <= i < n ==> s[i] == v
  {
    seq(n, _ => v)
  }

  /** Elementwise division of a sequence by a scalar, as numpy's `array / d`. */
  function Divided(s: seq<real>, d: real): (r: seq<real>)
    requires d != 0.0
    ensures |r| == |s| && forall i :: 0 <= i < |s| ==> r[i] * d == s[i]
  {
    seq(|s|, i requires 0 <= i < |s| => s[i] / d)
  }

  /**
   * The sum of a sequence. Contracts speak of `Sum`, which is not recursive, so that a
   * fact about a sum always mentions the same term; `SumRec` does the recursion.
   */
  function Sum(s: seq<real>): real {
    SumRec(s)
  }

  function SumRec(s: seq<real>): real {
    if |s| == 0 then 0.0 else s[0] + SumRec(s[1..])
  }

  lemma {:induction false} SumAppend(a: seq<real>, b: seq<real>)
    ensures Sum(a + b) == Sum(a) + Sum(b)
  {
    if |a| > 0 {
      assert (a + b)[0] == a[0] && (a + b)[1..] == a[1..] + b;
      SumAppend(a[1..], b);
      calc {
        Sum(a + b);
        a[0] + Sum(a[1..] + b);
        a[0] + Sum(a[1..]) + Sum(b);
      }
    } else {
      assert a + b == b;
    }
  }

  lemma {:induction false} SumConstant(v: real, n: nat)
    ensures Sum(Constant(v, n)) == n as real * v
  {
    if n > 0 {
      assert Constant(v, n)[1..] == Constant(v, n - 1);
      SumConstant(v, n - 1);
    }
  }

  lemma {:induction false} SumDivided(s: seq<real>, d: real)
    requires d != 0.0
    ensures Sum(Divided(s, d)) == Sum(s) / d
  {
    if |s| > 0 {
      assert Divided(s, d)[1..] == Divided(s[1..], d);
      SumDivided(s[1..], d);
      assert Divided(s, d)[0] == s[0] / d;
      assert s[0] / d + Sum(s[1..]) / d == (s[0] + Sum(s[1..])) / d;
    }
  }

  /** Scaling every entry by `a` scales the sum by `a`. */
  lemma {:induction false} SumScale(u: seq<real>, w: seq<real>, a: real)
    requires |u| == |w|
    requires forall j :: 0 <= j < |w| ==> w[j] == a * u[j]
    ensures Sum(w) == a * Sum(u)
  {
    if |w| > 0 {
      SumScale(u[1..], w[1..], a);
      SumScaleStep(u[0], w[0], a, Sum(u), Sum(u[1..]), Sum(w), Sum(w[1..]));
    }
  }

  lemma SumScaleStep(u0: real, w0: real, a: real, su: real, su': real, sw: real, sw': real)
    requires w0 == a * u0
    requires su == u0 + su' && sw == w0 + sw'
    requires sw' == a * su'
    ensures sw == a * su
  {
  }

  /** The sum of an elementwise sum is the sum of the sums. */
  lemma {:induction false} SumAdd(u: seq<real>, v: seq<real>, w: seq<real>)
    requires |u| == |v| == |w|
    requires forall j :: 0 <= j < |w| ==> w[j] == u[j] + v[j]
    ensures Sum(w) == Sum(u) + Sum(v)
  {
    if |w| > 0 {
      SumAdd(u[1..], v[1..], w[1..]);
    }
  }

  /** The sum of an elementwise difference is the difference of the sums. */
  lemma {:induction false} SumSub(u: seq<real>, v: seq<real>, w: seq<real>)
    requires |u| == |v| == |w|
    requires forall j :: 0 <= j < |w| ==> w[j] == u[j] - v[j]
    ensures Sum(w) == Sum(u) - Sum(v)
  {
    if |w| > 0 {
      SumSub(u[1..], v[1..], w[1..]);
    }
  }

  predicate AllDefined(s: seq<Value>) {
    forall i :: 0 <= i < |s| ==> s[i].Some?
  }

  /** The numbers of a series none of whose entries is undefined. */
  function Values(s: seq<Value>): (r: seq<real>)
    requires AllDefined(s)
    ensures |r| == |s| && forall i :: 0 <= i < |s| ==> s[i] == Some(r[i])
  {
    seq(|s|, i requires 0 <= i < |s| => s[i].value)
  }

  /** Every entry of a series of numbers marked as defined. */
  function Defined(s: seq<real>): (r: seq<Value>)
    ensures |r| == |s| && AllDefined(r) && Values(r) == s
  {
    seq(|s|, i requires 0 <= i < |s| => Some(s[i]))
  }
}
