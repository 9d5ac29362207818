/**
  The cumulative-mean normalised difference function, equation 8 of the YIN
  paper, as `cummalative_mean_norm_df` computes it: entry 0 is fixed at 1 and
  every later entry divides the difference at that lag by the mean of the
  differences at lags 1 up to it.
 */
module Normalizer {
  import opened RealSeqs

  /** `np.cumsum(df[1:])[t - 1]`: the sum of the differences at lags 1..t. */
  function RunningSum(df: seq<real>, t: nat): real
    requires 1 <= t < |df|
  {
    Sum(df[1..t + 1])
  }

  /** No running sum vanishes, so every division of the normaliser is
      defined (numpy would produce nan or inf otherwise). */
  predicate NonZeroRunningSums(df: seq<real>)
  {
    forall t :: 1 <= t < |df| ==> RunningSum(df, t) != 0.0
  }

  /** Equation 8 at lag `t`: `c[t]` is the difference at lag `t` divided by
      the mean of the differences at lags 1..t. */
  predicate DividesByCumulativeMean(c: seq<real>, df: seq<real>, t: nat)
    requires 1 <= t < |c| && t < |df|
  {
    c[t] * Mean(df[1..t + 1]) == df[t]
  }

  /** Entry `t >= 1` of the normalised function: `df[t] * t / cumsum`. */
  function NormalizedAt(df: seq<real>, t: nat): real
    requires 1 <= t < |df|
    requires RunningSum(df, t) != 0.0
  {
    df[t] * t as real / RunningSum(df, t)
  }

  /** Equation 8: the normalised entry times the mean of the differences
      at lags 1..t gives back the difference at lag t. */
  lemma NormalizedAtTimesMean(df: seq<real>, t: nat)
    requires 1 <= t < |df|
    requires RunningSum(df, t) != 0.0
    ensures NormalizedAt(df, t) * Mean(df[1..t + 1]) == df[t]
  {
    var m := Mean(df[1..t + 1]);
    assert m * t as real == RunningSum(df, t);
    RatioTimesMean(df[t], t as real, RunningSum(df, t), m);
  }

  /** `cummalative_mean_norm_df(df, N)`. `tunertools.py` multiplies `df[1:]`
      by `range(1, N)` elementwise; only when `N` is the length of `df` is
      that equation 8 (numpy rejects other lengths unless one side has a
      single entry, which it repeats). An empty `df` still yields the single
      entry 1. */
  function CumulativeMeanNormalized(df: seq<real>, n: nat): (c: seq<real>)
    requires |df| == n
    requires NonZeroRunningSums(df)
    ensures |c| == if n == 0 then 1 else n
    ensures c[0] == 1.0
    ensures forall t :: 1 <= t < n ==> DividesByCumulativeMean(c, df, t)
  {
    var c := seq(if n == 0 then 1 else n, t requires 0 <= t < (if n == 0 then 1 else n) =>
      if t == 0 then 1.0 else NormalizedAt(df, t));
    assert forall t :: 1 <= t < n ==> DividesByCumulativeMean(c, df, t) by {
      forall t | 1 <= t < n
        ensures DividesByCumulativeMean(c, df, t)
      {
        assert c[t] == NormalizedAt(df, t);
        NormalizedAtTimesMean(df, t);
      }
    }
    c
  }

  /** `(a * t / s) * m == a` when `m` is `s / t`. */
  lemma RatioTimesMean(a: real, t: real, s: real, m: real)
    requires t > 0.0 && s != 0.0
    requires m * t == s
    ensures (a * t / s) * m == a
  {
    calc {
      (a * t / s) * m;
      == (a / s) * (m * t);
      == (a / s) * s;
      == a;
    }
  }

  /** A difference function that is non-negative and positive at lag 1 (the
      case of any frame that is not constant) has no vanishing running sum. */
  lemma PositiveLagOneGivesNonZeroSums(df: seq<real>)
    requires AllNonNegative(df)
    requires |df| >= 2 ==> df[1] > 0.0
    ensures NonZeroRunningSums(df)
  {
    forall t | 1 <= t < |df|
      ensures RunningSum(df, t) != 0.0
    {
      var s := df[1..t + 1];
      assert AllNonNegative(s);
      SumAtLeastFirst(s);
    }
  }

  /** On a non-negative difference function every normalised entry is
      non-negative as well. */
  lemma NormalizedNonNegative(df: seq<real>, n: nat)
    requires |df| == n
    requires NonZeroRunningSums(df)
    requires AllNonNegative(df)
    ensures AllNonNegative(CumulativeMeanNormalized(df, n))
  {
    var c := CumulativeMeanNormalized(df, n);
    forall t | 1 <= t < n
      ensures c[t] >= 0.0
    {
      EntryNonNegative(c, df, t);
    }
  }

  lemma EntryNonNegative(c: seq<real>, df: seq<real>, t: nat)
    requires 1 <= t < |c| && t < |df|
    requires AllNonNegative(df)
    requires RunningSum(df, t) != 0.0
    requires DividesByCumulativeMean(c, df, t)
    ensures c[t] >= 0.0
  {
    var s := df[1..t + 1];
    assert AllNonNegative(s);
    SumNonNegative(s);
    var m := Mean(s);
    assert m * t as real == RunningSum(df, t);
    assert m > 0.0 by {
      if m <= 0.0 {
        NonPositiveTimesPositive(m, t as real);
      }
    }
    QuotientSign(c[t], m, df[t]);
  }

  /** A lag with zero difference has normalised value 0. */
  lemma ZeroDifferenceZeroEntry(c: seq<real>, df: seq<real>, t: nat)
    requires 1 <= t < |c| && t < |df|
    requires RunningSum(df, t) != 0.0
    requires DividesByCumulativeMean(c, df, t)
    requires df[t] == 0.0
    ensures c[t] == 0.0
  {
    var m := Mean(df[1..t + 1]);
    assert m * t as real == RunningSum(df, t);
    assert m != 0.0;
    ZeroProductFactor(c[t], m);
  }

  lemma ZeroProductFactor(a: real, m: real)
    requires m != 0.0 && a * m == 0.0
    ensures a == 0.0
  {
  }

  lemma NonPositiveTimesPositive(m: real, t: real)
    requires m <= 0.0 && t > 0.0
    ensures m * t <= 0.0
  {
  }

  lemma QuotientSign(c: real, m: real, d: real)
    requires m > 0.0 && d >= 0.0 && c * m == d
    ensures c >= 0.0
  {
  }

  /** Multiplying every difference by the same positive factor (a louder
      frame) leaves the normalised function unchanged: the threshold test is
      independent of the frame's energy. */
  lemma ScaleInvariant(df: seq<real>, n: nat, a: real)
    requires |df| == n
    requires NonZeroRunningSums(df)
    requires a > 0.0
    ensures NonZeroRunningSums(Scale(df, a))
    ensures CumulativeMeanNormalized(Scale(df, a), n) == CumulativeMeanNormalized(df, n)
  {
    var sdf := Scale(df, a);
    assert NonZeroRunningSums(sdf) by {
      forall t | 1 <= t < n
        ensures RunningSum(sdf, t) != 0.0
      {
        ScaledRunningSum(df, a, t);
        NonZeroProduct(a, RunningSum(df, t));
      }
    }
    var c1 := CumulativeMeanNormalized(sdf, n);
    var c2 := CumulativeMeanNormalized(df, n);
    forall t | 0 <= t < |c1|
      ensures c1[t] == c2[t]
    {
      if t > 0 {
        ScaledEntry(df, a, t);
      }
    }
  }

  lemma ScaledRunningSum(df: seq<real>, a: real, t: nat)
    requires 1 <= t < |df|
    ensures RunningSum(Scale(df, a), t) == a * RunningSum(df, t)
  {
    var part := df[1..t + 1];
    ScaleSlice(df, a, 1, t + 1);
    SumScale(part, a);
  }

  lemma ScaledEntry(df: seq<real>, a: real, t: nat)
    requires 1 <= t < |df|
    requires RunningSum(df, t) != 0.0
    requires a > 0.0
    ensures RunningSum(Scale(df, a), t) != 0.0
    ensures NormalizedAt(Scale(df, a), t) == NormalizedAt(df, t)
  {
    ScaledRunningSum(df, a, t);
    NonZeroProduct(a, RunningSum(df, t));
    ScaledRatio(df[t], t as real, RunningSum(df, t), a);
  }

  lemma NonZeroProduct(a: real, b: real)
    requires a != 0.0 && b != 0.0
    ensures a * b != 0.0
  {
  }

  lemma ScaledRatio(d: real, t: real, s: real, a: real)
    requires s != 0.0 && a > 0.0
    ensures (a * d) * t / (a * s) == d * t / s
  {
    NonZeroProduct(a, s);
    calc {
      (a * d) * t / (a * s);
      == (a * (d * t)) / (a * s);
      == (d * t) / s;
    }
  }
}
