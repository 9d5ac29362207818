/**
  The framing loop `YIN`: the signal is cut into frames of `wl` samples at a
  hop of `ws` samples, and each frame goes through the difference function,
  the normaliser and the period search. A found lag `p` becomes the pitch
  `sr / p`; a frame without one gets pitch 0.0. Beside each pitch the loop
  records a harmonic rate: the normalised value at the chosen lag, or the
  smallest normalised value of an unvoiced frame.
 */
module FrameScanner {
  import opened RealSeqs
  import DifferenceEngine
  import Normalizer
  import PeriodSearch

  /** The default frame length `wl`, hop `ws` and frequency bounds. */
  const DefaultFrameLength: nat := 882
  const DefaultHop: nat := 441
  const DefaultMinFrequency: nat := 50
  const DefaultMaxFrequency: nat := 500

  /** The sample rate the tuner's callbacks pass to `YIN`. */
  const TunerSampleRate: nat := 44100

  /** The result for one frame: its pitch in Hz (0.0 when unvoiced) and its
      harmonic rate. */
  datatype FrameEstimate = FrameEstimate(pitch: real, harmonicRate: real)

  /** The per-frame pitches and harmonic rates, in time order. */
  datatype YinOutput = YinOutput(pitches: seq<real>, harmonicRates: seq<real>)

  /** `range(start, stop, step)` for a positive step. */
  function Range(start: nat, stop: int, step: nat): (r: seq<nat>)
    requires step >= 1
    ensures |r| == 0 <==> start >= stop
    ensures |r| > 0 ==> r[0] == start
    ensures forall i :: 0 <= i < |r| ==> r[i] < stop
    ensures forall i :: 0 <= i < |r| - 1 ==> r[i + 1] == r[i] + step
    ensures |r| > 0 ==> r[|r| - 1] + step >= stop
    decreases stop - start
  {
    if start < stop then [start] + Range(start + step, stop, step) else []
  }

  /** The `i`th element of the range is `start + i * step`. */
  lemma {:induction false} RangeElement(start: nat, stop: int, step: nat, i: nat)
    requires step >= 1
    requires i < |Range(start, stop, step)|
    ensures Range(start, stop, step)[i] == start + i * step
    decreases i
  {
    if i > 0 {
      RangeElement(start, stop, step, i - 1);
      var r := Range(start, stop, step);
      assert r[i] == r[i - 1] + step;
      assert (i - 1) * step + step == i * step;
    }
  }

  /** `timeScale = range(0, len(sig) - wl, ws)`: the frame starts. */
  function FrameStarts(n: nat, wl: nat, ws: nat): seq<nat>
    requires ws >= 1
  {
    Range(0, n - wl, ws)
  }

  /** The frame starts are 0, ws, 2ws, ... strictly below `len(sig) - wl`,
      and the next multiple of `ws` is not: there are no frames at all when
      the signal is not longer than one frame. */
  lemma FrameStartsAreHops(n: nat, wl: nat, ws: nat)
    requires ws >= 1
    ensures forall i :: 0 <= i < |FrameStarts(n, wl, ws)| ==>
      FrameStarts(n, wl, ws)[i] == i * ws && i * ws + wl < n
    ensures |FrameStarts(n, wl, ws)| * ws + wl >= n
    ensures n <= wl ==> |FrameStarts(n, wl, ws)| == 0
  {
    var r := FrameStarts(n, wl, ws);
    forall i | 0 <= i < |r|
      ensures r[i] == i * ws
    {
      RangeElement(0, n - wl, ws, i);
    }
    if |r| > 0 {
      assert r[|r| - 1] + ws == |r| * ws;
    }
  }

  /** Some sample of the frame differs from its successor (a frame of at
      most one sample trivially qualifies). A constant frame has a zero
      difference function, and the normaliser would divide by zero. */
  predicate Varies(x: seq<real>)
  {
    |x| < 2 || exists j :: 0 <= j < |x| - 1 && x[j] != x[j + 1]
  }

  /** The `i`th frame, `sig[s : s + wl]` for the `i`th start `s`. */
  function Frame(sig: seq<real>, wl: nat, ws: nat, i: nat): (x: seq<real>)
    requires ws >= 1 && i < |FrameStarts(|sig|, wl, ws)|
    ensures |x| == wl
  {
    var s := FrameStarts(|sig|, wl, ws)[i];
    sig[s..s + wl]
  }

  /** No frame of the signal is constant. */
  predicate FramesVary(sig: seq<real>, wl: nat, ws: nat)
    requires ws >= 1
  {
    forall i :: 0 <= i < |FrameStarts(|sig|, wl, ws)| ==> Varies(Frame(sig, wl, ws, i))
  }

  lemma VariesGivesNonZeroSums(x: seq<real>, tMax: nat)
    requires Varies(x)
    ensures Normalizer.NonZeroRunningSums(DifferenceEngine.DifferenceFunction(x, tMax))
  {
    var df := DifferenceEngine.DifferenceFunction(x, tMax);
    if |df| >= 2 {
      var j :| 0 <= j < |x| - 1 && x[j] != x[j + 1];
      DifferenceEngine.LagOneZeroIffConstant(x, |x| - 1);
      DifferenceEngine.LagSquaresNonNegative(x, 1, |x| - 1);
      assert df[1] > 0.0;
    }
    Normalizer.PositiveLagOneGivesNonZeroSums(df);
  }

  /** The normalised difference function of one frame, over all its lags:
      entry `t >= 1` times the mean of the frame's differences at lags
      1..t gives back the difference at lag `t` (equation 8), that
      difference being the direct sum of squares by `DifferenceFunction`. */
  function FrameCmndf(frame: seq<real>): (c: seq<real>)
    requires Varies(frame)
    ensures |c| == if |frame| == 0 then 1 else |frame|
    ensures c[0] == 1.0
    ensures forall t :: 1 <= t < |frame| ==>
      Normalizer.DividesByCumulativeMean(c, DifferenceEngine.DifferenceFunction(frame, |frame|), t)
  {
    var df := DifferenceEngine.DifferenceFunction(frame, |frame|);
    VariesGivesNonZeroSums(frame, |frame|);
    Normalizer.CumulativeMeanNormalized(df, |frame|)
  }

  /** The lag the period search returns for a frame, 0 when unvoiced. In
      `YIN` the lag bound `t_max` is the frame length, since the normaliser
      receives `wl` entries and the search reads lags below `t_max`. */
  function FramePeriod(frame: seq<real>, tMin: nat, ht: real): (p: nat)
    requires Varies(frame)
    ensures p < |FrameCmndf(frame)|
    ensures p != 0 ==> tMin <= p < |frame| && FrameCmndf(frame)[p] < ht
    ensures tMin >= 1 ==> (p == 0 <==> PeriodSearch.NoneBelow(FrameCmndf(frame), tMin, |frame|, ht))
  {
    PeriodSearch.Pitch(FrameCmndf(frame), tMin, |frame|, ht)
  }

  /** `float(sr / p)`: the frequency in Hz of a period of `p` samples. */
  predicate IsFrequencyOf(f: real, sr: nat, p: nat)
  {
    f * p as real == sr as real
  }

  function Frequency(sr: nat, p: nat): (f: real)
    requires p >= 1
    ensures IsFrequencyOf(f, sr, p)
  {
    sr as real / p as real
  }

  /** The per-frame result for normalised function `c` and lag `p`. */
  function Estimate(c: seq<real>, p: nat, sr: nat): (r: FrameEstimate)
    requires p < |c|
    ensures p == 0 ==> r.pitch == 0.0 && r.harmonicRate == Min(c)
    ensures p != 0 ==> IsFrequencyOf(r.pitch, sr, p) && r.harmonicRate == c[p]
  {
    if p != 0 then FrameEstimate(Frequency(sr, p), c[p]) else FrameEstimate(0.0, Min(c))
  }

  /** One iteration of the framing loop. */
  function AnalyzeFrame(frame: seq<real>, sr: nat, tMin: nat, ht: real): (r: FrameEstimate)
    requires Varies(frame)
    ensures FramePeriod(frame, tMin, ht) == 0 ==>
      r.pitch == 0.0 && r.harmonicRate == Min(FrameCmndf(frame))
    ensures FramePeriod(frame, tMin, ht) != 0 ==>
      IsFrequencyOf(r.pitch, sr, FramePeriod(frame, tMin, ht))
    ensures FramePeriod(frame, tMin, ht) != 0 ==>
      r.harmonicRate == FrameCmndf(frame)[FramePeriod(frame, tMin, ht)] && r.harmonicRate < ht
  {
    var c := FrameCmndf(frame);
    var p := FramePeriod(frame, tMin, ht);
    Estimate(c, p, sr)
  }

  /** A frame is reported unvoiced (pitch 0.0) exactly when no lag in
      [tMin, wl) falls below the threshold, and a voiced frame's pitch lies
      between `sr / wl` (exclusive) and `sr / tMin`. */
  lemma AnalyzeFrameVoicing(frame: seq<real>, sr: nat, tMin: nat, ht: real)
    requires Varies(frame)
    requires tMin >= 1 && sr >= 1
    ensures AnalyzeFrame(frame, sr, tMin, ht).pitch == 0.0 <==>
      PeriodSearch.NoneBelow(FrameCmndf(frame), tMin, |frame|, ht)
    ensures AnalyzeFrame(frame, sr, tMin, ht).pitch != 0.0 ==>
      sr as real / |frame| as real < AnalyzeFrame(frame, sr, tMin, ht).pitch <= sr as real / tMin as real
  {
    var p := FramePeriod(frame, tMin, ht);
    var r := AnalyzeFrame(frame, sr, tMin, ht);
    if p != 0 {
      assert r.pitch == Frequency(sr, p);
      FrequencyBounds(sr, p, tMin, |frame|);
    }
  }

  /** The frequency of a lag in [tMin, tMax) lies in (sr / tMax, sr / tMin]. */
  lemma FrequencyBounds(sr: nat, p: nat, tMin: nat, tMax: nat)
    requires 1 <= p < tMax
    ensures sr > 0 ==> Frequency(sr, p) > 0.0
    ensures sr > 0 ==> sr as real / tMax as real < Frequency(sr, p)
    ensures 1 <= tMin <= p ==> Frequency(sr, p) <= sr as real / tMin as real
  {
    if sr > 0 {
      DivideByLarger(sr as real, p as real, tMax as real);
    }
    if 1 <= tMin <= p {
      DivideBySmaller(sr as real, tMin as real, p as real);
    }
  }

  lemma DivideByLarger(a: real, x: real, y: real)
    requires a > 0.0 && 0.0 < x < y
    ensures a / y < a / x
  {
    var u, v := a / x, a / y;
    assert u * x == a;
    assert v * y == a;
    if v >= u {
      assert v * y >= u * y by { MultiplyMonotone(u, v, y); }
      assert u * y > u * x by { MultiplyStrict(u, x, y); }
    }
  }

  lemma MultiplyMonotone(u: real, v: real, y: real)
    requires u <= v && y > 0.0
    ensures u * y <= v * y
  {
  }

  lemma MultiplyStrict(u: real, x: real, y: real)
    requires u > 0.0 && x < y
    ensures u * x < u * y
  {
  }

  lemma DivideBySmaller(a: real, x: real, y: real)
    requires a >= 0.0 && 0.0 < x <= y
    ensures a / y <= a / x
  {
    if a > 0.0 && x < y {
      DivideByLarger(a, x, y);
    }
  }

  /** A frame that repeats after `period` samples, for a period in
      [tMin, wl), has normalised value 0 at that lag; for any positive
      threshold the frame is voiced, at a lag no greater than the period. */
  lemma PeriodicFrameIsVoiced(frame: seq<real>, tMin: nat, ht: real, period: nat)
    requires Varies(frame)
    requires DifferenceEngine.Periodic(frame, period)
    requires 1 <= tMin <= period < |frame|
    requires ht > 0.0
    ensures FrameCmndf(frame)[period] == 0.0
    ensures tMin <= FramePeriod(frame, tMin, ht) <= period
  {
    var df := DifferenceEngine.DifferenceFunction(frame, |frame|);
    VariesGivesNonZeroSums(frame, |frame|);
    var c := FrameCmndf(frame);
    assert c == Normalizer.CumulativeMeanNormalized(df, |frame|);
    DifferenceEngine.PeriodicDifferenceVanishes(frame, period);
    assert Normalizer.DividesByCumulativeMean(c, df, period);
    Normalizer.ZeroDifferenceZeroEntry(c, df, period);
    assert AllNonNegative(df);
    Normalizer.NormalizedNonNegative(df, |frame|);
    PeriodSearch.PitchAtMostMinimum(c, tMin, |frame|, ht, period);
  }

  /** The pitch reported for such a frame is at least `sr / period`: the
      search never settles on a lag longer than a period of the frame. */
  lemma PeriodicFramePitch(frame: seq<real>, sr: nat, tMin: nat, ht: real, period: nat)
    requires Varies(frame)
    requires DifferenceEngine.Periodic(frame, period)
    requires 1 <= tMin <= period < |frame|
    requires ht > 0.0
    ensures AnalyzeFrame(frame, sr, tMin, ht).pitch >= sr as real / period as real
  {
    PeriodicFrameIsVoiced(frame, tMin, ht, period);
    var p := FramePeriod(frame, tMin, ht);
    assert AnalyzeFrame(frame, sr, tMin, ht).pitch == Frequency(sr, p);
    DivideBySmaller(sr as real, p as real, period as real);
  }

  /** `t_min = int(sr / f0_max)`: the shortest period searched. */
  function MinimumLag(sr: nat, f0Max: nat): nat
    requires f0Max >= 1
  {
    sr / f0Max
  }

  /** `t_max = int(sr / f0_min)` equals the frame length. */
  predicate LagBoundIsFrameLength(sr: nat, f0Min: nat, wl: nat)
    requires f0Min >= 1
  {
    sr / f0Min == wl
  }

  /** `YIN(sig, sr, wl, ws, f0_min, f0_max, ht)`, the `pitches` and
      `harmonic_rates` it returns. The normaliser receives `wl` as its length
      argument while the difference function has `min(t_max, wl)` entries,
      and the search reads lags below `t_max` of a normalised function with
      `wl` entries: both hold exactly when `t_max = int(sr / f0_min)` equals
      `wl` (44100 / 50 = 882 with the defaults). */
  function Yin(sig: seq<real>, sr: nat, wl: nat, ws: nat, f0Min: nat, f0Max: nat, ht: real): (out: YinOutput)
    requires ws >= 1 && f0Min >= 1 && f0Max >= 1
    requires LagBoundIsFrameLength(sr, f0Min, wl)
    requires FramesVary(sig, wl, ws)
    ensures |out.pitches| == |out.harmonicRates| == |FrameStarts(|sig|, wl, ws)|
    ensures forall i :: 0 <= i < |out.pitches| ==>
      out.pitches[i] == AnalyzeFrame(Frame(sig, wl, ws, i), sr, MinimumLag(sr, f0Max), ht).pitch &&
      out.harmonicRates[i] == AnalyzeFrame(Frame(sig, wl, ws, i), sr, MinimumLag(sr, f0Max), ht).harmonicRate
  {
    var tMin := MinimumLag(sr, f0Max);
    var n := |FrameStarts(|sig|, wl, ws)|;
    var es := seq(n, i requires 0 <= i < n => AnalyzeFrame(Frame(sig, wl, ws, i), sr, tMin, ht));
    YinOutput(seq(n, i requires 0 <= i < n => es[i].pitch),
              seq(n, i requires 0 <= i < n => es[i].harmonicRate))
  }

  /** Frame `i` of the output is unvoiced exactly when no lag of that frame
      in [t_min, wl) falls below the threshold, and a voiced pitch lies in
      (sr / wl, sr / t_min], with `t_min = int(sr / f0_max)`. */
  lemma YinVoicing(sig: seq<real>, sr: nat, wl: nat, ws: nat, f0Min: nat, f0Max: nat, ht: real, i: nat)
    requires ws >= 1 && f0Min >= 1 && f0Max >= 1
    requires LagBoundIsFrameLength(sr, f0Min, wl)
    requires FramesVary(sig, wl, ws)
    requires MinimumLag(sr, f0Max) >= 1
    requires i < |FrameStarts(|sig|, wl, ws)|
    ensures Yin(sig, sr, wl, ws, f0Min, f0Max, ht).pitches[i] == 0.0 <==>
      PeriodSearch.NoneBelow(FrameCmndf(Frame(sig, wl, ws, i)), MinimumLag(sr, f0Max), wl, ht)
    ensures Yin(sig, sr, wl, ws, f0Min, f0Max, ht).pitches[i] != 0.0 ==>
      sr as real / wl as real < Yin(sig, sr, wl, ws, f0Min, f0Max, ht).pitches[i] <= sr as real / MinimumLag(sr, f0Max) as real
  {
    var frame := Frame(sig, wl, ws, i);
    var tMin := MinimumLag(sr, f0Max);
    assert Varies(frame);
    assert sr >= 1;
    AnalyzeFrameVoicing(frame, sr, tMin, ht);
  }

  /** A frame of the output that repeats after `period` samples, for a period
      in [t_min, wl), is reported voiced with a pitch of at least
      `sr / period`. */
  lemma YinFindsPeriod(sig: seq<real>, sr: nat, wl: nat, ws: nat, f0Min: nat, f0Max: nat, ht: real,
                       i: nat, period: nat)
    requires ws >= 1 && f0Min >= 1 && f0Max >= 1
    requires LagBoundIsFrameLength(sr, f0Min, wl)
    requires FramesVary(sig, wl, ws)
    requires i < |FrameStarts(|sig|, wl, ws)|
    requires DifferenceEngine.Periodic(Frame(sig, wl, ws, i), period)
    requires 1 <= MinimumLag(sr, f0Max) <= period < wl
    requires ht > 0.0
    ensures Yin(sig, sr, wl, ws, f0Min, f0Max, ht).pitches[i] >= sr as real / period as real > 0.0
  {
    var frame := Frame(sig, wl, ws, i);
    var tMin := MinimumLag(sr, f0Max);
    assert Varies(frame);
    assert sr >= 1;
    PeriodicFramePitch(frame, sr, tMin, ht, period);
    FrequencyBounds(sr, period, tMin, wl);
  }

  /** The call the tuner makes, `YIN(sig, 44100)` with every other argument
      at its default, meets the parameter requirements of `Yin` (whether
      every frame varies depends on the signal): `int(44100 / 50)` is
      882, the frame length; `t_min` is 88; the hop and the threshold are
      positive; and the transform length for 882-sample frames is even. */
  lemma DefaultsMeetRequirements()
    ensures LagBoundIsFrameLength(TunerSampleRate, DefaultMinFrequency, DefaultFrameLength)
    ensures MinimumLag(TunerSampleRate, DefaultMaxFrequency) == 88
    ensures DefaultHop >= 1 && PeriodSearch.DefaultThreshold > 0.0
    ensures DifferenceEngine.PadSize(DefaultFrameLength + DefaultFrameLength) % 2 == 0
  {
    DifferenceEngine.EvenPadFrom28(DefaultFrameLength + DefaultFrameLength);
  }
}
