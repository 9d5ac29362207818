# pytuner pitch core in Dafny

This project models the pitch-estimation and note-matching helpers of the
pytuner guitar tuner (`tuner/tunertools.py`) and proves properties about them.
Every sample and frequency is a mathematical `real`.

The helpers implement the YIN method of de Cheveigné and Kawahara (JASA 2002):

- **Difference function** (equation 6). It is computed from a running sum of
  squares and a zero-padded transform autocorrelation. The model represents
  the transform by the circular autocorrelation of the padded frame. It proves
  that this equals the direct sum of squared differences whenever the padding
  is at least `w + t_max`, which the padding rule guarantees. The
  representation is exact only when the transform length is even, because
  `irfft` without a length argument returns an even number of points. The
  transform length is odd exactly when `w + min(t_max, w)` is 25, 26 or 27,
  and even for the default frames of 882 samples.
- **Cumulative-mean normalised difference** (equation 8).
- **Threshold period search** `pitch`.
- **Framing loop** `YIN`. It cuts the signal into frames and reports a pitch
  `sr / p` and a harmonic rate per frame.
- **Post-processing**:
  - `mean`;
  - `avg_pitch`: the mean of the first longest run of voiced (positive)
    values;
  - `quantize`: the nearest entry of a table, found by `bisect_right` over
    midpoints;
  - the 37-note table `notes()`.

Modules, one per file:

| module | file | models |
|---|---|---|
| `Results` | results.dfy | `Option` and `Result` |
| `RealSeqs` | real_seqs.dfy | sums, `mean`, `min`, `max`, orderings of real sequences |
| `DifferenceEngine` | difference_engine.dfy | `differenceFunction` |
| `Normalizer` | normalizer.dfy | `cummalative_mean_norm_df` |
| `PeriodSearch` | period_search.dfy | `pitch` |
| `FrameScanner` | frame_scanner.dfy | `YIN` |
| `VoicedAverager` | voiced_averager.dfy | `avg_pitch` |
| `NoteQuantizer` | note_quantizer.dfy | `quantize`, `bisect.bisect_right` |
| `NoteTable` | note_table.dfy | `notes()` |

Three behaviours of the code differ from the usual statement of the method,
and the model follows the code:

- `differenceFunction` returns `min(t_max, w)` entries (lags `0 .. min(t_max, w) - 1`),
  not `t_max + 1` entries for lags `0 .. t_max`.
- The frame starts are `range(0, len(sig) - wl, ws)`. They are strictly below
  `len(sig) - wl`, so there are `ceil((len(sig) - wl) / ws)` frames rather than
  `floor((len(sig) - wl) / ws) + 1`: a signal of exactly `wl + k * ws` samples
  has no frame at start `k * ws`, and a signal of at most `wl` samples has none.
- The normaliser given an empty difference function still returns `[1.0]`.

## Model

| member | source | states |
|---|---|---|
| DifferenceEngine.PadSize | tuner/tunertools.py:106-109 | `size_pad` is at least `size`, is `k * 2^p2` for a nice number `k`, and is the smallest such multiple that covers `size` |
| DifferenceEngine.PadCandidatesNonEmpty | tuner/tunertools.py:107-109 | `32 * 2^p2 >= size`, so the generator handed to `min` is never empty |
| DifferenceEngine.BitLengthBounds | tuner/tunertools.py:107 | `n < 2^bit_length(n)`, and `2^(bit_length(n)-1) <= n` for positive `n` |
| DifferenceEngine.SmallestCovering | tuner/tunertools.py:109 | `min(k * scale for k in ks if k * scale >= size)`: empty exactly when no factor covers `size`; otherwise the least covering multiple |
| DifferenceEngine.BitLength | tuner/tunertools.py:107 | definition of `int.bit_length`; its meaning is given by `BitLengthBounds` |
| DifferenceEngine.PadExponent | tuner/tunertools.py:107 | definition of `p2 = (size // 32).bit_length()`; used by `PadSize` |
| DifferenceEngine.OddPadSizes | tuner/tunertools.py:106-109 | `size_pad` is odd exactly when `size` is 25, 26 or 27 |
| DifferenceEngine.LargePadIsEven | tuner/tunertools.py:107-109 | from `size = 32` on `p2 >= 1`, so every candidate `k * 2^p2` and hence `size_pad` is even |
| DifferenceEngine.SmallPad | tuner/tunertools.py:108-109 | below 32 `p2 = 0` and `size_pad` is a nice number, the least one that is at least `size`; it is odd exactly for `size` in 25..27 |
| DifferenceEngine.EvenPadFrom28 | tuner/tunertools.py:106-111 | from `size = 28` on `size_pad` is even, so the inverse transform returns `size_pad` points |
| DifferenceEngine.SquareSum | tuner/tunertools.py:105 | definition of `x_cumsum[k]`, the sum of the first `k` squares; its meaning in the identity is given by `ExpandedSquares` |
| DifferenceEngine.CircularAutocorrelation | tuner/tunertools.py:110-111 | definition of `conv[t]` for an even transform length; its meaning is given by `CircularIsLinear` |
| DifferenceEngine.TransformDifference | tuner/tunertools.py:112 | definition of line 112's entry; its meaning is given by `TransformDifferenceIsDirect` |
| DifferenceEngine.PeriodicLagSquaresVanish | tuner/tunertools.py:112 | a frame repeating after `P` samples has zero squared differences at lag `P` |
| DifferenceEngine.PeriodicDifferenceVanishes | tuner/tunertools.py:102-113 | the difference function of a frame repeating after `P` samples is 0 at lag `P` |
| DifferenceEngine.CircularIsLinear | tuner/tunertools.py:110-111 | the circular autocorrelation of the frame zero-padded to `n >= w + t` equals the linear autocorrelation at lag `t` |
| DifferenceEngine.TransformDifferenceIsDirect | tuner/tunertools.py:105-112 | the cumulative-sum identity with the padded autocorrelation gives the direct sum of squared differences at lag `t`, which is non-negative and zero at lag 0 |
| DifferenceEngine.ExpandedSquares | tuner/tunertools.py:112 | the sum of `(x[j] - x[j+t])^2` is the shifted energy plus the aligned energy less twice the lagged products |
| DifferenceEngine.DifferenceFunction | tuner/tunertools.py:102-113 | the result has `min(t_max, w)` entries, each equal to equation 6 summed directly; each is non-negative; entry 0 is 0 |
| DifferenceEngine.LagOneZeroIffConstant | tuner/tunertools.py:112 | the difference at lag 1 vanishes exactly when every sample equals its successor |
| DifferenceEngine.LagSquaresNonNegative | tuner/tunertools.py:112 | a sum of squared differences is non-negative |
| Normalizer.CumulativeMeanNormalized | tuner/tunertools.py:58-59 | the result has `N` entries (1 when `N = 0`); entry 0 is 1; every later entry times the mean of `df[1..t]` gives back `df[t]` (equation 8) |
| Normalizer.RunningSum | tuner/tunertools.py:58 | definition of `np.cumsum(df[1:])[t - 1]`; used by `NormalizedAt` and `CumulativeMeanNormalized` |
| Normalizer.NormalizedAt | tuner/tunertools.py:58 | definition of entry `t` of line 58; its meaning is given by `NormalizedAtTimesMean` |
| Normalizer.ZeroDifferenceZeroEntry | tuner/tunertools.py:58 | a lag with zero difference has normalised value 0 |
| Normalizer.NormalizedAtTimesMean | tuner/tunertools.py:58 | `df[t] * t / cumsum(df[1:])[t-1]` times the mean of `df[1..t]` is `df[t]` |
| Normalizer.PositiveLagOneGivesNonZeroSums | tuner/tunertools.py:58 | a non-negative difference function that is positive at lag 1 never divides by zero |
| Normalizer.NormalizedNonNegative | tuner/tunertools.py:58-59 | a non-negative difference function has a non-negative normalised function |
| Normalizer.ScaleInvariant | tuner/tunertools.py:58-59 | scaling the difference function by a positive factor leaves the normalised function unchanged |
| PeriodSearch.WalkDown | tuner/tunertools.py:131-132 | the inner loop stays in `[t, t_max)`, strictly descends, and stops at the range end or where the next value is not smaller |
| PeriodSearch.Scan | tuner/tunertools.py:129-136 | the outer loop returns 0 when no lag from `t` on is below the threshold; otherwise it returns the stop of a strict descent from the first lag below it |
| PeriodSearch.Pitch | tuner/tunertools.py:116-136 | returns 0 when no lag in `[t_min, t_max)` is below `ht`; otherwise a lag in that range below `ht` reached by strict descent from the first hit, where the walk stops; 0 exactly when unvoiced if `t_min >= 1` |
| PeriodSearch.FirstBelowExists | tuner/tunertools.py:129-130 | when some lag is below the threshold there is a first one |
| PeriodSearch.StopIsUnique | tuner/tunertools.py:131-133 | two stopping points of a strict descent from the same lag coincide |
| PeriodSearch.PitchCharacterized | tuner/tunertools.py:128-136 | on a voiced input, a lag is the result exactly when the descent from the first hit stops there |
| PeriodSearch.PitchReadsBelowTMax | tuner/tunertools.py:128-136 | the result depends only on the values at lags below `t_max` |
| PeriodSearch.DescentStopsByMinimum | tuner/tunertools.py:131-132 | the walk down cannot pass a lag whose value no lag undercuts |
| PeriodSearch.PitchAtMostMinimum | tuner/tunertools.py:128-136 | a lag in `[t_min, t_max)` below `ht` that no lag undercuts makes the search voiced, stopping at or before that lag |
| PeriodSearch.PitchLoop | tuner/tunertools.py:128-136 | the two nested loops with an early return compute `Pitch` |
| FrameScanner.Range | tuner/tunertools.py:158 | `range(start, stop, step)`: empty exactly when `start >= stop`; starts at `start`; steps by `step`; stays below `stop`; the next step would not |
| FrameScanner.RangeElement | tuner/tunertools.py:158 | element `i` of the range is `start + i * step` |
| FrameScanner.FrameStartsAreHops | tuner/tunertools.py:158 | frame `i` starts at `i * ws` and ends before `len(sig)`; one more hop would not fit; no frames when `len(sig) <= wl` |
| FrameScanner.FrameStarts | tuner/tunertools.py:158 | definition of `timeScale`; its meaning is given by `FrameStartsAreHops` |
| FrameScanner.Frame | tuner/tunertools.py:160 | a frame has `wl` samples |
| FrameScanner.VariesGivesNonZeroSums | tuner/tunertools.py:169-170 | a frame that is not constant yields a difference function whose running sums never vanish |
| FrameScanner.FrameCmndf | tuner/tunertools.py:169-170 | the normalised difference function of a frame has `wl` entries (1 for an empty frame) and starts with 1; entry `t >= 1` times the mean of the frame's differences at lags `1..t` is the difference at lag `t` (equation 8) |
| FrameScanner.FramePeriod | tuner/tunertools.py:169-171 | the lag found for a frame is 0 or lies in `[t_min, wl)` with a normalised value below `ht`; when `t_min >= 1`, it is 0 exactly when no lag in `[t_min, wl)` is below `ht` |
| FrameScanner.Frequency | tuner/tunertools.py:177 | `float(sr / p)`: the frequency `f` satisfies `f * p = sr` |
| FrameScanner.Estimate | tuner/tunertools.py:176-180 | a found lag `p` gives pitch `f` with `f * p = sr` and harmonic rate `CMNDF[p]`; lag 0 gives pitch 0.0 and the minimum of `CMNDF` |
| FrameScanner.AnalyzeFrame | tuner/tunertools.py:169-180 | one loop iteration: the pitch and harmonic rate in terms of the frame's own period search, the rate below `ht` when voiced |
| FrameScanner.AnalyzeFrameVoicing | tuner/tunertools.py:171-180 | the pitch is 0.0 exactly when no lag in `[t_min, wl)` is below `ht`; a voiced pitch lies in `(sr / wl, sr / t_min]` |
| FrameScanner.FrequencyBounds | tuner/tunertools.py:177 | `sr / p` for `p` in `[t_min, t_max)` lies in `(sr / t_max, sr / t_min]` |
| FrameScanner.MinimumLag | tuner/tunertools.py:155 | definition of `t_min = int(sr / f0_max)`; the bound it gives is stated by `AnalyzeFrameVoicing` and `YinVoicing` |
| FrameScanner.LagBoundIsFrameLength | tuner/tunertools.py:156 | holds exactly when `t_max = int(sr / f0_min)` equals the frame length `wl`, the condition under which `Yin` is modelled (see "## Left out") |
| FrameScanner.PeriodicFrameIsVoiced | tuner/tunertools.py:169-171 | a frame repeating after `P` samples, `t_min <= P < wl`, has normalised value 0 at `P` and, for a positive threshold, is voiced at a lag in `[t_min, P]` |
| FrameScanner.PeriodicFramePitch | tuner/tunertools.py:169-177 | such a frame is reported with pitch at least `sr / P` |
| FrameScanner.YinFindsPeriod | tuner/tunertools.py:139-182 | an output frame repeating after `P` samples, `t_min <= P < wl`, gets a positive pitch of at least `sr / P` |
| FrameScanner.DefaultsMeetRequirements | tuner/tunertools.py:139-156 | `YIN(sig, 44100)` with the defaults meets `Yin`'s parameter requirements (that no frame is constant depends on the signal): `int(44100 / 50) = 882 = wl`, `t_min = 88`, positive hop and threshold, even transform length |
| FrameScanner.Yin | tuner/tunertools.py:139-182 | one pitch and one harmonic rate per frame start; entry `i` of each is the result of analysing frame `i` |
| FrameScanner.YinVoicing | tuner/tunertools.py:155-180 | output pitch `i` is 0.0 exactly when frame `i` has no lag in `[int(sr / f0_max), wl)` below `ht`; a voiced pitch lies in `(sr / wl, sr / t_min]` |
| RealSeqs.Mean | tuner/tunertools.py:233-242 | `sum(arr) / len(arr)` lies between the smallest and largest entry and times the length is the sum |
| RealSeqs.SumWithin | tuner/tunertools.py:242 | a sum of `n` entries in `[lo, hi]` lies in `[n * lo, n * hi]` |
| RealSeqs.Min | tuner/tunertools.py:180 | `min(CMNDF)` is an entry and is at most every entry |
| RealSeqs.StepsIncreasing | tuner/tunertools.py:191-227 | a sequence whose neighbours increase is strictly increasing |
| VoicedAverager.RunEnd | tuner/tunertools.py:261 | `groupby` extends a voiced group to just before the next unvoiced value or the end |
| VoicedAverager.VoicedRuns | tuner/tunertools.py:261-262 | the voiced groups of `groupby(key=x > 0.0)` are maximal voiced runs, in order and disjoint |
| VoicedAverager.VoicedRunsComplete | tuner/tunertools.py:261-262 | every maximal voiced run is one of the groups |
| VoicedAverager.VoicedEntryInRun | tuner/tunertools.py:261 | every voiced entry lies inside a voiced group |
| VoicedAverager.Longest | tuner/tunertools.py:262 | `max(key=len)` picks the first group of greatest length |
| VoicedAverager.NoRunsMeansUnvoiced | tuner/tunertools.py:261-262 | there are no voiced groups exactly when no entry is positive (both directions) |
| VoicedAverager.PickedGroupIsLongest | tuner/tunertools.py:262 | the picked group is at least as long as every maximal voiced run |
| VoicedAverager.EarlierRunIsShorter | tuner/tunertools.py:262 | every maximal voiced run that starts before the picked group is strictly shorter |
| VoicedAverager.LongestVoicedRun | tuner/tunertools.py:261-262 | none exactly when no entry is positive; otherwise a maximal voiced run, the longest, with every earlier run strictly shorter |
| VoicedAverager.LongestVoicedRunCharacterized | tuner/tunertools.py:261-262 | a run is the chosen one exactly when it is a maximal voiced run, the longest, and every earlier run is strictly shorter |
| VoicedAverager.RunMeanBounds | tuner/tunertools.py:263 | the mean of a voiced run lies between its minimum and maximum and is positive |
| VoicedAverager.AvgPitch | tuner/tunertools.py:245-263 | fails exactly when no entry is positive (`max` of an empty list); otherwise the mean of the chosen run, positive and between that run's minimum and maximum |
| VoicedAverager.AverageOfLongest | tuner/tunertools.py:261-263 | the average is the mean of any run that meets the choice rule |
| VoicedAverager.AvgPitchExample | tuner/tunertools.py:245-263 | on `[0, 0, 110, 112, 108, 0, 0, 0, 220, 225, 0]` the result is 110, the mean of the longer first run |
| NoteQuantizer.Midpoints | tuner/tunertools.py:289-290 | `len(quant) - 1` midpoints, each the average of its neighbours and strictly between them when the table increases |
| NoteQuantizer.MidpointsIncreasing | tuner/tunertools.py:289-290 | the midpoints of a strictly increasing table strictly increase |
| NoteQuantizer.SplitIsUnique | tuner/tunertools.py:291 | on a non-decreasing list at most one position has every entry before it `<= x` and every entry after `> x` |
| NoteQuantizer.SplitCountsEntries | tuner/tunertools.py:291 | that position is the number of entries `<= x` |
| NoteQuantizer.Bisect | tuner/tunertools.py:291 | the halving search over `[lo, hi)` ends at the split position |
| NoteQuantizer.BisectRight | tuner/tunertools.py:291 | `bisect_right` on a non-decreasing list returns the split position, which is the count of entries `<= x` |
| NoteQuantizer.BisectRightCharacterized | tuner/tunertools.py:291 | a position is the result of `bisect_right` exactly when it splits the list at `x` |
| NoteQuantizer.BisectRightLoop | tuner/tunertools.py:291 | the `while lo < hi` loop of `bisect_right` computes `BisectRight` |
| NoteQuantizer.QuantizeIndex | tuner/tunertools.py:289-291 | the index is within the table and splits the midpoints at `num` |
| NoteQuantizer.Quantize | tuner/tunertools.py:278-292 | the result is an entry of the table; on a strictly increasing table no entry is nearer to `num`, and an equally near entry is not higher |
| NoteQuantizer.IndexIsNearest | tuner/tunertools.py:289-292 | the entry at the bisected index is at least as near as every entry, and the higher of two equally near ones |
| NoteQuantizer.NearerThanEarlier | tuner/tunertools.py:289-292 | every entry before the bisected index is at least as far from `num` and, if equally far, lower |
| NoteQuantizer.NearerThanLater | tuner/tunertools.py:289-292 | every entry after the bisected index is strictly farther from `num` |
| NoteQuantizer.TieGoesUp | tuner/tunertools.py:291-292 | a value exactly on a midpoint maps to the higher neighbour |
| NoteQuantizer.QuantizeSaturates | tuner/tunertools.py:289-292 | a one-entry table maps everything to it; below the first midpoint gives the first entry; at or above the last midpoint gives the last |
| NoteQuantizer.QuantizeIdempotent | tuner/tunertools.py:289-292 | on a strictly increasing table every entry quantises to itself |
| NoteQuantizer.QuantizeMonotone | tuner/tunertools.py:289-292 | on a strictly increasing table the result does not decrease as `num` grows |
| NoteTable.NoteFrequencies | tuner/tunertools.py:191-229 | 37 frequencies from E2 = 82.41 Hz to E5 = 659.25 Hz with A4 = 440 Hz at entry 29 |
| NoteTable.NoteNames | tuner/tunertools.py:191-227 | 37 labels from E2 to E5 with A4 at entry 29 |
| NoteTable.LabelsDistinct | tuner/tunertools.py:191-227 | no two of the 37 labels are equal |
| NoteTable.Notes | tuner/tunertools.py:185-230 | 37 notes pairing the label column with the frequency column, entry by entry; entry 29 is A4 at 440 Hz |
| NoteTable.OctavesDouble | tuner/tunertools.py:191-227 | each frequency is twice the one twelve entries below, to within 0.01 Hz (the table's two-decimal rounding) |
| NoteTable.NeighboursIncrease | tuner/tunertools.py:191-227 | each frequency exceeds the one before it |
| NoteTable.NotesIncreasing | tuner/tunertools.py:191-230 | the frequency column is strictly increasing, as `quantize` needs |
| NoteTable.NearestNote | tuner/tunertools.py:185-292 | quantising a frequency against the table yields the nearest note frequency, the higher of two equally near ones |
| NoteTable.LabelLookupSucceeds | main.py:215-218 | no two notes share a label, so `dict(notes())` keeps all 37 pairs and its values are the frequency column; the frequency `quantize` returns against them is the frequency of a note, and no two notes share a frequency, so the inverted dictionary `{v: k}` finds exactly one label and never raises `KeyError` |

## Left out

- The FFT pair `rfft`/`irfft` (tuner/tunertools.py:110-111) belongs to numpy. It is represented by the circular autocorrelation of the zero-padded frame. Its floating-point error is not modelled.
- DifferenceEngine.DifferenceFunction assumes that the inverse transform returns `size_pad` points. That holds only when `size_pad` is even. `irfft` without a length returns `size_pad - 1` points for an odd `size_pad`, and the result need not be the autocorrelation (nor `df[0]` be 0). `OddPadSizes` pins the affected sizes to `w + min(t_max, w)` in 25..27, and `EvenPadFrom28` shows every larger size is exact, the default 882-sample frames included.
- Floating-point rounding, `nan` and `inf` are not modelled: all values are reals. Where the Python code would divide by zero, the model requires that it does not.
- Normalizer.CumulativeMeanNormalized requires non-zero running sums, where numpy would return `nan` or `inf`. It also requires `len(df) == N`. For other lengths numpy raises a broadcasting error, unless one of `df[1:]` and `range(1, N)` has a single entry and is repeated. Then the result is not equation 8: `len(df) = 2, N = 5` gives `[1, 1, 2, 3, 4]`, and `N = 2` with a longer `df` gives `df[t] / cumsum` without the factor `t`.
- FrameScanner.Yin requires `int(sr / f0_min) == wl` (882 = 44100 / 50 with the defaults; `DefaultsMeetRequirements`). When `t_max < wl` the difference function has `t_max` entries and the normaliser's arrays differ in length (see the line above). When `t_max > wl` the clamp at line 104 keeps the difference function and the normaliser in agreement, but `pitch` reads `CMNDF[wl]` and raises `IndexError` whenever its scan or walk reaches lag `wl`. `Yin` also requires that no frame is constant, which would divide by zero.
- FrameScanner.Yin requires `ws >= 1`, `f0_min >= 1` and `f0_max >= 1`, with all arguments natural numbers. `range` raises `ValueError` for a hop of 0, and `int(sr / 0)` raises `ZeroDivisionError`. Negative hops, rates and bounds are not modelled.
- FrameScanner.Yin does not model the `argmins` and `times` outputs (tuner/tunertools.py:159, 164, 174-175). They are diagnostics that the pitch path does not consume.
- RealSeqs.Mean requires a non-empty list. `tunertools.mean` raises `ZeroDivisionError` on an empty one.
- NoteQuantizer.Quantize requires a non-empty table. `tunertools.quantize` raises `IndexError` on an empty one.
- NoteQuantizer.Distance has no contract of its own: it is the absolute difference used to state nearness.
- NoteTable.OctavesDouble states the octave relation to within 0.01 Hz, not exactly, because the table is rounded to two decimals. The ratio between neighbouring semitones is not stated.
- `audio_read` and `play` (tuner/tunertools.py:9-28) are WAV file input and speaker output.
- The Tk user interface, the `sounddevice` input stream, the in-tune check in the GUI callback (main.py, tuner/tuner.py) are not part of this model.
- tuner/dropdown.py is a Tk widget and is not part of this model.
- `tunertools.yaapt`, which tuner/tuner.py calls, is not defined in tuner/tunertools.py and is not part of this model.
