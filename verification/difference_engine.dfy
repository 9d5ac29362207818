/**
  The difference function of the YIN method (equation 6 of de Cheveigné &
  Kawahara, 2002) as `differenceFunction` computes it: a running sum of
  squared samples plus an autocorrelation taken from a zero-padded transform.

  The transform pair itself (a real FFT, the product with its conjugate and the
  inverse FFT) is a foreign numeric library and is represented by the circular
  autocorrelation of the frame padded with zeros to the chosen transform
  length. That is what the pair computes when the transform length is even:
  `irfft` called without a length returns an even number of points, one fewer
  than an odd transform length. The transform length is odd only for
  `w + min(t_max, w)` in 25..27 (`OddPadSizes`).
 */
module DifferenceEngine {
  import opened Results

  // ---------------------------------------------------------------------
  // Transform length selection
  // ---------------------------------------------------------------------

  /** Python's `int.bit_length` for a non-negative integer. */
  function BitLength(n: nat): nat
  {
    if n == 0 then 0 else 1 + BitLength(n / 2)
  }

  function Pow2(e: nat): (p: nat)
    ensures p >= 1
  {
    if e == 0 then 1 else 2 * Pow2(e - 1)
  }

  /** `n` lies below 2 to the power of its bit length, and at or above the
      previous power when it is positive. */
  lemma {:induction false} BitLengthBounds(n: nat)
    ensures n < Pow2(BitLength(n))
    ensures n > 0 ==> Pow2(BitLength(n) - 1) <= n
    decreases n
  {
    if n > 0 {
      BitLengthBounds(n / 2);
    }
  }

  /** The radix factors the transform length is built from. */
  const NiceNumbers: seq<nat> := [16, 18, 20, 24, 25, 27, 30, 32]

  /** `p2 = (size // 32).bit_length()` */
  function PadExponent(size: nat): nat
  {
    BitLength(size / 32)
  }

  /** The smallest `k * scale` over `k` in `ks` that is at least `size`, or
      None when no factor reaches `size` (the generator handed to `min`
      would be empty). */
  function SmallestCovering(ks: seq<nat>, scale: nat, size: nat): (r: Option<nat>)
    ensures r.None? <==> forall i :: 0 <= i < |ks| ==> ks[i] * scale < size
    ensures r.Some? ==> r.value >= size
    ensures r.Some? ==> exists i :: 0 <= i < |ks| && r.value == ks[i] * scale
    ensures r.Some? ==> forall i :: 0 <= i < |ks| && ks[i] * scale >= size ==> r.value <= ks[i] * scale
  {
    if |ks| == 0 then None
    else
      var rest := SmallestCovering(ks[1..], scale, size);
      assert forall i :: 1 <= i < |ks| ==> ks[1..][i - 1] == ks[i];
      if ks[0] * scale < size then rest
      else if rest.Some? && rest.value < ks[0] * scale then rest
      else Some(ks[0] * scale)
  }

  /** The largest factor, 32, always covers: `32 * 2^p2 >= size`. So the
      generator the transform length is taken from is never empty. */
  lemma PadCandidatesNonEmpty(size: nat)
    ensures NiceNumbers[7] * Pow2(PadExponent(size)) >= size
  {
    var q := size / 32;
    BitLengthBounds(q);
    assert q + 1 <= Pow2(BitLength(q));
    assert size < 32 * (q + 1);
  }

  /** `size_pad`: the smallest `k * 2^p2`, `k` a nice number, that is at
      least `size`. */
  function PadSize(size: nat): (r: nat)
    ensures r >= size
    ensures exists i :: 0 <= i < |NiceNumbers| && r == NiceNumbers[i] * Pow2(PadExponent(size))
    ensures forall i :: 0 <= i < |NiceNumbers| && NiceNumbers[i] * Pow2(PadExponent(size)) >= size ==>
      r <= NiceNumbers[i] * Pow2(PadExponent(size))
  {
    PadCandidatesNonEmpty(size);
    SmallestCovering(NiceNumbers, Pow2(PadExponent(size)), size).value
  }

  /** `size_pad` is odd exactly when `size` is 25, 26 or 27. The odd nice
      numbers 25 and 27 are used unscaled only while `size < 32`, where
      `p2 = 0`; from 32 on every candidate is a multiple of 2. */
  lemma OddPadSizes(size: nat)
    ensures PadSize(size) % 2 == 1 <==> 25 <= size <= 27
  {
    if size >= 32 {
      LargePadIsEven(size);
    } else {
      SmallPad(size);
    }
  }

  /** From `size = 32` on, `p2` is at least 1, so every candidate is a
      nice number times a positive power of two and the transform length is
      even. */
  lemma LargePadIsEven(size: nat)
    requires size >= 32
    ensures PadExponent(size) >= 1
    ensures PadSize(size) % 2 == 0
  {
    var r := PadSize(size);
    var e := PadExponent(size);
    assert e >= 1;
    var i :| 0 <= i < |NiceNumbers| && r == NiceNumbers[i] * Pow2(e);
    EvenTimesPow2(NiceNumbers[i], e);
  }

  lemma EvenTimesPow2(k: nat, e: nat)
    requires e >= 1
    ensures (k * Pow2(e)) % 2 == 0
  {
    var q := Pow2(e - 1);
    assert Pow2(e) == 2 * q;
    assert k * Pow2(e) == (k * q) * 2;
  }

  /** Below 32 the transform length is the least nice number covering
      `size`. */
  lemma SmallPad(size: nat)
    requires size < 32
    ensures PadExponent(size) == 0
    ensures exists i :: 0 <= i < |NiceNumbers| && PadSize(size) == NiceNumbers[i]
    ensures forall i :: 0 <= i < |NiceNumbers| && NiceNumbers[i] >= size ==> PadSize(size) <= NiceNumbers[i]
    ensures PadSize(size) % 2 == 1 <==> 25 <= size <= 27
  {
    var r := PadSize(size);
    var e := PadExponent(size);
    assert e == 0;
    assert Pow2(e) == 1;
    var i :| 0 <= i < |NiceNumbers| && r == NiceNumbers[i] * Pow2(e);
    assert r == NiceNumbers[i];
    var ks := NiceNumbers;
    assert forall i :: 0 <= i < |ks| ==> ks[i] * Pow2(e) == ks[i];
    LeastCoveringNice(ks, r, size);
  }

  /** The table is passed as `ks` so that the case split below reads its
      entries by index instead of unfolding the literal. */
  lemma LeastCoveringNice(ks: seq<nat>, r: nat, size: nat)
    requires ks == NiceNumbers
    requires exists i :: 0 <= i < |ks| && r == ks[i]
    requires forall i :: 0 <= i < |ks| && ks[i] >= size ==> r <= ks[i]
    requires r >= size
    ensures r % 2 == 1 <==> 25 <= size <= 27
  {
    var i :| 0 <= i < |ks| && r == ks[i];
    if size <= 24 {
      assert r <= ks[3];
    } else if size <= 27 {
      assert r <= ks[5];
    }
  }

  /** From `size = 28` on the transform length is even, so the inverse
      transform returns `size_pad` points; this covers every frame of
      `wl >= 14` samples, the default `wl = 882` among them. */
  lemma EvenPadFrom28(size: nat)
    requires size >= 28
    ensures PadSize(size) % 2 == 0
  {
    OddPadSizes(size);
  }

  // ---------------------------------------------------------------------
  // Sums over a frame
  // ---------------------------------------------------------------------

  function Square(d: real): real
  {
    d * d
  }

  /** `x_cumsum[k]`: the sum of the squares of the first `k` samples. */
  function SquareSum(x: seq<real>, k: nat): real
    requires k <= |x|
  {
    if k == 0 then 0.0 else SquareSum(x, k - 1) + Square(x[k - 1])
  }

  /** The sum of `x[j] * x[j + t]` for `j < k`. */
  function LagProducts(x: seq<real>, t: nat, k: nat): real
    requires k + t <= |x|
  {
    if k == 0 then 0.0 else LagProducts(x, t, k - 1) + x[k - 1] * x[k - 1 + t]
  }

  /** The linear autocorrelation of a frame at lag `t`. */
  function Autocorrelation(x: seq<real>, t: nat): real
    requires t <= |x|
  {
    LagProducts(x, t, |x| - t)
  }

  /** The sum of `(x[j] - x[j + t])^2` for `j < k`. */
  function LagSquares(x: seq<real>, t: nat, k: nat): real
    requires k + t <= |x|
  {
    if k == 0 then 0.0
    else LagSquares(x, t, k - 1) + Square(x[k - 1] - x[k - 1 + t])
  }

  /** Equation 6 of the YIN paper, summed directly over the frame. This is
      the reference the transform-based computation must agree with. */
  function DirectDifference(x: seq<real>, t: nat): real
    requires t <= |x|
  {
    LagSquares(x, t, |x| - t)
  }

  /** Expanding the square: the shifted energy plus the aligned energy less
      twice the lagged products. */
  lemma {:induction false} ExpandedSquares(x: seq<real>, t: nat, k: nat)
    requires k + t <= |x|
    ensures LagSquares(x, t, k)
      == SquareSum(x, k) + (SquareSum(x, k + t) - SquareSum(x, t)) - 2.0 * LagProducts(x, t, k)
    decreases k
  {
    if k > 0 {
      ExpandedSquares(x, t, k - 1);
      var a, b := x[k - 1], x[k - 1 + t];
      SquareOfDifference(a, b);
      assert SquareSum(x, k) == SquareSum(x, k - 1) + Square(a);
      assert SquareSum(x, k + t) == SquareSum(x, k - 1 + t) + Square(b);
      assert LagProducts(x, t, k) == LagProducts(x, t, k - 1) + a * b;
      assert LagSquares(x, t, k) == LagSquares(x, t, k - 1) + Square(a - b);
    }
  }

  lemma SquareOfDifference(a: real, b: real)
    ensures Square(a - b) == Square(a) + Square(b) - 2.0 * (a * b)
  {
  }

  lemma {:induction false} LagSquaresNonNegative(x: seq<real>, t: nat, k: nat)
    requires k + t <= |x|
    ensures LagSquares(x, t, k) >= 0.0
    decreases k
  {
    if k > 0 {
      LagSquaresNonNegative(x, t, k - 1);
      SquareFacts(x[k - 1] - x[k - 1 + t]);
    }
  }

  lemma SquareFacts(d: real)
    ensures Square(d) >= 0.0
    ensures d != 0.0 ==> Square(d) > 0.0
  {
    if d > 0.0 {
      SquareOfPositive(d);
    } else if d < 0.0 {
      SquareOfNegative(d);
    }
  }

  lemma SquareOfPositive(d: real)
    requires d > 0.0
    ensures Square(d) > 0.0
  {
    PositiveProduct(d, d);
    calc { Square(d); == d * d; > 0.0; }
  }

  lemma SquareOfNegative(d: real)
    requires d < 0.0
    ensures Square(d) > 0.0
  {
    PositiveProduct(-d, -d);
    calc { Square(d); == (-d) * (-d); > 0.0; }
  }

  lemma PositiveProduct(a: real, b: real)
    requires a > 0.0 && b > 0.0
    ensures a * b > 0.0
  {
  }

  lemma {:induction false} LagSquaresAtZero(x: seq<real>, k: nat)
    requires k <= |x|
    ensures LagSquares(x, 0, k) == 0.0
    decreases k
  {
    if k > 0 {
      LagSquaresAtZero(x, k - 1);
    }
  }

  /** The difference at lag 1 vanishes exactly when every sample equals its
      successor, i.e. when the frame is constant. */
  lemma {:induction false} LagOneZeroIffConstant(x: seq<real>, k: nat)
    requires k + 1 <= |x|
    ensures LagSquares(x, 1, k) == 0.0 <==> forall j :: 0 <= j < k ==> x[j] == x[j + 1]
    decreases k
  {
    if k > 0 {
      LagOneZeroIffConstant(x, k - 1);
      LagSquaresNonNegative(x, 1, k - 1);
      SquareFacts(x[k - 1] - x[k]);
      if x[k - 1] != x[k] {
        assert x[(k - 1) + 1] != x[k - 1];
      }
    }
  }

  /** The frame repeats itself after `period` samples. */
  predicate Periodic(x: seq<real>, period: nat)
  {
    forall j :: 0 <= j < |x| - period ==> x[j] == x[j + period]
  }

  lemma {:induction false} PeriodicLagSquaresVanish(x: seq<real>, period: nat, k: nat)
    requires k + period <= |x|
    requires Periodic(x, period)
    ensures LagSquares(x, period, k) == 0.0
    decreases k
  {
    if k > 0 {
      PeriodicLagSquaresVanish(x, period, k - 1);
      assert x[k - 1] == x[k - 1 + period];
    }
  }

  // ---------------------------------------------------------------------
  // The transform-based autocorrelation
  // ---------------------------------------------------------------------

  /** The frame zero-padded to length `n` (what `rfft(x, n)` transforms). */
  function Padded(x: seq<real>, n: nat): (p: seq<real>)
    requires |x| <= n
    ensures |p| == n
    ensures forall j :: 0 <= j < |x| ==> p[j] == x[j]
    ensures forall j :: |x| <= j < n ==> p[j] == 0.0
  {
    x + seq(n - |x|, _ => 0.0)
  }

  /** The sum of `p[j] * p[(j + t) mod |p|]` for `j < k`. */
  function CircularProducts(p: seq<real>, t: nat, k: nat): real
    requires 0 < |p| && k <= |p|
  {
    if k == 0 then 0.0 else CircularProducts(p, t, k - 1) + p[k - 1] * p[(k - 1 + t) % |p|]
  }

  /** `irfft(fc * fc.conjugate())[t]` with `fc = rfft(x, n)` for an even
      transform length `n`: the circular autocorrelation of the zero-padded
      frame. */
  function CircularAutocorrelation(x: seq<real>, n: nat, t: nat): real
    requires 0 < n && |x| <= n
  {
    CircularProducts(Padded(x, n), t, n)
  }

  lemma ModBelow(i: nat, n: nat)
    requires i < n
    ensures i % n == i
  {
  }

  lemma {:induction false} CircularMatchesInside(x: seq<real>, n: nat, t: nat, k: nat)
    requires 0 < n && |x| + t <= n && k + t <= |x|
    ensures CircularProducts(Padded(x, n), t, k) == LagProducts(x, t, k)
    decreases k
  {
    if k > 0 {
      CircularMatchesInside(x, n, t, k - 1);
      ModBelow(k - 1 + t, n);
    }
  }

  lemma {:induction false} CircularMatchesBeyond(x: seq<real>, n: nat, t: nat, k: nat)
    requires 0 < n && |x| + t <= n && t <= |x| && |x| - t <= k <= n
    ensures CircularProducts(Padded(x, n), t, k) == LagProducts(x, t, |x| - t)
    decreases k
  {
    if k == |x| - t {
      CircularMatchesInside(x, n, t, k);
    } else {
      CircularMatchesBeyond(x, n, t, k - 1);
      var p := Padded(x, n);
      var j := k - 1;
      if j < |x| {
        ModBelow(j + t, n);
      } else {
        assert p[j] == 0.0;
      }
    }
  }

  /** Zero padding to at least `|x| + t` samples keeps the wrap-around terms
      out: the circular autocorrelation at lag `t` is the linear one. */
  lemma CircularIsLinear(x: seq<real>, n: nat, t: nat)
    requires 0 < n && t <= |x| && |x| + t <= n
    ensures CircularAutocorrelation(x, n, t) == Autocorrelation(x, t)
  {
    CircularMatchesBeyond(x, n, t, n);
  }

  // ---------------------------------------------------------------------
  // The difference function
  // ---------------------------------------------------------------------

  /** One entry of the transform-based difference function:
      `x_cumsum[w - t] + x_cumsum[w] - x_cumsum[t] - 2 * conv[t]`. */
  function TransformDifference(x: seq<real>, n: nat, t: nat): real
    requires 0 < n && t <= |x| && |x| <= n
  {
    SquareSum(x, |x| - t) + SquareSum(x, |x|) - SquareSum(x, t) - 2.0 * CircularAutocorrelation(x, n, t)
  }

  /** With a transform of length at least `|x| + t`, the cumulative-sum
      identity yields exactly the direct difference at lag `t`, which is a sum
      of squares and so non-negative, and vanishes at lag 0. */
  lemma TransformDifferenceIsDirect(x: seq<real>, n: nat, t: nat)
    requires 0 < n && t <= |x| && |x| + t <= n
    ensures TransformDifference(x, n, t) == DirectDifference(x, t)
    ensures DirectDifference(x, t) >= 0.0
    ensures t == 0 ==> DirectDifference(x, t) == 0.0
  {
    CircularIsLinear(x, n, t);
    ExpandedSquares(x, t, |x| - t);
    LagSquaresNonNegative(x, t, |x| - t);
    if t == 0 {
      LagSquaresAtZero(x, |x|);
    }
  }

  /** `differenceFunction(audio, w, t_max)`. The `w` argument of the Python
      function is overwritten by the frame's own length, so it is not a parameter here.
      The lag range is clamped to `min(t_max, w)` and the transform length is
      `size_pad` for `size = w + min(t_max, w)`. */
  function DifferenceFunction(x: seq<real>, tMax: nat): (df: seq<real>)
    ensures |df| == if tMax < |x| then tMax else |x|
    ensures forall t :: 0 <= t < |df| ==> df[t] == DirectDifference(x, t)
    ensures forall t :: 0 <= t < |df| ==> df[t] >= 0.0
    ensures |df| > 0 ==> df[0] == 0.0
  {
    var w := |x|;
    var tm := if tMax < w then tMax else w;
    var n := PadSize(w + tm);
    var df := seq(tm, t requires 0 <= t < tm => TransformDifference(x, n, t));
    assert forall t :: 0 <= t < tm ==> df[t] == DirectDifference(x, t) && df[t] >= 0.0 by {
      forall t | 0 <= t < tm
        ensures df[t] == DirectDifference(x, t) && df[t] >= 0.0
      {
        TransformDifferenceIsDirect(x, n, t);
      }
    }
    if tm > 0 then TransformDifferenceIsDirect(x, n, 0); df else df
  }

  /** A frame that repeats after `period` samples has a zero difference at
      that lag: equation 6 detects the period exactly. */
  lemma PeriodicDifferenceVanishes(x: seq<real>, period: nat)
    requires period < |x|
    requires Periodic(x, period)
    ensures DifferenceFunction(x, |x|)[period] == 0.0
  {
    PeriodicLagSquaresVanish(x, period, |x| - period);
  }
}
