/**
  Sums, means and minima over sequences of reals, shared by the pitch
  pipeline. `Mean` models the `mean` helper of the tuner's toolbox.
 */
module RealSeqs {

  /** Sum of all entries (Python's `sum`), peeled from the right end. */
  function Sum(s: seq<real>): real
  {
    if |s| == 0 then 0.0 else Sum(s[..|s| - 1]) + s[|s| - 1]
  }

  /** Every entry lies in the closed interval [lo, hi]. */
  predicate Within(s: seq<real>, lo: real, hi: real)
  {
    forall i :: 0 <= i < |s| ==> lo <= s[i] <= hi
  }

  /** Every entry is non-negative. */
  predicate AllNonNegative(s: seq<real>)
  {
    forall i :: 0 <= i < |s| ==> s[i] >= 0.0
  }

  /** Every entry is strictly smaller than every later one. */
  predicate StrictlyIncreasing(s: seq<real>)
  {
    forall i, j :: 0 <= i < j < |s| ==> s[i] < s[j]
  }

  /** Every entry is at most every later one. */
  predicate NonDecreasing(s: seq<real>)
  {
    forall i, j :: 0 <= i < j < |s| ==> s[i] <= s[j]
  }

  /** Neighbouring entries increase strictly, which is enough for the whole
      sequence to. */
  lemma {:induction false} StepsIncreasing(s: seq<real>)
    requires forall i :: 0 <= i < |s| - 1 ==> s[i] < s[i + 1]
    ensures StrictlyIncreasing(s)
    decreases |s|
  {
    if |s| > 1 {
      var init := s[..|s| - 1];
      assert forall i :: 0 <= i < |init| - 1 ==> init[i] < init[i + 1];
      StepsIncreasing(init);
      assert forall i :: 0 <= i < |s| - 1 ==> s[i] < s[|s| - 1] by {
        forall i | 0 <= i < |s| - 1
          ensures s[i] < s[|s| - 1]
        {
          if i < |s| - 2 {
            assert init[i] < init[|s| - 2];
          }
        }
      }
    }
  }

  /** Entries bounded below and above bound the sum by |s| times the bounds. */
  lemma {:induction false} SumWithin(s: seq<real>, lo: real, hi: real)
    requires Within(s, lo, hi)
    ensures |s| as real * lo <= Sum(s) <= |s| as real * hi
    decreases |s|
  {
    if |s| > 0 {
      var init := s[..|s| - 1];
      var n := |init| as real;
      SumWithin(init, lo, hi);
      assert Sum(s) == Sum(init) + s[|s| - 1];
      assert lo <= s[|s| - 1] <= hi;
      assert |s| as real * lo == n * lo + lo;
      assert |s| as real * hi == n * hi + hi;
    }
  }

  /** A sum of non-negative entries is non-negative. */
  lemma {:induction false} SumNonNegative(s: seq<real>)
    requires AllNonNegative(s)
    ensures Sum(s) >= 0.0
    decreases |s|
  {
    if |s| > 0 {
      SumNonNegative(s[..|s| - 1]);
    }
  }

  /** A non-negative sequence sums to at least its first entry. */
  lemma {:induction false} SumAtLeastFirst(s: seq<real>)
    requires |s| > 0 && AllNonNegative(s)
    ensures Sum(s) >= s[0]
    decreases |s|
  {
    if |s| > 1 {
      SumAtLeastFirst(s[..|s| - 1]);
    }
  }

  /** Every entry multiplied by `a`. */
  function Scale(s: seq<real>, a: real): (r: seq<real>)
    ensures |r| == |s|
    ensures forall i :: 0 <= i < |s| ==> r[i] == a * s[i]
  {
    seq(|s|, i requires 0 <= i < |s| => a * s[i])
  }

  /** Scaling commutes with taking a slice. */
  lemma ScaleSlice(s: seq<real>, a: real, lo: nat, hi: nat)
    requires lo <= hi <= |s|
    ensures Scale(s, a)[lo..hi] == Scale(s[lo..hi], a)
  {
    var left := Scale(s, a)[lo..hi];
    var right := Scale(s[lo..hi], a);
    forall i | 0 <= i < |left|
      ensures left[i] == right[i]
    {
      assert left[i] == Scale(s, a)[lo + i] == a * s[lo + i];
      assert s[lo..hi][i] == s[lo + i];
    }
  }

  lemma {:induction false} SumScale(s: seq<real>, a: real)
    ensures Sum(Scale(s, a)) == a * Sum(s)
    decreases |s|
  {
    if |s| > 0 {
      ScaleSlice(s, a, 0, |s| - 1);
      assert s[0..|s| - 1] == s[..|s| - 1];
      assert Scale(s, a)[0..|s| - 1] == Scale(s, a)[..|s| - 1];
      SumScale(s[..|s| - 1], a);
    }
  }

  /** The arithmetic mean, `sum(arr) / len(arr)`; the mean of an empty list
      raises `ZeroDivisionError` in `tunertools.mean`, so it is excluded
      here. */
  function Mean(s: seq<real>): (m: real)
    requires |s| > 0
    ensures forall lo, hi :: Within(s, lo, hi) ==> lo <= m <= hi
    ensures m * |s| as real == Sum(s)
  {
    var m := Sum(s) / |s| as real;
    assert forall lo, hi :: Within(s, lo, hi) ==> lo <= m <= hi by {
      forall lo, hi | Within(s, lo, hi)
        ensures lo <= m <= hi
      {
        SumWithin(s, lo, hi);
        DivBounds(Sum(s), |s| as real, lo, hi);
      }
    }
    m
  }

  lemma DivBounds(total: real, n: real, lo: real, hi: real)
    requires n > 0.0
    requires n * lo <= total <= n * hi
    ensures lo <= total / n <= hi
  {
  }

  /** The smallest entry (Python's `min`, numpy's `min`). */
  function Min(s: seq<real>): (m: real)
    requires |s| > 0
    ensures exists i :: 0 <= i < |s| && s[i] == m
    ensures forall i :: 0 <= i < |s| ==> m <= s[i]
  {
    if |s| == 1 then s[0]
    else
      var m' := Min(s[..|s| - 1]);
      assert forall i :: 0 <= i < |s| - 1 ==> s[..|s| - 1][i] == s[i];
      if s[|s| - 1] < m' then s[|s| - 1] else m'
  }

  /** The largest entry (Python's `max`). */
  function Max(s: seq<real>): (m: real)
    requires |s| > 0
    ensures exists i :: 0 <= i < |s| && s[i] == m
    ensures forall i :: 0 <= i < |s| ==> s[i] <= m
  {
    if |s| == 1 then s[0]
    else
      var m' := Max(s[..|s| - 1]);
      assert forall i :: 0 <= i < |s| - 1 ==> s[..|s| - 1][i] == s[i];
      if s[|s| - 1] > m' then s[|s| - 1] else m'
  }
}
