/**
  `quantize(num, quant)`: snap a measured frequency to an entry of a table.
  The table's neighbouring midpoints are computed, `bisect_right` counts how
  many of them lie at or below `num`, and that count indexes the table. On a
  strictly increasing table this picks the nearest entry, the higher one when
  `num` sits exactly on a midpoint.
 */
module NoteQuantizer {
  import opened RealSeqs

  /** `[(quant[i] + quant[i + 1]) / 2.0 for i in range(len(quant) - 1)]`.
      Between two increasing neighbours their midpoint lies strictly inside. */
  function Midpoints(q: seq<real>): (m: seq<real>)
    ensures |m| == if |q| == 0 then 0 else |q| - 1
    ensures forall i {:trigger m[i]} :: 0 <= i < |m| ==> m[i] + m[i] == q[i] + q[i + 1]
    ensures StrictlyIncreasing(q) ==> forall i {:trigger m[i]} :: 0 <= i < |m| ==> q[i] < m[i] < q[i + 1]
  {
    if |q| == 0 then [] else seq(|q| - 1, i requires 0 <= i < |q| - 1 => (q[i] + q[i + 1]) / 2.0)
  }

  /** On a strictly increasing table the midpoints increase strictly too. */
  lemma MidpointsIncreasing(q: seq<real>)
    requires StrictlyIncreasing(q)
    ensures StrictlyIncreasing(Midpoints(q))
  {
    var m := Midpoints(q);
    forall i, j | 0 <= i < j < |m|
      ensures m[i] < m[j]
    {
      assert q[i] < q[j] && q[i + 1] <= q[j + 1];
    }
  }

  /** `k` splits `a` around `x`: the entries before `k` are at most `x` and
      the entries from `k` on exceed it. This is the insertion point
      `bisect_right` promises for a sorted list. */
  predicate SplitsAt(a: seq<real>, x: real, k: nat)
  {
    k <= |a| &&
    (forall i :: 0 <= i < k ==> a[i] <= x) &&
    (forall i :: k <= i < |a| ==> x < a[i])
  }

  /** The number of entries at most `x`, an independent reference for the
      split point. */
  function CountAtMost(a: seq<real>, x: real): (n: nat)
    ensures n <= |a|
  {
    if |a| == 0 then 0
    else CountAtMost(a[..|a| - 1], x) + (if a[|a| - 1] <= x then 1 else 0)
  }

  /** A split point is unique, whether or not `a` is sorted. */
  lemma SplitIsUnique(a: seq<real>, x: real, k1: nat, k2: nat)
    requires SplitsAt(a, x, k1) && SplitsAt(a, x, k2)
    ensures k1 == k2
  {
    var i := if k1 < k2 then k1 else k2;
    if i < |a| {
      // the entry at the smaller split point is on both sides of `x`
      var below := a[i] <= x;
    }
  }

  /** A split point counts the entries at most `x`. */
  lemma {:induction false} SplitCountsEntries(a: seq<real>, x: real, k: nat)
    requires SplitsAt(a, x, k)
    ensures k == CountAtMost(a, x)
    decreases |a|
  {
    if |a| > 0 {
      var init := a[..|a| - 1];
      if k == |a| {
        assert SplitsAt(init, x, k - 1);
        SplitCountsEntries(init, x, k - 1);
      } else {
        assert SplitsAt(init, x, k);
        SplitCountsEntries(init, x, k);
      }
    }
  }

  /** The binary search of `bisect_right` on the window [lo, hi): halve the
      window, keeping the left half when `x` is below the middle entry. */
  function Bisect(a: seq<real>, x: real, lo: nat, hi: nat): (k: nat)
    requires lo <= hi <= |a|
    ensures lo <= k <= hi
    ensures NonDecreasing(a) && (forall i :: 0 <= i < lo ==> a[i] <= x) &&
            (forall i :: hi <= i < |a| ==> x < a[i]) ==>
              SplitsAt(a, x, k)
    decreases hi - lo
  {
    if lo < hi then
      var mid := (lo + hi) / 2;
      if x < a[mid] then Bisect(a, x, lo, mid) else Bisect(a, x, mid + 1, hi)
    else lo
  }

  /** `bisect.bisect_right(a, x)`. On a sorted list the result is the split
      point, the number of entries at most `x`. */
  function BisectRight(a: seq<real>, x: real): (k: nat)
    ensures k <= |a|
    ensures NonDecreasing(a) ==> SplitsAt(a, x, k) && k == CountAtMost(a, x)
  {
    var k := Bisect(a, x, 0, |a|);
    if NonDecreasing(a) then
      SplitCountsEntries(a, x, k);
      k
    else k
  }

  /** On a sorted list, `bisect_right` returns exactly the split point. */
  lemma BisectRightCharacterized(a: seq<real>, x: real, k: nat)
    requires NonDecreasing(a)
    ensures k == BisectRight(a, x) <==> SplitsAt(a, x, k)
  {
    if SplitsAt(a, x, k) {
      SplitIsUnique(a, x, k, BisectRight(a, x));
    }
  }

  /** `bisect_right` written as the library's loop. */
  method BisectRightLoop(a: seq<real>, x: real) returns (k: nat)
    ensures k == BisectRight(a, x)
  {
    var lo, hi := 0, |a|;
    while lo < hi
      invariant lo <= hi <= |a|
      invariant Bisect(a, x, lo, hi) == Bisect(a, x, 0, |a|)
      decreases hi - lo
    {
      var mid := (lo + hi) / 2;
      if x < a[mid] {
        hi := mid;
      } else {
        lo := mid + 1;
      }
    }
    k := lo;
  }

  /** The distance between two reals. */
  function Distance(a: real, b: real): real
  {
    if a >= b then a - b else b - a
  }

  /** The table index `quantize` reads: the number of midpoints at most
      `num`. A single-entry table has no midpoints and index 0. */
  function QuantizeIndex(num: real, quant: seq<real>): (k: nat)
    requires |quant| >= 1
    ensures k < |quant|
    ensures NonDecreasing(Midpoints(quant)) ==> SplitsAt(Midpoints(quant), num, k)
  {
    BisectRight(Midpoints(quant), num)
  }

  /** On a strictly increasing table, the entry at the index is no farther
      from `num` than any entry before it. */
  lemma NearerThanEarlier(num: real, quant: seq<real>, k: nat, j: nat)
    requires StrictlyIncreasing(quant)
    requires SplitsAt(Midpoints(quant), num, k)
    requires j < k < |quant|
    ensures Distance(num, quant[k]) < Distance(num, quant[j]) ||
      (Distance(num, quant[k]) == Distance(num, quant[j]) && quant[j] < quant[k])
  {
    var m := Midpoints(quant);
    assert m[k - 1] <= num;
    assert m[k - 1] + m[k - 1] == quant[k - 1] + quant[k];
    assert quant[j] <= quant[k - 1] < quant[k];
  }

  /** On a strictly increasing table, the entry at the index is strictly
      nearer to `num` than any entry after it. */
  lemma NearerThanLater(num: real, quant: seq<real>, k: nat, j: nat)
    requires StrictlyIncreasing(quant)
    requires SplitsAt(Midpoints(quant), num, k)
    requires k < j < |quant|
    ensures Distance(num, quant[k]) < Distance(num, quant[j])
  {
    var m := Midpoints(quant);
    assert num < m[k];
    assert m[k] + m[k] == quant[k] + quant[k + 1];
    assert quant[k] < quant[k + 1] <= quant[j];
  }

  /** `quantize(num, quant)`. An empty table makes `tunertools.quantize`
      index past the end, so it is excluded. On a strictly increasing table the result
      is an entry nearest to `num`, and among equally near entries the
      larger one. */
  function Quantize(num: real, quant: seq<real>): (r: real)
    requires |quant| >= 1
    ensures exists k :: 0 <= k < |quant| && quant[k] == r
    ensures StrictlyIncreasing(quant) ==>
      forall j :: 0 <= j < |quant| ==> Distance(num, r) <= Distance(num, quant[j])
    ensures StrictlyIncreasing(quant) ==>
      forall j :: 0 <= j < |quant| && Distance(num, quant[j]) == Distance(num, r) ==> quant[j] <= r
  {
    var k := QuantizeIndex(num, quant);
    if StrictlyIncreasing(quant) then
      IndexIsNearest(num, quant);
      quant[k]
    else quant[k]
  }

  /** On a strictly increasing table the entry at the index is no farther
      from `num` than any other entry, and at least as large as any entry
      equally near. */
  lemma IndexIsNearest(num: real, quant: seq<real>)
    requires StrictlyIncreasing(quant)
    requires |quant| >= 1
    ensures var k := QuantizeIndex(num, quant);
      forall j :: 0 <= j < |quant| ==>
        Distance(num, quant[k]) <= Distance(num, quant[j]) &&
        (Distance(num, quant[j]) == Distance(num, quant[k]) ==> quant[j] <= quant[k])
  {
    var k := QuantizeIndex(num, quant);
    MidpointsIncreasing(quant);
    forall j | 0 <= j < |quant|
      ensures Distance(num, quant[k]) <= Distance(num, quant[j])
      ensures Distance(num, quant[j]) == Distance(num, quant[k]) ==> quant[j] <= quant[k]
    {
      if j < k {
        NearerThanEarlier(num, quant, k, j);
      } else if k < j {
        NearerThanLater(num, quant, k, j);
      }
    }
  }

  /** The index of `Quantize` is the index read by `quantize`. */
  lemma QuantizeReadsIndex(num: real, quant: seq<real>)
    requires |quant| >= 1
    ensures Quantize(num, quant) == quant[QuantizeIndex(num, quant)]
  {
  }

  /** A value exactly on the midpoint between two neighbours of a strictly
      increasing table goes to the higher one. */
  lemma TieGoesUp(quant: seq<real>, i: nat)
    requires StrictlyIncreasing(quant)
    requires i + 1 < |quant|
    ensures Quantize(Midpoints(quant)[i], quant) == quant[i + 1]
  {
    var m := Midpoints(quant);
    MidpointsIncreasing(quant);
    var k := QuantizeIndex(m[i], quant);
    assert SplitsAt(m, m[i], i + 1);
    SplitIsUnique(m, m[i], k, i + 1);
  }

  /** Below the first midpoint the result is the first entry; at or above
      the last midpoint it is the last entry. */
  lemma QuantizeSaturates(num: real, quant: seq<real>)
    requires StrictlyIncreasing(quant)
    requires |quant| >= 1
    ensures |quant| == 1 ==> Quantize(num, quant) == quant[0]
    ensures |quant| >= 2 && num < Midpoints(quant)[0] ==> Quantize(num, quant) == quant[0]
    ensures |quant| >= 2 && num >= Midpoints(quant)[|quant| - 2] ==>
      Quantize(num, quant) == quant[|quant| - 1]
  {
    var m := Midpoints(quant);
    MidpointsIncreasing(quant);
    var k := QuantizeIndex(num, quant);
    if |quant| >= 2 && num < m[0] {
      assert SplitsAt(m, num, 0);
      SplitIsUnique(m, num, k, 0);
    }
    if |quant| >= 2 && num >= m[|quant| - 2] {
      assert SplitsAt(m, num, |m|);
      SplitIsUnique(m, num, k, |m|);
    }
  }

  /** Every entry of a strictly increasing table is its own quantisation. */
  lemma QuantizeIdempotent(quant: seq<real>, i: nat)
    requires StrictlyIncreasing(quant)
    requires i < |quant|
    ensures Quantize(quant[i], quant) == quant[i]
  {
    var m := Midpoints(quant);
    MidpointsIncreasing(quant);
    var k := QuantizeIndex(quant[i], quant);
    forall l | 0 <= l < i
      ensures m[l] <= quant[i]
    {
      assert m[l] < quant[l + 1] <= quant[i];
    }
    forall l | i <= l < |m|
      ensures quant[i] < m[l]
    {
      assert quant[i] <= quant[l] < m[l];
    }
    assert SplitsAt(m, quant[i], i);
    SplitIsUnique(m, quant[i], k, i);
  }

  /** Quantisation onto a strictly increasing table is monotone. */
  lemma QuantizeMonotone(x: real, y: real, quant: seq<real>)
    requires StrictlyIncreasing(quant)
    requires |quant| >= 1
    requires x <= y
    ensures Quantize(x, quant) <= Quantize(y, quant)
  {
    MidpointsIncreasing(quant);
  }
}
