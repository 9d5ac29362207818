/**
  The threshold period search of the YIN method (`pitch`): scan the lags
  from `t_min` upward for the first normalised value below the harmonic
  threshold, then keep stepping to the next lag while the value still
  decreases, so that the search settles in the local minimum of that dip.
  A result of 0 means "unvoiced".
 */
module PeriodSearch {

  /** The default harmonic threshold `ht`. */
  const DefaultThreshold: real := 0.1

  /** No lag in [lo, hi) has a value below the threshold. */
  predicate NoneBelow(c: seq<real>, lo: nat, hi: nat, ht: real)
    requires hi <= |c|
  {
    forall k :: lo <= k < hi ==> c[k] >= ht
  }

  /** `f` is the first lag of [tMin, tMax) whose value is below `ht`. */
  predicate IsFirstBelow(c: seq<real>, tMin: nat, tMax: nat, ht: real, f: nat)
    requires tMax <= |c|
  {
    tMin <= f < tMax && c[f] < ht && NoneBelow(c, tMin, f, ht)
  }

  /** The values strictly decrease from lag `f` to lag `t`. */
  predicate DescendsTo(c: seq<real>, f: nat, t: nat)
    requires f <= t < |c|
  {
    forall k :: f <= k < t ==> c[k + 1] < c[k]
  }

  /** The walk stops at `t`: it is the last lag of the range or the next
      value is not smaller. */
  predicate StopsAt(c: seq<real>, t: nat, tMax: nat)
    requires t < tMax <= |c|
  {
    t + 1 == tMax || c[t + 1] >= c[t]
  }

  /** The inner loop: step forward while the next lag is in range and its
      value is smaller. */
  function WalkDown(c: seq<real>, t: nat, tMax: nat): (r: nat)
    requires t < tMax <= |c|
    ensures t <= r < tMax
    ensures DescendsTo(c, t, r)
    ensures StopsAt(c, r, tMax)
    ensures c[r] <= c[t]
    decreases tMax - t
  {
    if t + 1 < tMax && c[t + 1] < c[t] then WalkDown(c, t + 1, tMax) else t
  }

  /** The outer loop from lag `t` on. */
  function Scan(c: seq<real>, t: nat, tMax: nat, ht: real): (r: nat)
    requires tMax <= |c|
    ensures NoneBelow(c, t, tMax, ht) ==> r == 0
    ensures !NoneBelow(c, t, tMax, ht) ==> t <= r < tMax && c[r] < ht && StopsAt(c, r, tMax)
    ensures forall f: nat :: IsFirstBelow(c, t, tMax, ht, f) ==>
      f <= r < tMax && DescendsTo(c, f, r) && StopsAt(c, r, tMax)
    decreases tMax - t
  {
    if t < tMax then
      if c[t] < ht then WalkDown(c, t, tMax) else Scan(c, t + 1, tMax, ht)
    else 0
  }

  /** `pitch(CMNDF, t_min, t_max, ht)`. The search reads lags below `t_max`
      only, and `tunertools.pitch` indexes `CMNDF` at every one it reaches,
      so `t_max` must not exceed the length of `CMNDF`. */
  function Pitch(c: seq<real>, tMin: nat, tMax: nat, ht: real): (p: nat)
    requires tMax <= |c|
    ensures NoneBelow(c, tMin, tMax, ht) ==> p == 0
    ensures !NoneBelow(c, tMin, tMax, ht) ==> tMin <= p < tMax && c[p] < ht && StopsAt(c, p, tMax)
    ensures forall f: nat :: IsFirstBelow(c, tMin, tMax, ht, f) ==>
      f <= p < tMax && DescendsTo(c, f, p) && StopsAt(c, p, tMax)
    ensures tMin >= 1 ==> (p == 0 <==> NoneBelow(c, tMin, tMax, ht))
  {
    Scan(c, tMin, tMax, ht)
  }

  /** When some lag is below the threshold, a first one exists. */
  lemma {:induction false} FirstBelowExists(c: seq<real>, tMin: nat, tMax: nat, ht: real) returns (f: nat)
    requires tMax <= |c|
    requires !NoneBelow(c, tMin, tMax, ht)
    ensures IsFirstBelow(c, tMin, tMax, ht, f)
    decreases tMax - tMin
  {
    if c[tMin] < ht {
      f := tMin;
    } else {
      f := FirstBelowExists(c, tMin + 1, tMax, ht);
    }
  }

  /** Two stopping points of a strict descent from the same lag coincide. */
  lemma StopIsUnique(c: seq<real>, f: nat, tMax: nat, p: nat, q: nat)
    requires f <= p < tMax && f <= q < tMax && tMax <= |c|
    requires DescendsTo(c, f, p) && StopsAt(c, p, tMax)
    requires DescendsTo(c, f, q) && StopsAt(c, q, tMax)
    ensures p == q
  {
  }

  /** The result of the search is characterised by its contract: on a voiced
      input, a lag is the result exactly when it is reached by a strict
      descent from the first lag below the threshold and the descent stops
      there. */
  lemma PitchCharacterized(c: seq<real>, tMin: nat, tMax: nat, ht: real, f: nat, p: nat)
    requires tMax <= |c|
    requires IsFirstBelow(c, tMin, tMax, ht, f)
    ensures p == Pitch(c, tMin, tMax, ht) <==>
      (f <= p < tMax && DescendsTo(c, f, p) && StopsAt(c, p, tMax))
  {
    var r := Pitch(c, tMin, tMax, ht);
    if f <= p < tMax && DescendsTo(c, f, p) && StopsAt(c, p, tMax) {
      StopIsUnique(c, f, tMax, p, r);
    }
  }

  lemma {:induction false} WalkDownReadsBelow(c1: seq<real>, c2: seq<real>, t: nat, tMax: nat)
    requires t < tMax <= |c1| && tMax <= |c2|
    requires c1[..tMax] == c2[..tMax]
    ensures WalkDown(c1, t, tMax) == WalkDown(c2, t, tMax)
    decreases tMax - t
  {
    assert c1[t] == c1[..tMax][t];
    assert c2[t] == c2[..tMax][t];
    if t + 1 < tMax {
      assert c1[t + 1] == c1[..tMax][t + 1];
      assert c2[t + 1] == c2[..tMax][t + 1];
      WalkDownReadsBelow(c1, c2, t + 1, tMax);
    }
  }

  lemma {:induction false} ScanReadsBelow(c1: seq<real>, c2: seq<real>, t: nat, tMax: nat, ht: real)
    requires tMax <= |c1| && tMax <= |c2|
    requires c1[..tMax] == c2[..tMax]
    ensures Scan(c1, t, tMax, ht) == Scan(c2, t, tMax, ht)
    decreases tMax - t
  {
    if t < tMax {
      assert c1[t] == c1[..tMax][t];
      assert c2[t] == c2[..tMax][t];
      WalkDownReadsBelow(c1, c2, t, tMax);
      ScanReadsBelow(c1, c2, t + 1, tMax, ht);
    }
  }

  /** The search depends only on the values at lags below `t_max`. */
  lemma PitchReadsBelowTMax(c1: seq<real>, c2: seq<real>, tMin: nat, tMax: nat, ht: real)
    requires tMax <= |c1| && tMax <= |c2|
    requires c1[..tMax] == c2[..tMax]
    ensures Pitch(c1, tMin, tMax, ht) == Pitch(c2, tMin, tMax, ht)
  {
    ScanReadsBelow(c1, c2, tMin, tMax, ht);
  }

  /** A strict descent cannot pass a lag whose value no lag undercuts. */
  lemma DescentStopsByMinimum(c: seq<real>, f: nat, p: nat, z: nat)
    requires f <= z < |c| && f <= p < |c|
    requires DescendsTo(c, f, p)
    requires forall k :: 0 <= k < |c| ==> c[z] <= c[k]
    ensures p <= z
  {
    if f < p {
      // the step out of `z` when the descent reaches beyond it
      var k := if z < p then z else p - 1;
      assert c[k + 1] < c[k];
    }
  }

  /** When a lag `z` of the range is below the threshold and no lag has a
      smaller value, the search is voiced and stops no later than `z`. */
  lemma PitchAtMostMinimum(c: seq<real>, tMin: nat, tMax: nat, ht: real, z: nat)
    requires tMax <= |c|
    requires 1 <= tMin <= z < tMax && c[z] < ht
    requires forall k :: 0 <= k < |c| ==> c[z] <= c[k]
    ensures tMin <= Pitch(c, tMin, tMax, ht) <= z
  {
    var f := FirstBelowExists(c, tMin, tMax, ht);
    DescentStopsByMinimum(c, f, Pitch(c, tMin, tMax, ht), z);
  }

  /** The search exactly as `tunertools.pitch` writes it, with two nested
      loops and an early return. */
  method PitchLoop(c: seq<real>, tMin: nat, tMax: nat, ht: real) returns (p: nat)
    requires tMax <= |c|
    ensures p == Pitch(c, tMin, tMax, ht)
  {
    var t := tMin;
    while t < tMax
      invariant tMin <= t
      invariant Scan(c, t, tMax, ht) == Scan(c, tMin, tMax, ht)
      decreases tMax - t
    {
      if c[t] < ht {
        ghost var first := t;
        while t + 1 < tMax && c[t + 1] < c[t]
          invariant first <= t < tMax
          invariant WalkDown(c, t, tMax) == WalkDown(c, first, tMax)
          decreases tMax - t
        {
          t := t + 1;
        }
        return t;
      }
      t := t + 1;
    }
    return 0;
  }
}
