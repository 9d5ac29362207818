/**
  `avg_pitch`: the per-frame pitches of a recording are grouped into runs of
  voiced (strictly positive) and unvoiced entries, the longest voiced run is
  kept (the first one when several are equally long, as Python's `max`
  returns the first maximal element) and its mean is the reported pitch. A
  list without any voiced entry makes `max` fail on an empty list.
 */
module VoicedAverager {
  import opened Results
  import opened RealSeqs

  /** The grouping key of `avg_pitch`. */
  predicate Voiced(x: real)
  {
    x > 0.0
  }

  /** The half-open index range [start, stop) of the input. */
  datatype Run = Run(start: nat, stop: nat)

  function Width(run: Run): int
  {
    run.stop - run.start
  }

  datatype AvgPitchError = NoVoicedSegment

  /** `run` is a group that `groupby` yields with key `True`: a non-empty
      range of voiced entries that cannot be extended on either side. */
  predicate IsVoicedRun(s: seq<real>, run: Run)
  {
    run.start < run.stop <= |s| &&
    (forall k :: run.start <= k < run.stop ==> Voiced(s[k])) &&
    (run.start == 0 || !Voiced(s[run.start - 1])) &&
    (run.stop == |s| || !Voiced(s[run.stop]))
  }

  /** Every run is non-empty and ends before the next one starts. */
  predicate InOrder(runs: seq<Run>)
  {
    (forall i :: 0 <= i < |runs| ==> runs[i].start < runs[i].stop) &&
    (forall i, l :: 0 <= i < l < |runs| ==> runs[i].stop < runs[l].start)
  }

  /** The end of the voiced stretch that begins at `a`. */
  function RunEnd(s: seq<real>, a: nat): (e: nat)
    requires a <= |s|
    ensures a <= e <= |s|
    ensures forall k :: a <= k < e ==> Voiced(s[k])
    ensures e == |s| || !Voiced(s[e])
    decreases |s| - a
  {
    if a < |s| && Voiced(s[a]) then RunEnd(s, a + 1) else a
  }

  /** The voiced groups of `groupby(s[i:], key=lambda x: x > 0.0)`, in order,
      for a position `i` that does not split a voiced stretch. */
  function VoicedRuns(s: seq<real>, i: nat): (runs: seq<Run>)
    requires i <= |s|
    requires i == 0 || !Voiced(s[i - 1])
    ensures forall k :: 0 <= k < |runs| ==> IsVoicedRun(s, runs[k]) && i <= runs[k].start
    ensures InOrder(runs)
    decreases |s| - i
  {
    if i == |s| then []
    else if !Voiced(s[i]) then VoicedRuns(s, i + 1)
    else
      var e := RunEnd(s, i);
      if e == |s| then [Run(i, e)] else [Run(i, e)] + VoicedRuns(s, e + 1)
  }

  /** Two maximal voiced runs that start together end together. */
  lemma RunStopIsDetermined(s: seq<real>, r1: Run, r2: Run)
    requires IsVoicedRun(s, r1) && IsVoicedRun(s, r2)
    requires r1.start == r2.start
    ensures r1 == r2
  {
  }

  /** Every maximal voiced run from position `i` on is one of the groups. */
  lemma {:induction false} VoicedRunsComplete(s: seq<real>, i: nat, run: Run)
    requires i <= |s|
    requires i == 0 || !Voiced(s[i - 1])
    requires IsVoicedRun(s, run) && i <= run.start
    ensures run in VoicedRuns(s, i)
    decreases |s| - i
  {
    assert Voiced(s[run.start]);
    if !Voiced(s[i]) {
      assert VoicedRuns(s, i) == VoicedRuns(s, i + 1);
      VoicedRunsComplete(s, i + 1, run);
    } else {
      var e := RunEnd(s, i);
      if run.start == i {
        RunStopIsDetermined(s, run, Run(i, e));
        assert VoicedRuns(s, i)[0] == Run(i, e);
      } else {
        assert e < run.start by {
          assert !Voiced(s[run.start - 1]);
        }
        assert VoicedRuns(s, i) == [Run(i, e)] + VoicedRuns(s, e + 1);
        VoicedRunsComplete(s, e + 1, run);
      }
    }
  }

  /** Every voiced entry lies inside some maximal voiced run. */
  lemma VoicedEntryInRun(s: seq<real>, j: nat, a: nat)
    requires a <= j < |s|
    requires forall k :: a <= k <= j ==> Voiced(s[k])
    ensures IsVoicedRun(s, Run(RunStart(s, a), RunEnd(s, j)))
  {
    var b := RunStart(s, a);
    assert forall k :: b <= k < a ==> Voiced(s[k]);
  }

  /** The first index of the voiced stretch that ends just after `a`. */
  function RunStart(s: seq<real>, a: nat): (b: nat)
    requires a < |s|
    ensures b <= a
    ensures forall k :: b <= k < a ==> Voiced(s[k])
    ensures b == 0 || !Voiced(s[b - 1])
  {
    if a > 0 && Voiced(s[a - 1]) then RunStart(s, a - 1) else a
  }

  /** `max(runs, key=len)`: the index of the first run of maximum width. */
  function Longest(runs: seq<Run>): (k: nat)
    requires |runs| > 0
    ensures k < |runs|
    ensures forall j :: 0 <= j < |runs| ==> Width(runs[j]) <= Width(runs[k])
    ensures forall j :: 0 <= j < k ==> Width(runs[j]) < Width(runs[k])
  {
    if |runs| == 1 then 0
    else
      var k := Longest(runs[..|runs| - 1]);
      assert forall j :: 0 <= j < |runs| - 1 ==> runs[..|runs| - 1][j] == runs[j];
      if Width(runs[|runs| - 1]) > Width(runs[k]) then |runs| - 1 else k
  }

  /** There is no voiced group exactly when no entry is voiced. */
  lemma NoRunsMeansUnvoiced(s: seq<real>)
    ensures |VoicedRuns(s, 0)| == 0 <==> forall i :: 0 <= i < |s| ==> !Voiced(s[i])
  {
    var runs := VoicedRuns(s, 0);
    if |runs| == 0 {
      forall i | 0 <= i < |s| && Voiced(s[i])
        ensures false
      {
        VoicedEntryInRun(s, i, i);
        VoicedRunsComplete(s, 0, Run(RunStart(s, i), RunEnd(s, i)));
      }
    } else {
      assert Voiced(s[runs[0].start]);
    }
  }

  /** In a list of runs ordered left to right, an earlier start means an
      earlier position in the list. */
  lemma EarlierStartEarlierGroup(runs: seq<Run>, j: nat, k: nat)
    requires InOrder(runs)
    requires j < |runs| && k < |runs|
    requires runs[j].start < runs[k].start
    ensures j < k
  {
  }

  /** No maximal voiced run is longer than the group `max` picks. */
  lemma PickedGroupIsLongest(s: seq<real>, k: nat)
    requires |VoicedRuns(s, 0)| > 0
    requires k == Longest(VoicedRuns(s, 0))
    ensures forall run :: IsVoicedRun(s, run) ==> Width(run) <= Width(VoicedRuns(s, 0)[k])
  {
    forall run | IsVoicedRun(s, run)
      ensures Width(run) <= Width(VoicedRuns(s, 0)[k])
    {
      VoicedRunsComplete(s, 0, run);
    }
  }

  /** A maximal voiced run before the group `max` picks is strictly
      shorter than it. */
  lemma EarlierRunIsShorter(s: seq<real>, k: nat, run: Run)
    requires |VoicedRuns(s, 0)| > 0
    requires k == Longest(VoicedRuns(s, 0))
    requires IsVoicedRun(s, run) && run.start < VoicedRuns(s, 0)[k].start
    ensures Width(run) < Width(VoicedRuns(s, 0)[k])
  {
    var runs := VoicedRuns(s, 0);
    var j := GroupIndex(s, run);
    EarlierStartEarlierGroup(runs, j, k);
  }

  /** The position of a maximal voiced run among the groups. */
  lemma GroupIndex(s: seq<real>, run: Run) returns (j: nat)
    requires IsVoicedRun(s, run)
    ensures j < |VoicedRuns(s, 0)| && VoicedRuns(s, 0)[j] == run
  {
    VoicedRunsComplete(s, 0, run);
    j :| 0 <= j < |VoicedRuns(s, 0)| && VoicedRuns(s, 0)[j] == run;
  }

  /** The run `avg_pitch` averages: among all maximal voiced runs, a longest
      one, and among those the earliest. None when no entry is voiced. */
  function LongestVoicedRun(s: seq<real>): (r: Option<Run>)
    ensures r.None? <==> forall i :: 0 <= i < |s| ==> !Voiced(s[i])
    ensures r.Some? ==> IsVoicedRun(s, r.value)
    ensures r.Some? ==> forall run :: IsVoicedRun(s, run) ==> Width(run) <= Width(r.value)
    ensures r.Some? ==> forall run :: IsVoicedRun(s, run) && run.start < r.value.start ==>
      Width(run) < Width(r.value)
  {
    var runs := VoicedRuns(s, 0);
    if |runs| == 0 then
      NoRunsMeansUnvoiced(s);
      None
    else
      var k := Longest(runs);
      PickedGroupIsLongest(s, k);
      assert forall run :: IsVoicedRun(s, run) && run.start < runs[k].start ==>
          Width(run) < Width(runs[k]) by {
        forall run | IsVoicedRun(s, run) && run.start < runs[k].start
          ensures Width(run) < Width(runs[k])
        {
          EarlierRunIsShorter(s, k, run);
        }
      }
      assert Voiced(s[runs[k].start]);
      Some(runs[k])
  }

  /** The choice is unique: a run is the one `avg_pitch` averages exactly
      when it is a maximal voiced run, no maximal voiced run is longer, and
      every earlier one is shorter. */
  lemma LongestVoicedRunCharacterized(s: seq<real>, run: Run)
    ensures LongestVoicedRun(s) == Some(run) <==>
      IsVoicedRun(s, run) &&
      (forall other :: IsVoicedRun(s, other) ==> Width(other) <= Width(run)) &&
      (forall other :: IsVoicedRun(s, other) && other.start < run.start ==> Width(other) < Width(run))
  {
    var r := LongestVoicedRun(s);
    if IsVoicedRun(s, run) &&
      (forall other :: IsVoicedRun(s, other) ==> Width(other) <= Width(run)) &&
      (forall other :: IsVoicedRun(s, other) && other.start < run.start ==> Width(other) < Width(run))
    {
      assert r.Some? by {
        assert Voiced(s[run.start]);
      }
      var chosen := r.value;
      if chosen.start == run.start {
        RunStopIsDetermined(s, run, chosen);
      }
    }
  }

  /** The mean of a voiced run lies between the run's smallest and largest
      entries, and so is strictly positive. */
  lemma RunMeanBounds(s: seq<real>, run: Run)
    requires IsVoicedRun(s, run)
    ensures Min(s[run.start..run.stop]) <= Mean(s[run.start..run.stop]) <= Max(s[run.start..run.stop])
    ensures Mean(s[run.start..run.stop]) > 0.0
  {
    var part := s[run.start..run.stop];
    forall i | 0 <= i < |part|
      ensures Voiced(part[i])
    {
      assert part[i] == s[run.start + i];
    }
    assert Within(part, Min(part), Max(part));
    assert Voiced(part[0]);
  }

  /** `avg_pitch(input_list)`: the mean of the longest voiced run, the
      earliest one on a tie; a failure when no entry is voiced. */
  function AvgPitch(s: seq<real>): (r: Result<real, AvgPitchError>)
    ensures r.Failure? <==> forall i :: 0 <= i < |s| ==> !Voiced(s[i])
    ensures r.Success? ==> LongestVoicedRun(s).Some?
    ensures r.Success? ==> r.value == Mean(s[LongestVoicedRun(s).value.start..LongestVoicedRun(s).value.stop])
    ensures r.Success? ==> r.value > 0.0
    ensures r.Success? ==> Min(s[LongestVoicedRun(s).value.start..LongestVoicedRun(s).value.stop]) <= r.value
    ensures r.Success? ==> r.value <= Max(s[LongestVoicedRun(s).value.start..LongestVoicedRun(s).value.stop])
  {
    match LongestVoicedRun(s)
    case None => Failure(NoVoicedSegment)
    case Some(run) =>
      RunMeanBounds(s, run);
      Success(Mean(s[run.start..run.stop]))
  }

  /** A recording with a three-frame voice around 110 Hz and a later
      two-frame one around 220 Hz. */
  const ExampleRecording: seq<real> := [0.0, 0.0, 110.0, 112.0, 108.0, 0.0, 0.0, 0.0, 220.0, 225.0, 0.0]

  lemma ExampleGroups()
    ensures VoicedRuns(ExampleRecording, 0) == [Run(2, 5), Run(8, 10)]
  {
    var s := ExampleRecording;
    assert RunEnd(s, 10) == 10;
    assert RunEnd(s, 9) == 10;
    assert RunEnd(s, 8) == 10;
    assert VoicedRuns(s, 11) == [];
    assert VoicedRuns(s, 8) == [Run(8, 10)];
    assert VoicedRuns(s, 7) == [Run(8, 10)];
    assert VoicedRuns(s, 6) == [Run(8, 10)];
    assert RunEnd(s, 5) == 5;
    assert RunEnd(s, 4) == 5;
    assert RunEnd(s, 3) == 5;
    assert RunEnd(s, 2) == 5;
    assert VoicedRuns(s, 2) == [Run(2, 5), Run(8, 10)];
    assert VoicedRuns(s, 1) == [Run(2, 5), Run(8, 10)];
  }

  lemma ExampleMean()
    ensures Mean([110.0, 112.0, 108.0]) == 110.0
  {
    var part := [110.0, 112.0, 108.0];
    assert Sum([110.0]) == 110.0 by {
      assert [110.0][..0] == [];
    }
    assert Sum([110.0, 112.0]) == 222.0 by {
      assert [110.0, 112.0][..1] == [110.0];
    }
    assert Sum(part) == 330.0 by {
      assert part[..2] == [110.0, 112.0];
    }
    assert Mean(part) * 3.0 == 330.0;
  }

  lemma ExampleLongest()
    ensures LongestVoicedRun(ExampleRecording) == Some(Run(2, 5))
  {
    ExampleGroups();
    assert Longest([Run(2, 5), Run(8, 10)]) == 0 by {
      assert [Run(2, 5), Run(8, 10)][..1] == [Run(2, 5)];
    }
  }

  /** The example recording averages to its longer, earlier voice. */
  lemma AvgPitchExample()
    ensures AvgPitch(ExampleRecording) == Success(110.0)
  {
    ExampleSlice();
    ExampleMean();
    ExampleLongest();
    AverageOfLongest(ExampleRecording, Run(2, 5), 110.0);
  }

  lemma ExampleSlice()
    ensures ExampleRecording[2..5] == [110.0, 112.0, 108.0]
  {
  }

  lemma AverageOfLongest(s: seq<real>, run: Run, m: real)
    requires LongestVoicedRun(s) == Some(run)
    requires run.start <= run.stop <= |s| && Mean(s[run.start..run.stop]) == m
    ensures AvgPitch(s) == Success(m)
  {
  }


}
