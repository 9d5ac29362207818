/**
  `notes()`: the tuner's reference table of 37 equal-tempered notes from E2
  to E5, each a label and a frequency in Hz rounded to two decimals. The
  frequencies, in table order, are the `quant` argument of `quantize`.
 */
module NoteTable {
  import opened RealSeqs
  import NoteQuantizer

  /** A label such as "F#2/Gb2" and its frequency in Hz. */
  datatype Note = Note(name: string, frequency: real)

  /** The frequencies of a list of notes, in order: the list of values of
      the dictionary built from `notes()`, which the tuner hands to
      `quantize`. */
  function FrequenciesOf(notes: seq<Note>): seq<real>
  {
    seq(|notes|, i requires 0 <= i < |notes| => notes[i].frequency)
  }

  /** The frequency column of `notes()`, in Hz. Entry 29 is the concert
      pitch A4 = 440 Hz. */
  function NoteFrequencies(): (f: seq<real>)
    ensures |f| == 37
    ensures f[0] == 82.41 && f[29] == 440.0 && f[36] == 659.25
  {
    [ 82.41, 87.31, 92.5, 98.0, 103.83, 110.0, 116.54, 123.47,
      130.81, 138.59, 146.83, 155.56, 164.81, 174.61, 185.0, 196.0,
      207.65, 220.0, 233.08, 246.94, 261.63, 277.18, 293.66, 311.13,
      329.63, 349.23, 369.99, 392.0, 415.3, 440.0, 466.16, 493.88,
      523.25, 554.37, 587.33, 622.25, 659.25 ]
  }

  /** The label column of `notes()`: sharps and flats share one label. */
  function NoteNames(): (n: seq<string>)
    ensures |n| == 37
    ensures n[0] == "E2" && n[29] == "A4" && n[36] == "E5"
  {
    [ "E2", "F2", "F#2/Gb2", "G2", "G#2/Ab2", "A2", "A#2/Bb2", "B2",
      "C3", "C#3/Db3", "D3", "D#3/Eb3", "E3", "F3", "F#3/Gb3", "G3",
      "G#3/Ab3", "A3", "A#3/Bb3", "B3", "C4", "C#4/Db4", "D4", "D#4/Eb4",
      "E4", "F4", "F#4/Gb4", "G4", "G#4/Ab4", "A4", "A#4/Bb4", "B4",
      "C5", "C#5/Db5", "D5", "D#5/Eb5", "E5" ]
  }

  /** `notes()`: the labels paired with their frequencies, the string
      frequencies converted to numbers. */
  function Notes(): (r: seq<Note>)
    ensures |r| == 37
    ensures FrequenciesOf(r) == NoteFrequencies()
    ensures forall i :: 0 <= i < 37 ==> r[i].name == NoteNames()[i]
    ensures r[29] == Note("A4", 440.0)
  {
    var r := seq(37, i requires 0 <= i < 37 => Note(NoteNames()[i], NoteFrequencies()[i]));
    assert r[29] == Note(NoteNames()[29], NoteFrequencies()[29]);
    r
  }

  /** Twelve semitones up is an octave: every note's frequency is twice the
      one twelve entries below, up to the two-decimal rounding of the table.
      The table is passed as `f`, and the range split, so that each
      quantifier reads entries by index instead of unfolding the literal. */
  lemma OctavesDouble(f: seq<real>)
    requires f == NoteFrequencies()
    ensures forall i :: 0 <= i < 12 ==> -0.01 <= f[i + 12] - 2.0 * f[i] <= 0.01
    ensures forall i :: 12 <= i < 25 ==> -0.01 <= f[i + 12] - 2.0 * f[i] <= 0.01
  {
  }

  /** Each frequency is below the next one; `f` and the split ranges serve
      as in `OctavesDouble`. */
  lemma NeighboursIncrease(f: seq<real>)
    requires f == NoteFrequencies()
    ensures forall i :: 0 <= i < 12 ==> f[i] < f[i + 1]
    ensures forall i :: 12 <= i < 24 ==> f[i] < f[i + 1]
    ensures forall i :: 24 <= i < 36 ==> f[i] < f[i + 1]
  {
  }

  /** The table's frequencies strictly increase, the fact `quantize` needs
      to pick the nearest note. */
  lemma NotesIncreasing()
    ensures StrictlyIncreasing(NoteFrequencies())
  {
    var f := NoteFrequencies();
    NeighboursIncrease(f);
    StepsIncreasing(f);
  }

  /** Quantising a frequency against the table yields the frequency of a
      note nearest to it, the higher of two equally near notes. */
  lemma NearestNote(freq: real)
    ensures var q := NoteQuantizer.Quantize(freq, NoteFrequencies());
      (exists k :: 0 <= k < 37 && NoteFrequencies()[k] == q) &&
      (forall k :: 0 <= k < 37 ==>
        NoteQuantizer.Distance(freq, q) <= NoteQuantizer.Distance(freq, NoteFrequencies()[k])) &&
      (forall k :: 0 <= k < 37 && NoteQuantizer.Distance(freq, NoteFrequencies()[k]) == NoteQuantizer.Distance(freq, q) ==>
        NoteFrequencies()[k] <= q)
  {
    var f := NoteFrequencies();
    NotesIncreasing();
    var k := NoteQuantizer.QuantizeIndex(freq, f);
    NoteQuantizer.QuantizeReadsIndex(freq, f);
    assert f[k] == NoteQuantizer.Quantize(freq, f);
  }

  /** After quantising, the tuner looks the label up in the inverted
      dictionary `{frequency: name}`. The lookup always succeeds, since the
      result is the frequency of some note, and it names exactly that note,
      since no two notes share a frequency. The dictionary `dict(notes())`
      keeps all 37 pairs in order, its values being `FrequenciesOf(Notes())`,
      because no two notes share a label. */
  lemma LabelLookupSucceeds(freq: real)
    ensures var q := NoteQuantizer.Quantize(freq, FrequenciesOf(Notes()));
      exists k :: 0 <= k < 37 && Notes()[k].frequency == q
    ensures forall j, k :: 0 <= j < k < 37 ==> Notes()[j].name != Notes()[k].name
    ensures forall j, k :: 0 <= j < k < 37 ==> Notes()[j].frequency != Notes()[k].frequency
  {
    var r := Notes();
    var n := NoteNames();
    LabelsDistinct(n);
    forall j, k | 0 <= j < k < 37
      ensures r[j].name != r[k].name
    {
      assert r[j].name == n[j] && r[k].name == n[k];
    }
    var f := NoteFrequencies();
    assert FrequenciesOf(r) == f;
    NearestNote(freq);
    var q := NoteQuantizer.Quantize(freq, f);
    var k :| 0 <= k < 37 && f[k] == q;
    assert r[k].frequency == f[k];
    NotesIncreasing();
    forall j, k | 0 <= j < k < 37
      ensures r[j].frequency != r[k].frequency
    {
      assert r[j].frequency == f[j] && r[k].frequency == f[k];
      assert f[j] < f[k];
    }
  }

  /** No two of the 37 labels are equal. The labels are passed as `n` for
      the same reason as the table in `OctavesDouble`. */
  lemma LabelsDistinct(n: seq<string>)
    requires n == NoteNames()
    ensures forall j, k :: 0 <= j < k < 37 ==> n[j] != n[k]
  {
  }
}
