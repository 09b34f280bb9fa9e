/** Feature assembly in `extract_midi_details`, after the MIDI library has
    parsed the file. The parse itself is an input: either the parsed data or
    the message of the exception it raised. */
module Extractor {
  import opened Results

  /** Times in seconds and tempi in beats per minute, taken as exact values. */
  type Seconds = real
  type Bpm = real

  /** What the MIDI library exposes of a parsed file. */
  datatype Note = Note(pitch: int, start: Seconds, end: Seconds)
  datatype Instrument = Instrument(notes: seq<Note>)
  datatype TimeSignature = TimeSignature(time: Seconds, numerator: int, denominator: int)
  datatype KeySignature = KeySignature(keyNumber: int, time: Seconds)
  datatype MidiData = MidiData(
    instruments: seq<Instrument>,
    tempoChangeTimes: seq<Seconds>,   // first array of `get_tempo_changes()`
    tempi: seq<Bpm>,                  // second array of `get_tempo_changes()`
    timeSignatureChanges: seq<TimeSignature>,
    keySignatureChanges: seq<KeySignature>)

  /** The two record shapes the extractor returns. */
  datatype TempoPoint = TempoPoint(offset: Seconds, bpm: Bpm)
  datatype Meter = Meter(offset: Seconds, numerator: int, denominator: int)
  datatype FileFeatures = FileFeatures(
    notes: seq<string>,
    noteLengths: seq<Seconds>,
    octaves: seq<int>,
    overallKey: Option<int>,
    numNotes: nat,
    tempos: seq<TempoPoint>,
    musicalMeters: seq<Meter>)
  datatype FileResult =
    | Features(features: FileFeatures)
    | ErrorRecord(error: string, file: string)

  /** One tuple of the `zip` at process_midi_pickled.py:59. */
  datatype NoteDetail = NoteDetail(name: string, length: Seconds, octave: int, onset: Seconds)

  /** `pitch // 12 - 1`: the octave number of a MIDI pitch. */
  function Octave(pitch: int): (r: int)
    ensures 12 * (r + 1) <= pitch < 12 * (r + 2)
    ensures 0 <= pitch <= 127 ==> -1 <= r <= 9
  {
    pitch / 12 - 1
  }

  /** The notes of all instruments, track by track, each in its own order. */
  function AllNotes(instruments: seq<Instrument>): seq<Note>
  {
    if instruments == [] then []
    else AllNotes(instruments[..|instruments| - 1]) + instruments[|instruments| - 1].notes
  }

  function Detail(n: Note, noteName: int -> string): NoteDetail
  {
    NoteDetail(noteName(n.pitch), n.end - n.start, Octave(n.pitch), n.start)
  }

  /** The tuples the sort receives, in collection order. */
  function Details(notes: seq<Note>, noteName: int -> string): (r: seq<NoteDetail>)
    ensures |r| == |notes|
  {
    seq(|notes|, k requires 0 <= k < |notes| => Detail(notes[k], noteName))
  }

  predicate SortedByOnset(s: seq<NoteDetail>)
  {
    forall i :: 0 < i < |s| ==> s[i - 1].onset <= s[i].onset
  }

  /** Places `x` before the first element whose onset is not smaller. */
  function InsertByOnset(x: NoteDetail, s: seq<NoteDetail>): (r: seq<NoteDetail>)
    ensures multiset(r) == multiset(s) + multiset{x}
    ensures |r| == |s| + 1
    ensures r[0] == x || (s != [] && r[0] == s[0])
  {
    if s == [] then [x]
    else if x.onset <= s[0].onset then [x] + s
    else
      assert s == [s[0]] + s[1..];
      [s[0]] + InsertByOnset(x, s[1..])
  }

  /** `sorted(..., key=lambda x: x[3])`: a stable sort on the onset. */
  function SortByOnset(s: seq<NoteDetail>): (r: seq<NoteDetail>)
    ensures multiset(r) == multiset(s)
    ensures |r| == |s|
  {
    if s == [] then []
    else
      assert s == [s[0]] + s[1..];
      InsertByOnset(s[0], SortByOnset(s[1..]))
  }

  /** The tuples with onset `t`, in order. */
  function WithOnset(s: seq<NoteDetail>, t: Seconds): seq<NoteDetail>
  {
    if s == [] then []
    else Keep(s[0], t) + WithOnset(s[1..], t)
  }

  /** `[{"offset": o, "bpm": b} for o, b in zip(offsets, bpms)]`. */
  function Tempos(offsets: seq<Seconds>, bpms: seq<Bpm>): (r: seq<TempoPoint>)
    ensures |r| == if |offsets| <= |bpms| then |offsets| else |bpms|
    ensures forall k :: 0 <= k < |r| ==> r[k] == TempoPoint(offsets[k], bpms[k])
  {
    if offsets == [] || bpms == [] then []
    else [TempoPoint(offsets[0], bpms[0])] + Tempos(offsets[1..], bpms[1..])
  }

  /** The `time_signatures` comprehension: one meter per time-signature
      change, in order, with its time, numerator and denominator. */
  function Meters(changes: seq<TimeSignature>): (r: seq<Meter>)
    ensures |r| == |changes|
    ensures forall k :: 0 <= k < |r| ==>
      r[k] == Meter(changes[k].time, changes[k].numerator, changes[k].denominator)
  {
    if changes == [] then []
    else [Meter(changes[0].time, changes[0].numerator, changes[0].denominator)] + Meters(changes[1..])
  }

  /** The key number of the first key signature, or `None` without one. */
  function OverallKey(changes: seq<KeySignature>): (r: Option<int>)
    ensures r.None? <==> changes == []
    ensures r.Some? ==> r.value == changes[0].keyNumber
  {
    if changes != [] then Some(changes[0].keyNumber) else None
  }

  /** The note tuples of a parsed file after the sort. */
  function SortedDetails(m: MidiData, noteName: int -> string): seq<NoteDetail>
  {
    SortByOnset(Details(AllNotes(m.instruments), noteName))
  }

  /** The success record built at process_midi_pickled.py:86-94. */
  function FeaturesOf(m: MidiData, noteName: int -> string): (f: FileFeatures)
    ensures |f.notes| == |f.noteLengths| == |f.octaves| == f.numNotes == |AllNotes(m.instruments)|
  {
    var sorted := SortedDetails(m, noteName);
    var notes := seq(|sorted|, k requires 0 <= k < |sorted| => sorted[k].name);
    FileFeatures(
      notes,
      seq(|sorted|, k requires 0 <= k < |sorted| => sorted[k].length),
      seq(|sorted|, k requires 0 <= k < |sorted| => sorted[k].octave),
      OverallKey(m.keySignatureChanges),
      |notes|,
      Tempos(m.tempoChangeTimes, m.tempi),
      Meters(m.timeSignatureChanges))
  }

  /** The value `extract_midi_details` returns for a parse outcome. */
  function ExtractResult(parsed: Result<MidiData>, midiFile: string, noteName: int -> string): (r: FileResult)
    ensures r.ErrorRecord? <==> parsed.Failure?
    ensures parsed.Failure? ==> r.error == parsed.error && r.file == midiFile
    ensures parsed.Success? ==> r.features.numNotes == |AllNotes(parsed.value.instruments)|
    ensures parsed.Success? ==> (r.features.overallKey.None? <==> parsed.value.keySignatureChanges == [])
  {
    match parsed
    case Failure(message) => ErrorRecord(message, midiFile)
    case Success(m) => Features(FeaturesOf(m, noteName))
  }

  /** `extract_midi_details(midi_file)`: the three per-note lists are built by
      a double loop over instruments and their notes, then sorted together by
      onset. Exactly one of the two record shapes comes back. */
  method ExtractMidiDetails(parsed: Result<MidiData>, midiFile: string, noteName: int -> string)
    returns (r: FileResult)
    ensures r.ErrorRecord? <==> parsed.Failure?
    ensures parsed.Failure? ==> r == ErrorRecord(parsed.error, midiFile)
    ensures parsed.Success? ==> r == Features(FeaturesOf(parsed.value, noteName))
  {
    if parsed.Failure? {
      return ErrorRecord(parsed.error, midiFile);
    }
    var midiData := parsed.value;
    var instruments := midiData.instruments;
    var notesList: seq<string> := [];
    var noteLengths: seq<Seconds> := [];
    var octaves: seq<int> := [];
    ghost var collected: seq<Note> := [];
    for i := 0 to |instruments|
      invariant collected == AllNotes(instruments[..i])
      invariant |notesList| == |noteLengths| == |octaves| == |collected|
      invariant forall k :: 0 <= k < |collected| ==>
        && notesList[k] == noteName(collected[k].pitch)
        && noteLengths[k] == collected[k].end - collected[k].start
        && octaves[k] == collected[k].pitch / 12 - 1
    {
      var notes := instruments[i].notes;
      assert instruments[..i + 1][..i] == instruments[..i];
      for j := 0 to |notes|
        invariant collected == AllNotes(instruments[..i]) + notes[..j]
        invariant |notesList| == |noteLengths| == |octaves| == |collected|
        invariant forall k :: 0 <= k < |collected| ==>
          && notesList[k] == noteName(collected[k].pitch)
          && noteLengths[k] == collected[k].end - collected[k].start
          && octaves[k] == collected[k].pitch / 12 - 1
      {
        var note := notes[j];
        notesList := notesList + [noteName(note.pitch)];
        noteLengths := noteLengths + [note.end - note.start];
        octaves := octaves + [note.pitch / 12 - 1];
        collected := collected + [note];
        assert notes[..j + 1] == notes[..j] + [note];
      }
      assert notes[..|notes|] == notes;
    }
    assert instruments[..|instruments|] == instruments;
    var allNotes := AllNotes(instruments);
    var onsets := seq(|allNotes|, k requires 0 <= k < |allNotes| => allNotes[k].start);
    var zipped := seq(|notesList|, k requires 0 <= k < |notesList|
      => NoteDetail(notesList[k], noteLengths[k], octaves[k], onsets[k]));
    assert zipped == Details(allNotes, noteName);
    var sorted := SortByOnset(zipped);
    notesList := seq(|sorted|, k requires 0 <= k < |sorted| => sorted[k].name);
    noteLengths := seq(|sorted|, k requires 0 <= k < |sorted| => sorted[k].length);
    octaves := seq(|sorted|, k requires 0 <= k < |sorted| => sorted[k].octave);
    var tempos := Tempos(midiData.tempoChangeTimes, midiData.tempi);
    var timeSignatures := Meters(midiData.timeSignatureChanges);
    var numNotes := |notesList|;
    var keySignature := OverallKey(midiData.keySignatureChanges);
    r := Features(FileFeatures(notesList, noteLengths, octaves, keySignature, numNotes, tempos, timeSignatures));
  }

  lemma {:induction false} InsertSorted(x: NoteDetail, s: seq<NoteDetail>)
    requires SortedByOnset(s)
    ensures SortedByOnset(InsertByOnset(x, s))
  {
    if s != [] && x.onset > s[0].onset {
      InsertSorted(x, s[1..]);
      var t := InsertByOnset(x, s[1..]);
      assert InsertByOnset(x, s) == [s[0]] + t;
      assert s[0].onset <= t[0].onset by {
        if t[0] != x {
          assert t[0] == s[1];
        }
      }
    }
  }

  /** The sorted tuples have non-decreasing onsets. */
  lemma {:induction false} SortByOnsetSorted(s: seq<NoteDetail>)
    ensures SortedByOnset(SortByOnset(s))
  {
    if s != [] {
      SortByOnsetSorted(s[1..]);
      InsertSorted(s[0], SortByOnset(s[1..]));
    }
  }

  /** The tuples of `[d]` with onset `t`. */
  function Keep(d: NoteDetail, t: Seconds): seq<NoteDetail>
  {
    if d.onset == t then [d] else []
  }

  lemma WithOnsetCons(d: NoteDetail, s: seq<NoteDetail>, t: Seconds)
    ensures WithOnset([d] + s, t) == Keep(d, t) + WithOnset(s, t)
  {
    assert ([d] + s)[1..] == s;
  }

  /** The step of `InsertWithOnset` where `x` goes after the common head of
      `r` and `s`. */
  lemma InsertAfterHead(x: NoteDetail, r: seq<NoteDetail>, s: seq<NoteDetail>, t: Seconds)
    requires r != [] && s != [] && r[0] == s[0] && x.onset > s[0].onset
    requires WithOnset(r[1..], t) == Keep(x, t) + WithOnset(s[1..], t)
    ensures WithOnset(r, t) == Keep(x, t) + WithOnset(s, t)
  {
    var tail := WithOnset(s[1..], t);
    if x.onset == t {
      assert Keep(s[0], t) == [];
      assert WithOnset(s, t) == tail;
    } else {
      assert Keep(x, t) == [];
      assert WithOnset(r, t) == Keep(s[0], t) + tail;
    }
  }

  /** Inserting `x` puts it ahead of every tuple with its onset, and leaves
      the tuples with any other onset as they were. */
  lemma {:induction false} InsertWithOnset(x: NoteDetail, s: seq<NoteDetail>, t: Seconds)
    ensures WithOnset(InsertByOnset(x, s), t) == Keep(x, t) + WithOnset(s, t)
  {
    if s == [] || x.onset <= s[0].onset {
      assert InsertByOnset(x, s) == [x] + s;
      WithOnsetCons(x, s, t);
    } else {
      InsertWithOnset(x, s[1..], t);
      var r := InsertByOnset(x, s);
      assert r == [s[0]] + InsertByOnset(x, s[1..]);
      assert r[1..] == InsertByOnset(x, s[1..]);
      InsertAfterHead(x, r, s, t);
    }
  }

  /** The sort is stable: for every onset value, the tuples with that onset
      keep the order in which they were collected (track, then note). */
  lemma {:induction false} SortByOnsetStable(s: seq<NoteDetail>, t: Seconds)
    ensures WithOnset(SortByOnset(s), t) == WithOnset(s, t)
  {
    if s != [] {
      SortByOnsetStable(s[1..], t);
      InsertWithOnset(s[0], SortByOnset(s[1..]), t);
    }
  }

  /** Position `k` of the three lists describes one collected note: its name,
      `end - start` and octave. The notes appear with non-decreasing onsets,
      each collected note exactly as often as it was collected. */
  lemma FeaturesDescribeSortedNotes(m: MidiData, noteName: int -> string)
    ensures var f := FeaturesOf(m, noteName);
            var sorted := SortedDetails(m, noteName);
            && SortedByOnset(sorted)
            && multiset(sorted) == multiset(Details(AllNotes(m.instruments), noteName))
            && |sorted| == f.numNotes
            && forall k :: 0 <= k < |sorted| ==>
                 && f.notes[k] == sorted[k].name
                 && f.noteLengths[k] == sorted[k].length
                 && f.octaves[k] == sorted[k].octave
  {
    SortByOnsetSorted(Details(AllNotes(m.instruments), noteName));
  }

  /** Every octave in the record is `pitch div 12 - 1` of some collected
      note, so it lies in -1..9 when all pitches lie in 0..127. */
  lemma OctavesInRange(m: MidiData, noteName: int -> string)
    requires forall n :: n in AllNotes(m.instruments) ==> 0 <= n.pitch <= 127
    ensures forall k :: 0 <= k < |FeaturesOf(m, noteName).octaves| ==>
              -1 <= FeaturesOf(m, noteName).octaves[k] <= 9
  {
    var all := AllNotes(m.instruments);
    var details := Details(all, noteName);
    var sorted := SortedDetails(m, noteName);
    forall k | 0 <= k < |FeaturesOf(m, noteName).octaves|
      ensures -1 <= FeaturesOf(m, noteName).octaves[k] <= 9
    {
      assert sorted[k] in multiset(details);
      var j :| 0 <= j < |details| && details[j] == sorted[k];
      assert all[j] in all;
      assert sorted[k].octave == Octave(all[j].pitch);
    }
  }
}
