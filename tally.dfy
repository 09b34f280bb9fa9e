/** The closing report of the pipeline (process_midi_pickled.py:175-179): for
    each composer of the merged index, how many works it holds and how many of
    them are feature records (`"error" not in f`) or error records. */
module Tally {
  import opened Extractor
  import opened Grouping

  datatype ComposerTally = ComposerTally(total: nat, valid: nat, errors: nat)

  /** The keys of the dictionary `extract_midi_details` returns: the seven
      feature keys of lines 87-93, or the two keys of line 97. */
  function RecordKeys(f: FileResult): set<string>
  {
    match f
    case Features(_) =>
      {"notes", "note_lengths", "octaves", "overall_key", "num_notes", "tempos", "musical_meters"}
    case ErrorRecord(_, _) => {"error", "file"}
  }

  /** `"error" in f`: of the two record shapes only the error record has an
      `error` key. */
  predicate HasError(f: FileResult)
    ensures HasError(f) <==> f.ErrorRecord?
  {
    "error" in RecordKeys(f)
  }

  /** The work names whose record is a feature record. */
  function FeatureWorks(works: map<string, FileResult>): set<string>
  {
    set w | w in works && works[w].Features?
  }

  /** The work names whose record is an error record. */
  function ErrorWorks(works: map<string, FileResult>): set<string>
  {
    set w | w in works && works[w].ErrorRecord?
  }

  /** Every work is in exactly one of the two sets, and each set is empty
      exactly when every record has the other shape. */
  lemma SplitWorks(works: map<string, FileResult>)
    ensures |FeatureWorks(works)| + |ErrorWorks(works)| == |works|
    ensures |ErrorWorks(works)| == 0 <==> forall w :: w in works ==> works[w].Features?
    ensures |FeatureWorks(works)| == 0 <==> forall w :: w in works ==> works[w].ErrorRecord?
  {
    var valid, errors := FeatureWorks(works), ErrorWorks(works);
    assert valid + errors == works.Keys;
    assert valid * errors == {};
    assert |valid + errors| == |valid| + |errors|;
    if w :| w in works && works[w].ErrorRecord? {
      assert w in errors;
    }
    if w :| w in works && works[w].Features? {
      assert w in valid;
    }
  }

  /** The three numbers printed for one composer: the valid count is the
      number of feature records, the error count the number of error
      records, so every record is counted exactly once. */
  function TallyWorks(works: map<string, FileResult>): (t: ComposerTally)
    ensures t.total == |works|
    ensures t.valid + t.errors == t.total
    ensures t.errors == 0 <==> forall w :: w in works ==> works[w].Features?
    ensures t.valid == 0 <==> forall w :: w in works ==> works[w].ErrorRecord?
    ensures t.valid == |set w | w in works && works[w].Features?|
    ensures t.errors == |set w | w in works && works[w].ErrorRecord?|
  {
    var valid := set w | w in works && !HasError(works[w]);
    var errors := set w | w in works && HasError(works[w]);
    assert valid == FeatureWorks(works);
    assert errors == ErrorWorks(works);
    SplitWorks(works);
    ComposerTally(|works|, |valid|, |errors|)
  }

  /** The report for every composer of the merged index. */
  function TallyAll(index: CorpusIndex<FileResult>): (r: map<string, ComposerTally>)
    ensures r.Keys == index.Keys
    ensures forall c :: c in r ==> r[c].total == |index[c]| && r[c].valid + r[c].errors == r[c].total
    ensures forall c :: c in r ==> r[c] == TallyWorks(index[c])
  {
    map c | c in index :: TallyWorks(index[c])
  }
}
