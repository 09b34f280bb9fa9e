/** The script's main block (process_midi_pickled.py:121-179): scan the
    corpus, refuse to run without workers, deal the files round-robin to the
    workers, group each chunk, and merge the partial indexes in chunk order.
    The cluster is a number of workers; `map_sync` is a loop over the chunks
    in order, which is the order in which it returns the partial results. */
module Pipeline {
  import opened Results
  import opened PosixPath
  import opened Lexicographic
  import opened Scanner
  import opened RoundRobin
  import opened Extractor
  import opened Grouping
  import opened Merge
  import opened Tally

  /** The `COMPOSERS` list before sorting. */
  const Composers: seq<string> := ["handel", "alkan", "schubert", "mozart", "scarlatti", "victoria"]

  /** The message of the `RuntimeError` raised when no engine is up. */
  const NoEnginesMessage: string :=
    "No ipyparallel engines found. Please start your cluster with 'ipcluster start -n X'."

  /** The folder names of `Composers` in ascending order. */
  const SortedNames: seq<string> := ["alkan", "handel", "mozart", "scarlatti", "schubert", "victoria"]

  lemma SortedNamesAscending()
    ensures Sorted(SortedNames)
  {
    assert Le("scarlatti", "schubert") by {
      assert "scarlatti"[1..] == "carlatti" && "schubert"[1..] == "chubert";
      assert "carlatti"[1..] == "arlatti" && "chubert"[1..] == "hubert";
    }
  }

  lemma SortedNamesPermuted()
    ensures multiset(SortedNames) == multiset(Composers)
  {
  }

  /** `sorted(COMPOSERS)`: the order in which the composer folders are
      scanned. */
  lemma SortedComposers()
    ensures SortStrings(Composers) == SortedNames
  {
    SortedNamesAscending();
    SortedNamesPermuted();
    SortStringsSorted(Composers);
    SortedPermutationUnique(SortStrings(Composers), SortedNames);
  }

  /** `extract_midi_details` as a function of the path, given what the MIDI
      reader makes of each path and the note-naming function. */
  function Extract(parse: string -> Result<MidiData>, noteName: int -> string): string -> FileResult
  {
    path => ExtractResult(parse(path), path, noteName)
  }

  /** Each chunk grouped on its own. */
  function GroupEach<R>(chunks: seq<seq<string>>, extract: string -> R,
                        composerOf: string -> string, workOf: string -> string): (ps: seq<CorpusIndex<R>>)
    ensures |ps| == |chunks|
  {
    seq(|chunks|, i requires 0 <= i < |chunks| => Group(chunks[i], extract, composerOf, workOf))
  }

  /** The partial indexes `map_sync` returns: one grouped chunk per worker. */
  function Partials<R>(files: seq<string>, numWorkers: nat, extract: string -> R,
                       composerOf: string -> string, workOf: string -> string): (ps: seq<CorpusIndex<R>>)
    ensures |ps| == numWorkers
  {
    GroupEach(Partition(files, numWorkers), extract, composerOf, workOf)
  }

  /** `dview.map_sync(process_midi_files_parallel, chunks)`: the grouping pass
      applied to every chunk, the results in chunk order. */
  method MapSync<R>(chunks: seq<seq<string>>, extract: string -> R,
                    composerOf: string -> string, workOf: string -> string)
    returns (resultsList: seq<CorpusIndex<R>>)
    ensures resultsList == GroupEach(chunks, extract, composerOf, workOf)
  {
    resultsList := [];
    for i := 0 to |chunks|
      invariant resultsList == GroupEach(chunks, extract, composerOf, workOf)[..i]
    {
      var partial := ProcessMidiFilesParallel(chunks[i], extract, composerOf, workOf);
      resultsList := resultsList + [partial];
    }
  }

  /** The whole run over the composer list (the script passes `Composers`),
      a file system and a cluster of `numWorkers` engines. It fails exactly
      when there is no engine; otherwise the corpus is the in-order merge of
      the grouped round-robin chunks of the scanned files. */
  method BuildCorpus(composerList: seq<string>, baseDirectory: string, fs: FileSystem, numWorkers: nat,
                     parse: string -> Result<MidiData>, noteName: int -> string)
    returns (r: Result<CorpusIndex<FileResult>>)
    ensures r.Failure? <==> numWorkers == 0
    ensures r.Failure? ==> r.error == NoEnginesMessage
    ensures r.Success? ==>
      r.value == MergeAll(Partials(AllComposerFiles(baseDirectory, SortStrings(composerList), fs),
                                   numWorkers, Extract(parse, noteName), ComposerOf, WorkOf))
  {
    var composers := SortStrings(composerList);
    var midiFiles := GatherMidiFiles(baseDirectory, composers, fs);
    SortStringsOrderInsensitive(composers, composerList);
    if numWorkers == 0 {
      return Failure(NoEnginesMessage);
    }
    var chunks := Partition(midiFiles, numWorkers);
    var resultsList := MapSync(chunks, Extract(parse, noteName), ComposerOf, WorkOf);
    var finalData := MergePartials(resultsList);
    return Success(finalData);
  }

  /** No two files share both their composer and their work name. */
  ghost predicate DistinctKeys(files: seq<string>, composerOf: string -> string, workOf: string -> string)
  {
    forall i, j :: 0 <= i < j < |files| && composerOf(files[i]) == composerOf(files[j])
      ==> workOf(files[i]) != workOf(files[j])
  }

  /** The keys of the partial index of worker `i` are those of the files at
      the indexes `j` with `j % W == i`. */
  lemma ChunkKeys<R>(files: seq<string>, w: nat, i: nat, extract: string -> R,
                     composerOf: string -> string, workOf: string -> string, c: string, work: string)
    requires w >= 1 && i < w
    ensures var g := Group(Partition(files, w)[i], extract, composerOf, workOf);
      && (c in g <==> exists j :: 0 <= j < |files| && j % w == i && composerOf(files[j]) == c)
      && (c in g ==> (work in g[c] <==>
            exists j :: 0 <= j < |files| && j % w == i && composerOf(files[j]) == c && workOf(files[j]) == work))
  {
    var chunk := Partition(files, w)[i];
    GroupKeys(chunk, extract, composerOf, workOf, c, work);
    ChunkMembers(files, w, i, (f: string) => composerOf(f) == c);
    ChunkMembers(files, w, i, (f: string) => composerOf(f) == c && workOf(f) == work);
  }

  /** Some file of chunk `i` satisfies `p` exactly when some input file at an
      index `j` with `j % W == i` does. */
  lemma ChunkMembers<T>(files: seq<T>, w: nat, i: nat, p: T -> bool)
    requires w >= 1 && i < w
    ensures (exists k :: 0 <= k < |Partition(files, w)[i]| && p(Partition(files, w)[i][k]))
        <==> (exists j :: 0 <= j < |files| && j % w == i && p(files[j]))
  {
    var chunk := Partition(files, w)[i];
    assert (exists k :: 0 <= k < |chunk| && p(chunk[k]))
        ==> (exists j :: 0 <= j < |files| && j % w == i && p(files[j])) by {
      if k :| 0 <= k < |chunk| && p(chunk[k]) {
        ChunkIndex(files, w, i, k);
        var j := Position(i, k, w);
        assert 0 <= j < |files| && j % w == i && p(files[j]);
      }
    }
    assert (exists j :: 0 <= j < |files| && j % w == i && p(files[j]))
        ==> (exists k :: 0 <= k < |chunk| && p(chunk[k])) by {
      if j :| 0 <= j < |files| && j % w == i && p(files[j]) {
        PartitionCover(files, w, j);
        assert 0 <= j / w < |chunk| && p(chunk[j / w]);
      }
    }
  }

  /** Position `k` of chunk `i` holds an input index whose remainder is `i`. */
  lemma ChunkIndex<T>(files: seq<T>, w: nat, i: nat, k: nat)
    requires w >= 1 && i < w && k < |Partition(files, w)[i]|
    ensures Position(i, k, w) < |files| && Position(i, k, w) % w == i
    ensures Partition(files, w)[i][k] == files[Position(i, k, w)]
  {
    PartitionChunks(files, w, i);
    PartitionCover(files, w, Position(i, k, w));
  }

  /** With distinct keys, the worker that receives file `j` records
      its result under the file's composer and work name. */
  lemma ChunkValue<R>(files: seq<string>, w: nat, j: nat, extract: string -> R,
                      composerOf: string -> string, workOf: string -> string)
    requires w >= 1 && j < |files| && DistinctKeys(files, composerOf, workOf)
    ensures var g := Group(Partition(files, w)[j % w], extract, composerOf, workOf);
      && composerOf(files[j]) in g && workOf(files[j]) in g[composerOf(files[j])]
      && g[composerOf(files[j])][workOf(files[j])] == extract(files[j])
  {
    var chunk := Partition(files, w)[j % w];
    PartitionCover(files, w, j);
    var k0 := j / w;
    forall k | k0 < k < |chunk|
      ensures composerOf(chunk[k]) != composerOf(chunk[k0]) || workOf(chunk[k]) != workOf(chunk[k0])
    {
      ChunkIndex(files, w, j % w, k);
      assert Position(j % w, k, w) != j;
    }
    GroupLastWins(chunk, extract, composerOf, workOf, k0);
  }

  /** With distinct keys no (composer, work) pair is in two partial indexes. */
  lemma PartialsDisjoint<R>(files: seq<string>, w: nat, extract: string -> R,
                            composerOf: string -> string, workOf: string -> string)
    requires w >= 1 && DistinctKeys(files, composerOf, workOf)
    ensures DisjointWorks(Partials(files, w, extract, composerOf, workOf))
  {
    var ps: seq<CorpusIndex<R>> := Partials(files, w, extract, composerOf, workOf);
    forall i: nat, i': nat, c: string | i < i' < |ps| && c in ps[i] && c in ps[i']
      ensures ps[i][c].Keys !! ps[i'][c].Keys
    {
      forall work: string | work in ps[i][c]
        ensures work !in ps[i'][c]
      {
        ChunkKeys(files, w, i, extract, composerOf, workOf, c, work);
        ChunkKeys(files, w, i', extract, composerOf, workOf, c, work);
        var j :| 0 <= j < |files| && j % w == i && composerOf(files[j]) == c && workOf(files[j]) == work;
        forall j' | 0 <= j' < |files| && j' % w == i' && composerOf(files[j']) == c
          ensures workOf(files[j']) != work
        {
          assert j != j';
        }
      }
    }
  }

  /** The merged composers are the composers of the files. */
  lemma CorpusComposers<R>(files: seq<string>, w: nat, extract: string -> R,
                           composerOf: string -> string, workOf: string -> string, c: string)
    requires w >= 1
    ensures c in MergeAll(Partials(files, w, extract, composerOf, workOf))
        <==> c in Group(files, extract, composerOf, workOf)
  {
    var ps := Partials(files, w, extract, composerOf, workOf);
    MergeKeys(ps, c, []);
    GroupKeys(files, extract, composerOf, workOf, c, []);
    if i :| 0 <= i < |ps| && c in ps[i] {
      ChunkKeys(files, w, i, extract, composerOf, workOf, c, []);
    }
    if j :| 0 <= j < |files| && composerOf(files[j]) == c {
      ChunkKeys(files, w, j % w, extract, composerOf, workOf, c, []);
      assert c in ps[j % w];
    }
  }

  /** A merged composer's works are the work names of its files. */
  lemma CorpusWorks<R>(files: seq<string>, w: nat, extract: string -> R,
                       composerOf: string -> string, workOf: string -> string, c: string, work: string)
    requires w >= 1
    requires c in MergeAll(Partials(files, w, extract, composerOf, workOf))
    ensures c in Group(files, extract, composerOf, workOf)
    ensures work in MergeAll(Partials(files, w, extract, composerOf, workOf))[c]
        <==> work in Group(files, extract, composerOf, workOf)[c]
  {
    CorpusComposers(files, w, extract, composerOf, workOf, c);
    var ps := Partials(files, w, extract, composerOf, workOf);
    MergeKeys(ps, c, work);
    GroupKeys(files, extract, composerOf, workOf, c, work);
    if i :| 0 <= i < |ps| && c in ps[i] && work in ps[i][c] {
      ChunkKeys(files, w, i, extract, composerOf, workOf, c, work);
    }
    if j :| 0 <= j < |files| && composerOf(files[j]) == c && workOf(files[j]) == work {
      ChunkKeys(files, w, j % w, extract, composerOf, workOf, c, work);
      assert c in ps[j % w] && work in ps[j % w][c];
    }
  }

  /** With distinct keys, the merged record of a file is its own record. */
  lemma CorpusValue<R>(files: seq<string>, w: nat, extract: string -> R,
                       composerOf: string -> string, workOf: string -> string, j: nat)
    requires w >= 1 && j < |files| && DistinctKeys(files, composerOf, workOf)
    ensures var m := MergeAll(Partials(files, w, extract, composerOf, workOf));
      && composerOf(files[j]) in m && workOf(files[j]) in m[composerOf(files[j])]
      && m[composerOf(files[j])][workOf(files[j])] == extract(files[j])
  {
    var ps := Partials(files, w, extract, composerOf, workOf);
    PartialsDisjoint(files, w, extract, composerOf, workOf);
    ChunkValue(files, w, j, extract, composerOf, workOf);
    MergeValueDisjoint(ps, j % w, composerOf(files[j]), workOf(files[j]));
  }

  /** The number of workers does not change the corpus: when no two files
      share both composer and work name, the merged index of any positive
      number of workers is the index a single pass over all files builds. */
  lemma CorpusIndependentOfWorkerCount<R>(files: seq<string>, w: nat, extract: string -> R,
                                          composerOf: string -> string, workOf: string -> string)
    requires w >= 1 && DistinctKeys(files, composerOf, workOf)
    ensures MergeAll(Partials(files, w, extract, composerOf, workOf))
         == Group(files, extract, composerOf, workOf)
  {
    var m := MergeAll(Partials(files, w, extract, composerOf, workOf));
    var g := Group(files, extract, composerOf, workOf);
    forall c
      ensures c in m <==> c in g
    {
      CorpusComposers(files, w, extract, composerOf, workOf, c);
    }
    forall c | c in m
      ensures m[c] == g[c]
    {
      forall work
        ensures work in m[c] <==> work in g[c]
      {
        CorpusWorks(files, w, extract, composerOf, workOf, c, work);
      }
      forall work | work in g[c]
        ensures m[c][work] == g[c][work]
      {
        GroupKeys(files, extract, composerOf, workOf, c, work);
        var j :| 0 <= j < |files| && composerOf(files[j]) == c && workOf(files[j]) == work;
        CorpusValue(files, w, extract, composerOf, workOf, j);
        GroupLastWins(files, extract, composerOf, workOf, j);
      }
    }
  }

  /** With distinct keys, every scanned file is in the merged corpus under
      its composer and work name, whatever the number of workers: a file
      that failed to parse as the error record carrying the parser's message
      and its path, which the final report counts as an error, and any other
      file as the feature record of its parsed contents. */
  lemma EveryFileRecorded(files: seq<string>, w: nat, parse: string -> Result<MidiData>,
                          noteName: int -> string, j: nat)
    requires w >= 1 && j < |files| && DistinctKeys(files, ComposerOf, WorkOf)
    ensures var m := MergeAll(Partials(files, w, Extract(parse, noteName), ComposerOf, WorkOf));
      var c, k, parsed := ComposerOf(files[j]), WorkOf(files[j]), parse(files[j]);
      && c in m && k in m[c]
      && (HasError(m[c][k]) <==> parsed.Failure?)
      && (parsed.Failure? ==> m[c][k] == ErrorRecord(parsed.error, files[j]))
      && (parsed.Success? ==> m[c][k] == Features(FeaturesOf(parsed.value, noteName)))
  {
    CorpusValue(files, w, Extract(parse, noteName), ComposerOf, WorkOf, j);
  }

  lemma {:induction false} CountFromPositive(files: seq<string>, composerOf: string -> string, j: nat)
    requires j < |files|
    ensures CountFrom(files, composerOf, composerOf(files[j])) > 0
  {
    if j > 0 {
      CountFromPositive(files[1..], composerOf, j - 1);
    }
  }

  /** With distinct keys, the final report lists exactly the composers that
      have scanned files, and the total it prints for a composer is the
      number of that composer's scanned files. */
  lemma TallyCountsFiles(files: seq<string>, w: nat, extract: string -> FileResult,
                         composerOf: string -> string, workOf: string -> string, c: string)
    requires w >= 1 && DistinctKeys(files, composerOf, workOf)
    ensures var report := TallyAll(MergeAll(Partials(files, w, extract, composerOf, workOf)));
      && (c in report <==> CountFrom(files, composerOf, c) > 0)
      && (c in report ==> report[c].total == CountFrom(files, composerOf, c))
  {
    CorpusIndependentOfWorkerCount(files, w, extract, composerOf, workOf);
    var g := Group(files, extract, composerOf, workOf);
    ProcessedCountsCount(files, extract, composerOf, workOf, c);
    if c in g {
      GroupKeys(files, extract, composerOf, workOf, c, []);
      var j :| 0 <= j < |files| && composerOf(files[j]) == c;
      CountFromPositive(files, composerOf, j);
      WorksAtMostFiles(files, extract, composerOf, workOf, c);
    }
  }

  /** A file holding one C4 note (pitch 60) from 0 s to 1 s, a 120 bpm tempo
      and a 4/4 meter at 0 s, and no key signature. */
  const OneNoteFile: MidiData :=
    MidiData([Instrument([Note(60, 0.0, 1.0)])], [0.0], [120.0], [TimeSignature(0.0, 4, 4)], [])

  const OneNoteFeatures: FileFeatures :=
    FileFeatures(["C4"], [1.0], [4], None, 1, [TempoPoint(0.0, 120.0)], [Meter(0.0, 4, 4)])

  lemma OneNoteFileFeatures(noteName: int -> string)
    requires noteName(60) == "C4"
    ensures FeaturesOf(OneNoteFile, noteName) == OneNoteFeatures
  {
    var n := Note(60, 0.0, 1.0);
    assert AllNotes(OneNoteFile.instruments) == [n] by {
      assert OneNoteFile.instruments[..0] == [];
    }
    var d := NoteDetail("C4", 1.0, 4, 0.0);
    assert Details([n], noteName) == [d];
    assert SortByOnset([d]) == [d] by {
      assert [d][1..] == [];
    }
    assert Tempos([0.0], [120.0]) == [TempoPoint(0.0, 120.0)] by {
      assert [0.0][1..] == [] && [120.0][1..] == [];
    }
  }

  /** The only file of the one-file corpus `dataset/alkan/Op1.mid`. */
  const ExampleFs: FileSystem := map["dataset/alkan" := [Entry("Op1.mid", true)]]

  lemma ExampleScanFiles()
    ensures AllComposerFiles("dataset", ["alkan"], ExampleFs) == ["dataset/alkan/Op1.mid"]
  {
    assert Join("dataset", "alkan") == "dataset/alkan";
    assert Join("dataset/alkan", "Op1.mid") == "dataset/alkan/Op1.mid";
    assert IsMidiName("Op1.mid");
    var listing := [Entry("Op1.mid", true)];
    assert MidiPaths("dataset/alkan", listing) == ["dataset/alkan/Op1.mid"] by {
      assert listing[..0] == [];
    }
    assert ["alkan"][..0] == [];
  }

  lemma ExampleComposer()
    ensures ComposerOf("dataset/alkan/Op1.mid") == "alkan"
  {
    var head, dir := "dataset/alkan/", "dataset/alkan";
    RFindAfter(head, "Op1.mid", '/');
    assert "dataset/alkan/Op1.mid" == head + "Op1.mid";
    assert head == dir + "/";
    RFindAfter("dataset/", "alkan", '/');
    assert dir == "dataset/" + "alkan";
    AllMeans(head, '/');
    assert head[0] != '/';
    assert RStripSlashes(head) == dir by {
      assert head[..|head| - 1] == dir;
    }
  }

  lemma ExampleWork()
    ensures WorkOf("dataset/alkan/Op1.mid") == "Op1"
  {
    RFindAfter("dataset/alkan/", "Op1.mid", '/');
    assert "dataset/alkan/Op1.mid" == "dataset/alkan/" + "Op1.mid";
    assert "Op1.mid" == "Op1" + ".mid";
    assert ".mid"[1..] == "mid" && '.' !in "mid";
    assert '/' !in "Op1" && '/' !in ".mid";
    assert "Op1"[0] != '.';
    SplitExtRemovesExtension("Op1", ".mid");
  }

  lemma SingleFileGroup<R>(path: string, extract: string -> R, composerOf: string -> string, workOf: string -> string)
    ensures MergeAll(Partials([path], 1, extract, composerOf, workOf))
         == map[composerOf(path) := map[workOf(path) := extract(path)]]
  {
    assert Partition([path], 1)[0] == [path] by {
      assert Slice([path], 1, 1) == [];
    }
    var g := Group([path], extract, composerOf, workOf);
    assert g == map[composerOf(path) := map[workOf(path) := extract(path)]] by {
      assert [path][..0] == [];
      assert Group([path][..0], extract, composerOf, workOf) == map[];
    }
    var ps := Partials([path], 1, extract, composerOf, workOf);
    assert ps == [g];
    assert ps[..0] == [];
    var c := composerOf(path);
    var none: map<string, R> := map[];
    assert none + g[c] == g[c];
    assert MergeInto(map[], g) == g;
  }

  /** The one-file corpus with a single worker: the run succeeds and the
      corpus holds exactly the single-note record under `alkan` / `Op1`. */
  lemma OneFileCorpus(parse: string -> Result<MidiData>, noteName: int -> string)
    requires parse("dataset/alkan/Op1.mid") == Success(OneNoteFile)
    requires noteName(60) == "C4"
    ensures MergeAll(Partials(AllComposerFiles("dataset", SortStrings(["alkan"]), ExampleFs),
                              1, Extract(parse, noteName), ComposerOf, WorkOf))
         == map["alkan" := map["Op1" := Features(OneNoteFeatures)]]
  {
    assert SortStrings(["alkan"]) == ["alkan"] by {
      assert ["alkan"][1..] == [];
    }
    ExampleScanFiles();
    ExampleComposer();
    ExampleWork();
    OneNoteFileFeatures(noteName);
    SingleFileGroup("dataset/alkan/Op1.mid", Extract(parse, noteName), ComposerOf, WorkOf);
  }

  /** With three files whose last two share composer and work name, the
      record kept for that pair depends on the number of workers: one worker
      keeps the later file's record, while two workers put the earlier file
      in the second chunk, whose partial index is merged last. */
  lemma DuplicateKeyDependsOnWorkers<R>(files: seq<string>, extract: string -> R,
                                        composerOf: string -> string, workOf: string -> string)
    requires |files| == 3
    requires composerOf(files[1]) == composerOf(files[2]) && workOf(files[1]) == workOf(files[2])
    ensures var c, k := composerOf(files[1]), workOf(files[1]);
      var one := MergeAll(Partials(files, 1, extract, composerOf, workOf));
      var two := MergeAll(Partials(files, 2, extract, composerOf, workOf));
      && c in one && k in one[c] && one[c][k] == extract(files[2])
      && c in two && k in two[c] && two[c][k] == extract(files[1])
  {
    var c, k := composerOf(files[1]), workOf(files[1]);
    assert Slice(files, 0, 1) == files by {
      assert Slice(files, 2, 1) == [files[2]];
      assert Slice(files, 1, 1) == [files[1], files[2]];
      assert files == [files[0], files[1], files[2]];
    }
    var ps1 := Partials(files, 1, extract, composerOf, workOf);
    assert ps1[0] == Group(files, extract, composerOf, workOf);
    GroupLastWins(files, extract, composerOf, workOf, 2);
    MergeLastWins(ps1, 0, c, k);
    assert Slice(files, 1, 2) == [files[1]] by {
      assert Slice(files, 3, 2) == [];
    }
    var ps2 := Partials(files, 2, extract, composerOf, workOf);
    assert ps2[1] == Group([files[1]], extract, composerOf, workOf);
    GroupLastWins([files[1]], extract, composerOf, workOf, 0);
    MergeLastWins(ps2, 1, c, k);
  }

  /** A folder holding `Op0.mid`, `Op1.mid` and `Op1.MID`. */
  const CaseVariantFs: FileSystem :=
    map["dataset/alkan" := [Entry("Op0.mid", true), Entry("Op1.mid", true), Entry("Op1.MID", true)]]

  /** The paths the scanner joins for the folder and its entries. */
  lemma CaseVariantJoins()
    ensures Join("dataset/alkan", "Op0.mid") == "dataset/alkan/Op0.mid"
    ensures Join("dataset/alkan", "Op1.mid") == "dataset/alkan/Op1.mid"
    ensures Join("dataset/alkan", "Op1.MID") == "dataset/alkan/Op1.MID"
  {
  }

  /** The folder's listing yields its three paths in listing order. */
  lemma CaseVariantListing()
    ensures MidiPaths("dataset/alkan", CaseVariantFs["dataset/alkan"])
         == ["dataset/alkan/Op0.mid", "dataset/alkan/Op1.mid", "dataset/alkan/Op1.MID"]
  {
    var dir, listing := "dataset/alkan", CaseVariantFs["dataset/alkan"];
    CaseVariantEntries();
    CaseVariantJoins();
    assert listing[..0] == [] && listing[..3] == listing;
    MidiPathsStep(dir, listing, 0);
    MidiPathsStep(dir, listing, 1);
    MidiPathsStep(dir, listing, 2);
  }

  lemma CaseVariantScan()
    ensures AllComposerFiles("dataset", ["alkan"], CaseVariantFs)
         == ["dataset/alkan/Op0.mid", "dataset/alkan/Op1.mid", "dataset/alkan/Op1.MID"]
  {
    assert Join("dataset", "alkan") == "dataset/alkan";
    CaseVariantListing();
    assert ["alkan"][..0] == [];
  }

  /** The scanned path of `Op1.MID` has composer `alkan` and work name
      `Op1`, the same names as `Op1.mid`. */
  lemma CaseVariantNames()
    ensures ComposerOf("dataset/alkan/Op1.MID") == "alkan"
    ensures WorkOf("dataset/alkan/Op1.MID") == "Op1"
  {
    var path := Join(Join("dataset", "alkan"), "Op1.MID");
    assert path == "dataset/alkan/Op1.MID" by {
      CaseVariantJoins();
    }
    assert '/' !in "alkan" && '/' !in "Op1.MID";
    JoinedPathParts("dataset", "alkan", "Op1.MID");
    UpperCaseExtension();
  }

  /** `splitext` removes an upper-case extension like a lower-case one. */
  lemma UpperCaseExtension()
    ensures SplitExtRoot("Op1.MID") == "Op1"
  {
    assert "Op1.MID" == "Op1" + ".MID";
    assert ".MID"[1..] == "MID" && '.' !in "MID";
    assert '/' !in "Op1" && '/' !in ".MID";
    assert "Op1"[0] != '.';
    SplitExtRemovesExtension("Op1", ".MID");
  }

  /** The three entries of the folder are regular MIDI files. */
  lemma CaseVariantEntries()
    ensures IsMidiEntry(Entry("Op0.mid", true))
    ensures IsMidiEntry(Entry("Op1.mid", true))
    ensures IsMidiEntry(Entry("Op1.MID", true))
  {
    assert LowerAscii('M') == 'm' && LowerAscii('I') == 'i' && LowerAscii('D') == 'd';
  }

  /** `Op1.mid` and `Op1.MID` are both scanned and both named `alkan` /
      `Op1`. If neither parses, the corpus holds the error record of
      `Op1.MID` with one worker and that of `Op1.mid` with two, so the
      corpus depends on the number of workers. */
  lemma CaseVariantsDependOnWorkers(parse: string -> Result<MidiData>, noteName: int -> string)
    requires parse("dataset/alkan/Op1.mid").Failure? && parse("dataset/alkan/Op1.MID").Failure?
    ensures var files := AllComposerFiles("dataset", SortStrings(["alkan"]), CaseVariantFs);
      var one := MergeAll(Partials(files, 1, Extract(parse, noteName), ComposerOf, WorkOf));
      var two := MergeAll(Partials(files, 2, Extract(parse, noteName), ComposerOf, WorkOf));
      && "alkan" in one && "Op1" in one["alkan"]
      && one["alkan"]["Op1"] == ErrorRecord(parse("dataset/alkan/Op1.MID").error, "dataset/alkan/Op1.MID")
      && "alkan" in two && "Op1" in two["alkan"]
      && two["alkan"]["Op1"] == ErrorRecord(parse("dataset/alkan/Op1.mid").error, "dataset/alkan/Op1.mid")
      && one != two
  {
    assert SortStrings(["alkan"]) == ["alkan"] by {
      assert ["alkan"][1..] == [];
    }
    CaseVariantScan();
    ExampleComposer();
    ExampleWork();
    CaseVariantNames();
    var files := ["dataset/alkan/Op0.mid", "dataset/alkan/Op1.mid", "dataset/alkan/Op1.MID"];
    DuplicateKeyDependsOnWorkers(files, Extract(parse, noteName), ComposerOf, WorkOf);
    assert "dataset/alkan/Op1.mid"[20] != "dataset/alkan/Op1.MID"[20];
  }
}
