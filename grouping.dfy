/** One worker's pass over its chunk (`process_midi_files_parallel`): each
    file's result is stored under its composer (the name of its parent
    directory) and its work name (the file name without its extension).
    The specification is stated for any naming functions; the method uses
    the two of the source. */
module Grouping {
  import opened PosixPath

  /** composer -> work name -> result. */
  type CorpusIndex<R> = map<string, map<string, R>>

  /** `os.path.basename(os.path.dirname(path))`. */
  function ComposerOf(path: string): string
  {
    BaseName(DirName(path))
  }

  /** `os.path.splitext(os.path.basename(path))[0]`. */
  function WorkOf(path: string): string
  {
    SplitExtRoot(BaseName(path))
  }

  /** The effect of one loop iteration on `results`. */
  function AddFile<R>(results: CorpusIndex<R>, composer: string, work: string, value: R): CorpusIndex<R>
  {
    var works := if composer in results then results[composer] else map[];
    results[composer := works[work := value]]
  }

  /** `results` after the loop has visited `files`. */
  function Group<R>(files: seq<string>, extract: string -> R,
                    composerOf: string -> string, workOf: string -> string): CorpusIndex<R>
  {
    if files == [] then map[]
    else
      var last := files[|files| - 1];
      AddFile(Group(files[..|files| - 1], extract, composerOf, workOf),
              composerOf(last), workOf(last), extract(last))
  }

  /** `processed_counts` after the loop has visited `files`. */
  function ProcessedCounts(files: seq<string>, composerOf: string -> string): map<string, nat>
  {
    if files == [] then map[]
    else
      var counts := ProcessedCounts(files[..|files| - 1], composerOf);
      var composer := composerOf(files[|files| - 1]);
      counts[composer := (if composer in counts then counts[composer] else 0) + 1]
  }

  /** The number of files whose composer is `composer`. */
  function CountFrom(files: seq<string>, composerOf: string -> string, composer: string): nat
  {
    if files == [] then 0
    else (if composerOf(files[0]) == composer then 1 else 0) + CountFrom(files[1..], composerOf, composer)
  }

  lemma GroupStep<R>(files: seq<string>, extract: string -> R,
                     composerOf: string -> string, workOf: string -> string, i: nat)
    requires i < |files|
    ensures Group(files[..i + 1], extract, composerOf, workOf)
      == AddFile(Group(files[..i], extract, composerOf, workOf),
                 composerOf(files[i]), workOf(files[i]), extract(files[i]))
    ensures var counts := ProcessedCounts(files[..i], composerOf);
            var c := composerOf(files[i]);
            ProcessedCounts(files[..i + 1], composerOf)
              == counts[c := (if c in counts then counts[c] else 0) + 1]
  {
    assert files[..i + 1][..i] == files[..i];
  }

  /** One iteration of the loop below: once a missing composer has its
      empty entries, storing the result and counting the file have the
      effect of `AddFile` and of a counter increment, and keep the two maps
      on the same composers. */
  lemma StoreStep<R>(results: CorpusIndex<R>, counts: map<string, nat>, c: string, w: string, v: R)
    requires results.Keys == counts.Keys
    ensures var r := if c in results then results else results[c := map[]];
      var n := if c in results then counts else counts[c := 0];
      && c in r && c in n
      && r[c := r[c][w := v]] == AddFile(results, c, w, v)
      && n[c := n[c] + 1] == counts[c := (if c in counts then counts[c] else 0) + 1]
      && r[c := r[c][w := v]].Keys == n[c := n[c] + 1].Keys
  {
    if c !in results {
      assert c !in counts;
    }
  }

  /** `process_midi_files_parallel(midi_files)`, with the extractor and the
      two path-naming expressions of lines 105-106 as parameters (the
      pipeline passes `ComposerOf` and `WorkOf`). The per-composer counts are
      kept as in the source, where they are only printed. */
  method ProcessMidiFilesParallel<R>(midiFiles: seq<string>, extract: string -> R,
                                     composerOf: string -> string, workOf: string -> string)
    returns (results: CorpusIndex<R>)
    ensures results == Group(midiFiles, extract, composerOf, workOf)
  {
    results := map[];
    var processedCounts: map<string, nat> := map[];
    for i := 0 to |midiFiles|
      invariant results == Group(midiFiles[..i], extract, composerOf, workOf)
      invariant processedCounts == ProcessedCounts(midiFiles[..i], composerOf)
      invariant results.Keys == processedCounts.Keys
    {
      var midiFile := midiFiles[i];
      var composer := composerOf(midiFile);
      var midiName := workOf(midiFile);
      GroupStep(midiFiles, extract, composerOf, workOf, i);
      StoreStep(results, processedCounts, composer, midiName, extract(midiFile));
      if composer !in results {
        results := results[composer := map[]];
        processedCounts := processedCounts[composer := 0];
      }
      results := results[composer := results[composer][midiName := extract(midiFile)]];
      processedCounts := processedCounts[composer := processedCounts[composer] + 1];
    }
    assert midiFiles[..|midiFiles|] == midiFiles;
  }

  /** The composers of the chunk's result are exactly the composers of its
      files, and a composer's work names are exactly the work names of its
      files. */
  lemma {:induction false} GroupKeys<R>(files: seq<string>, extract: string -> R,
                                        composerOf: string -> string, workOf: string -> string,
                                        c: string, w: string)
    ensures var g := Group(files, extract, composerOf, workOf);
      && (c in g <==> exists k :: 0 <= k < |files| && composerOf(files[k]) == c)
      && (c in g ==> (w in g[c] <==>
            exists k :: 0 <= k < |files| && composerOf(files[k]) == c && workOf(files[k]) == w))
  {
    if files != [] {
      var n := |files| - 1;
      GroupKeys(files[..n], extract, composerOf, workOf, c, w);
      assert forall k :: 0 <= k < n ==> files[..n][k] == files[k];
    }
  }

  /** A (composer, work) pair holds the result of the LAST file of the chunk
      with that composer and work name: a later duplicate overwrites. */
  lemma {:induction false} GroupLastWins<R>(files: seq<string>, extract: string -> R,
                                            composerOf: string -> string, workOf: string -> string, k: nat)
    requires k < |files|
    requires forall j :: k < j < |files| ==>
      composerOf(files[j]) != composerOf(files[k]) || workOf(files[j]) != workOf(files[k])
    ensures var g := Group(files, extract, composerOf, workOf);
      && composerOf(files[k]) in g
      && workOf(files[k]) in g[composerOf(files[k])]
      && g[composerOf(files[k])][workOf(files[k])] == extract(files[k])
  {
    var n := |files| - 1;
    if k < n {
      assert forall j :: k < j < n ==> files[..n][j] == files[j];
      GroupLastWins(files[..n], extract, composerOf, workOf, k);
    }
  }

  lemma {:induction false} CountFromAppend(files: seq<string>, f: string,
                                           composerOf: string -> string, c: string)
    ensures CountFrom(files + [f], composerOf, c)
      == CountFrom(files, composerOf, c) + (if composerOf(f) == c then 1 else 0)
  {
    if files != [] {
      CountFromAppend(files[1..], f, composerOf, c);
      assert (files + [f])[1..] == files[1..] + [f];
    }
  }

  /** A composer has a processed count exactly when it has results, and the
      count is the number of its files in the chunk. */
  lemma {:induction false} ProcessedCountsCount<R>(files: seq<string>, extract: string -> R,
                                                   composerOf: string -> string, workOf: string -> string,
                                                   c: string)
    ensures c in ProcessedCounts(files, composerOf) <==> c in Group(files, extract, composerOf, workOf)
    ensures c in ProcessedCounts(files, composerOf)
      ==> ProcessedCounts(files, composerOf)[c] == CountFrom(files, composerOf, c)
    ensures c !in ProcessedCounts(files, composerOf) ==> CountFrom(files, composerOf, c) == 0
  {
    if files != [] {
      var n := |files| - 1;
      ProcessedCountsCount(files[..n], extract, composerOf, workOf, c);
      CountFromAppend(files[..n], files[n], composerOf, c);
      assert files[..n] + [files[n]] == files;
    }
  }

  /** No two files of composer `c` share a work name. */
  ghost predicate DistinctWorks(files: seq<string>, composerOf: string -> string,
                                workOf: string -> string, c: string)
  {
    forall i, j :: 0 <= i < j < |files| && composerOf(files[i]) == c && composerOf(files[j]) == c
      ==> workOf(files[i]) != workOf(files[j])
  }

  /** A composer never has more work names than processed files, and has as
      many when no two of its files share a work name; so the printed count
      exceeds the number of stored results only through duplicates. */
  lemma {:induction false} WorksAtMostFiles<R>(files: seq<string>, extract: string -> R,
                                               composerOf: string -> string, workOf: string -> string,
                                               c: string)
    requires c in Group(files, extract, composerOf, workOf)
    ensures c in ProcessedCounts(files, composerOf)
    ensures |Group(files, extract, composerOf, workOf)[c]| <= ProcessedCounts(files, composerOf)[c]
    ensures DistinctWorks(files, composerOf, workOf, c)
      ==> |Group(files, extract, composerOf, workOf)[c]| == ProcessedCounts(files, composerOf)[c]
  {
    ProcessedCountsCount(files, extract, composerOf, workOf, c);
    var n := |files| - 1;
    var init := files[..n];
    var last := files[n];
    var g := Group(files, extract, composerOf, workOf);
    var g0 := Group(init, extract, composerOf, workOf);
    assert forall k :: 0 <= k < n ==> init[k] == files[k];
    ProcessedCountsCount(init, extract, composerOf, workOf, c);
    if composerOf(last) == c {
      if c in g0 {
        WorksAtMostFiles(init, extract, composerOf, workOf, c);
        assert g[c].Keys == g0[c].Keys + {workOf(last)};
        if DistinctWorks(files, composerOf, workOf, c) {
          assert DistinctWorks(init, composerOf, workOf, c);
          GroupKeys(init, extract, composerOf, workOf, c, workOf(last));
          assert workOf(last) !in g0[c];
        }
      } else {
        assert g[c] == map[workOf(last) := extract(last)];
      }
    } else {
      WorksAtMostFiles(init, extract, composerOf, workOf, c);
      if DistinctWorks(files, composerOf, workOf, c) {
        assert DistinctWorks(init, composerOf, workOf, c);
      }
    }
  }
}
