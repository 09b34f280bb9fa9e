# MIDI corpus bookkeeping, modelled in Dafny

`process_midi_pickled.py` builds a corpus index of composer MIDI files for a
classifier, in four stages:

- **Scanner.** `gather_midi_files` lists `base/<composer>` for each composer
  label, in sorted order. It keeps the regular files whose lower-cased name
  ends in `.mid`, in listing order.
- **Extractor.** `extract_midi_details` turns one parsed MIDI file into a
  feature record, or into an `{"error", "file"}` record. A feature record
  holds note names, lengths and octaves sorted by onset, the tempo points,
  the meters, the first key and the note count.
- **Grouping.** The main block deals the files round-robin to the cluster's
  workers. Each worker runs `process_midi_files_parallel`, which groups its
  chunk as composer → work name → record.
- **Merge and report.** The partial indexes are merged with `dict.update`,
  and a valid/error count is printed per composer.

The project models each stage in the form the code has:

- The three loops that build things step by step are methods with loop
  invariants: the scanner, the grouping pass and the merge. The double loop
  collecting notes is one too.
- Each such method is proved equal to a specification function of its inputs:
  a recursive definition (scanner, grouping, merge of several indexes), a
  map comprehension (merge of one index) or the record builder (notes).
- The comprehensions are functions: the partition, the sort and projections,
  the tempo and meter lists, the key choice and the tally.
- Lemmas about these functions state what the pipeline promises.

The main results:

- The round-robin chunks cover the input exactly once, keep its order and
  differ in size by at most one.
- The sort on onset is stable.
- Merging disjoint partial indexes gives the same dictionary in any order.
- When no two files share both composer and work name, the merged corpus is
  the same dictionary for every number of workers (its iteration order is
  not modelled, and it does change with the number of workers). Every file's record, feature
  or error, ends up in it.
- For the one-note file `dataset/alkan/Op1.mid`, one worker gives exactly
  the expected corpus.

Modules:

- `Results`: the Option and Result types.
- `PosixPath`: the POSIX `join`, `basename`, `dirname` and `splitext` used
  on paths.
- `Lexicographic`: Python's string order and `sorted`.
- `Scanner`, `Extractor`, `RoundRobin`, `Grouping`, `Merge`, `Tally`: one
  module per stage.
- `Pipeline`: the main block.

The code and the repository's written description disagree in six places.
The model follows the code in each:

- **Missing composer folder.** The description says it gives a zero count.
  The code (`process_midi_pickled.py:19-21`) skips it, so it gets no entry
  in `composer_counts`.
- **Scanner result.** The description says the scanner returns the file list
  and the per-composer counts. The code returns only the file list
  (`process_midi_pickled.py:39`); the counts are printed and dropped.
  `Scanner.GatherMidiFiles` returns the list alone.
- **Composer keys of the corpus.** The description says they are the
  configured labels whose folder exists. In the code a composer gets a key
  in `final_data` only when one of its files was scanned, so an existing
  folder without a `.mid` file gives no key. `Pipeline.TallyCountsFiles`
  states this: the report's composers are exactly those with scanned files.
- **Duplicate keys in the merge.** The description says a (composer, work)
  pair found in two chunks is reported as a merge ambiguity. The code
  overwrites silently, so the last chunk wins.
- **Zero workers.** The description says a run with zero workers fails
  before any file is read. The code scans the corpus first (line 129) and
  checks the worker count later (lines 150-151). No file is opened for
  parsing before the check in either case. How the cluster client behaves
  without engines before line 150 is outside the model (see "## Left out").
- **Duplicate work names.** Chunks split the list of files, which is not
  the same as splitting the set of (composer, work) keys. Two files of one
  composer whose names differ only in letter case of the extension
  (`a.mid`, `a.MID`) both have work name `a`. If they land in different
  chunks, their keys collide in the merge. The worker-count result
  therefore assumes distinct keys (`Pipeline.DistinctKeys`).
  `Pipeline.CaseVariantsDependOnWorkers` shows the collision: for a folder
  holding `Op0.mid`, `Op1.mid` and `Op1.MID`, one worker keeps the record of
  `Op1.MID` and two workers keep that of `Op1.mid`.

## Model

| member | source | states |
|---|---|---|
| PosixPath.JoinParts | process_midi_pickled.py:18 | `join(a, b)` is `b` when `b` is absolute; otherwise it starts with `a`, ends with `b`, has a separator before `b` when `a` is not empty, and adds one character exactly when `a` is neither empty nor ends with a separator |
| PosixPath.BaseNameSuffix | process_midi_pickled.py:105-106 | `basename(p)` is the longest suffix of `p` without a separator |
| PosixPath.DirNameParts | process_midi_pickled.py:105 | `dirname(p)` is a prefix of `p` that ends before `basename(p)`, with only separators between the two; it is empty exactly when `p` has no separator, ends without a separator unless it is all separators, and, when it is all separators, is the whole head before `basename(p)` (so `dirname("/b")` is `/` and `dirname("a/b")` is `a`) |
| PosixPath.SplitExtRootParts | process_midi_pickled.py:106 | `splitext(p)[0]` is a prefix of `p`; what it drops starts with a dot and holds no other dot and no separator |
| PosixPath.JoinedPathParts | process_midi_pickled.py:105-106 | for plain names, `basename(dirname(join(join(base, c), f)))` is `c` and `basename` is `f`: grouping recovers the composer and file name that the scanner joined |
| PosixPath.SplitExtRemovesExtension | process_midi_pickled.py:106 | `splitext(stem + ext)[0]` is `stem` when `ext` is one dot plus dot-free text and the stem is not all dots |
| PosixPath.SplitExtKeepsDotName | process_midi_pickled.py:106 | a name whose characters before its last dot are all dots (such as `.mid`) keeps its whole name as work name |
| Lexicographic.LeMeans | process_midi_pickled.py:14 | Python's `<=` on strings holds exactly when `a` is a prefix of `b` or, at their first difference, `a` has the smaller code point |
| Lexicographic.LeTotal | process_midi_pickled.py:14 | any two strings are comparable |
| Lexicographic.LeAntisymmetric | process_midi_pickled.py:14 | strings that are `<=` each other are equal |
| Lexicographic.LeTransitive | process_midi_pickled.py:14 | the order is transitive |
| Lexicographic.SortStrings | process_midi_pickled.py:14 | `sorted` returns a permutation of its input, of the same length |
| Lexicographic.SortStringsSorted | process_midi_pickled.py:14 | the result of `sorted` is ascending in Python's string order |
| Lexicographic.SortedPermutationUnique | process_midi_pickled.py:14 | two ascending lists with the same elements are equal |
| Lexicographic.SortStringsOrderInsensitive | process_midi_pickled.py:14 | inputs that are permutations of each other sort to the same list |
| Scanner.Lower | process_midi_pickled.py:26 | the ASCII lowering used for the name test maps each character to its ASCII lower case (`A`-`Z` to `a`-`z`, all others unchanged), so it keeps the length |
| Scanner.IsMidiNameEndsWith | process_midi_pickled.py:26 | the name test holds exactly when `name.lower()` ends with `.mid` |
| Scanner.ScanComposerDirectory | process_midi_pickled.py:23-28 | the loop over one folder listing keeps the regular `.mid` files in listing order, and appends exactly those to the running file list |
| Scanner.GatherMidiFiles | process_midi_pickled.py:7-39 | the nested loops return the files of the composers in sorted order, each composer's files in listing order. `composer_counts` is kept as a local that matches `ComposerCounts` and is not returned |
| Scanner.MidiPathsMembers | process_midi_pickled.py:24-28 | a path is kept from a listing exactly when it joins the folder with the name of an entry that is a regular file with a `.mid` name in any case |
| Scanner.GatheredFilesAreMidi | process_midi_pickled.py:17-28 | a path is returned exactly when it is `join(join(base, c), name)` for a listed composer `c` whose folder exists and a regular `.mid` file `name` in that folder |
| Scanner.GatherOrderInsensitive | process_midi_pickled.py:14-17 | the file list does not depend on the order in which the composer labels are given |
| Scanner.ComposerCountsEntries | process_midi_pickled.py:19-32 | a composer has a count exactly when it is listed and its folder exists (a missing folder gets no entry), and the count is its number of MIDI files |
| Scanner.ScannedPathComposer | process_midi_pickled.py:18-25 | with plain names, the parent-folder name of every returned path is one of the composer labels |
| RoundRobin.Partition | process_midi_pickled.py:153 | there are exactly `num_workers` chunks |
| RoundRobin.SliceSize | process_midi_pickled.py:153 | `s[i::W]` has ⌈(L−i)/W⌉ elements |
| RoundRobin.SliceAt | process_midi_pickled.py:153 | element `k` of `s[i::W]` is `s[i + k·W]` |
| RoundRobin.PartitionChunks | process_midi_pickled.py:153 | chunk `i` has ⌈(L−i)/W⌉ elements and its position `k` holds input element `i + k·W`, so it keeps the input order |
| RoundRobin.CeilingByDivision | process_midi_pickled.py:153 | for every chunk index `i < W`, empty chunks included, that size is `(L − i + W − 1) div W` |
| RoundRobin.PartitionCover | process_midi_pickled.py:153 | input index `j` is in chunk `j mod W` at position `j div W`, and at no other chunk position |
| RoundRobin.PartitionSizesSum | process_midi_pickled.py:153 | the chunk sizes add up to the input length |
| RoundRobin.PartitionBalanced | process_midi_pickled.py:153 | a later chunk is never longer and at most one shorter than an earlier one |
| Extractor.Octave | process_midi_pickled.py:55 | `pitch // 12 - 1` is the `r` with `12(r+1) ≤ pitch < 12(r+2)`, and lies in −1..9 for pitches 0..127 |
| Extractor.InsertByOnset | process_midi_pickled.py:58-61 | one insertion step adds exactly one tuple and starts with it or with the old head |
| Extractor.SortByOnset | process_midi_pickled.py:58-61 | the sort returns a permutation of the zipped tuples |
| Extractor.SortByOnsetSorted | process_midi_pickled.py:58-61 | the sorted tuples have non-decreasing onsets |
| Extractor.InsertWithOnset | process_midi_pickled.py:58-61 | inserting a tuple into the sorted list puts it ahead of the tuples with its own onset and leaves the tuples of every onset in their order |
| Extractor.SortByOnsetStable | process_midi_pickled.py:58-61 | for each onset value, the tuples with that onset keep their collection order (track, then note) |
| Extractor.Tempos | process_midi_pickled.py:68-69 | the tempo list has min(|offsets|, |bpms|) points, the `k`-th pairing `offsets[k]` with `bpms[k]` |
| Extractor.Meters | process_midi_pickled.py:72-75 | one meter per time-signature change, in order, the `k`-th with the `k`-th change's time, numerator and denominator |
| Extractor.OverallKey | process_midi_pickled.py:81-84 | `overall_key` is `None` exactly when there is no key signature, otherwise the first one's key number |
| Extractor.FeaturesOf | process_midi_pickled.py:63-94 | `notes`, `note_lengths` and `octaves` have the same length, equal to `num_notes` and to the number of collected notes |
| Extractor.ExtractResult | process_midi_pickled.py:42-97 | the result is an error record exactly when parsing fails, then with the exception message and the file path; a feature record counts all collected notes and has no key exactly when there is no key signature |
| Extractor.ExtractMidiDetails | process_midi_pickled.py:42-97 | the double loop and sort build the success record of `FeaturesOf`. A parse failure gives exactly the `{"error": message, "file": path}` record and a success never gives one |
| Extractor.FeaturesDescribeSortedNotes | process_midi_pickled.py:51-65 | position `k` of the three lists is the name, `end − start` and octave of the `k`-th note in onset order. The sorted notes are a permutation of the collected ones with non-decreasing onsets |
| Extractor.OctavesInRange | process_midi_pickled.py:55 | with pitches in 0..127 every recorded octave lies in −1..9 |
| Grouping.ProcessMidiFilesParallel | process_midi_pickled.py:100-119 | the per-file loop builds `Group` of the chunk. `processed_counts` is a local matching `ProcessedCounts`, with the same composers as the results |
| Grouping.GroupKeys | process_midi_pickled.py:104-112 | the composer keys are exactly the composers of the chunk's files, and a composer's work keys are exactly its files' work names |
| Grouping.GroupLastWins | process_midi_pickled.py:112 | a file's record is stored unless a later file of the chunk has the same composer and work name, so the later file wins |
| Grouping.ProcessedCountsCount | process_midi_pickled.py:108-113 | a composer is counted exactly when it has results, and its count is its number of files in the chunk |
| Grouping.WorksAtMostFiles | process_midi_pickled.py:108-113 | a composer has at most as many works as counted files, and as many when its work names are distinct |
| Merge.MergeOne | process_midi_pickled.py:162-165 | one pass of the inner loop gives every composer of the partial index the union of its old works and the partial ones, the partial ones winning on a shared work name, and leaves the other composers unchanged; this holds whatever order the composers are visited in |
| Merge.MergePartials | process_midi_pickled.py:160-165 | the outer merge loop computes `MergeAll` of the partial indexes in list order |
| Merge.MergeKeys | process_midi_pickled.py:160-165 | the merged composers are the union of the partial composer sets, and a composer's merged works are the union of its works in the partial indexes |
| Merge.MergeLastWins | process_midi_pickled.py:160-165 | each merged entry comes from the last partial index, in list order, that holds its key |
| Merge.MergeValueDisjoint | process_midi_pickled.py:160-165 | when no key is in two partial indexes, each merged entry is the value from the one partial index that holds it |
| Merge.MergeOrderIndependent | process_midi_pickled.py:160-165 | merging a permutation of disjoint partial indexes gives the same dictionary (the permutation is disjoint too) |
| Tally.HasError | process_midi_pickled.py:177-178 | `"error" in f` holds exactly for the error record, whose keys are `error` and `file`, and for no feature record |
| Tally.SplitWorks | process_midi_pickled.py:177-178 | every work is either a feature record or an error record, so the two counts add up to the entry count |
| Tally.TallyWorks | process_midi_pickled.py:176-179 | the total is the entry count, the valid count is the number of feature records and the error count the number of error records; so they add up to the total, and each is zero exactly when every entry has the other shape |
| Tally.TallyAll | process_midi_pickled.py:176-179 | the report covers exactly the merged composers, and each composer's line is the tally of its works |
| Pipeline.SortedComposers | process_midi_pickled.py:123 | `sorted(COMPOSERS)` is alkan, handel, mozart, scarlatti, schubert, victoria |
| Pipeline.GroupEach | process_midi_pickled.py:157 | mapping the grouping pass over the chunks gives one partial index per chunk |
| Pipeline.Partials | process_midi_pickled.py:153-157 | `map_sync` returns one partial index per worker |
| Pipeline.MapSync | process_midi_pickled.py:157 | running the grouping pass on each chunk in order gives the chunks' partial indexes, in chunk order |
| Pipeline.BuildCorpus | process_midi_pickled.py:121-165 | the run fails with the `RuntimeError` message exactly when there are no workers. Otherwise the corpus is the in-order merge of the grouped round-robin chunks of the scanned files |
| Pipeline.ChunkKeys | process_midi_pickled.py:104-112 | a worker's composer and work keys are those of the input files at indexes `j` with `j mod W` equal to the worker's number |
| Pipeline.ChunkValue | process_midi_pickled.py:112 | with distinct keys, the worker that receives a file records its result under that file's keys |
| Pipeline.PartialsDisjoint | process_midi_pickled.py:153-157 | with distinct keys, no (composer, work) pair is in two partial indexes |
| Pipeline.CorpusComposers | process_midi_pickled.py:153-165 | for any positive number of workers, the merged corpus has exactly the composers of one grouping pass over all files |
| Pipeline.CorpusWorks | process_midi_pickled.py:153-165 | for any positive number of workers, each merged composer is a composer of one grouping pass over all files and has exactly its work names there |
| Pipeline.CorpusValue | process_midi_pickled.py:153-165 | with distinct keys, each file's record is in the merged corpus under its composer and work name, whatever the number of workers |
| Pipeline.CorpusIndependentOfWorkerCount | process_midi_pickled.py:153-165 | with distinct keys, the merged corpus for any positive number of workers equals the index of one grouping pass over all files |
| Pipeline.EveryFileRecorded | process_midi_pickled.py:96-97 | with distinct keys and any number of workers, every scanned file is in the corpus under its composer and work name: as `{"error": message, "file": path}` exactly when its parse failed, which the report counts as an error, and otherwise as the feature record of its parsed contents |
| Pipeline.TallyCountsFiles | process_midi_pickled.py:176-179 | with distinct keys, the report lists exactly the composers that have scanned files, and prints each one's number of files as its total |
| Pipeline.OneNoteFileFeatures | process_midi_pickled.py:86-94 | one C4 note from 0 s to 1 s, 120 bpm and 4/4 give notes `["C4"]`, lengths `[1.0]`, octaves `[4]`, no key, one note, one tempo point and one meter |
| Pipeline.ExampleScanFiles | process_midi_pickled.py:17-28 | scanning `dataset` with folder `alkan` holding `Op1.mid` returns `dataset/alkan/Op1.mid` |
| Pipeline.ExampleComposer | process_midi_pickled.py:105 | the composer of `dataset/alkan/Op1.mid` is `alkan` |
| Pipeline.ExampleWork | process_midi_pickled.py:106 | the work name of `dataset/alkan/Op1.mid` is `Op1` |
| Pipeline.SingleFileGroup | process_midi_pickled.py:153-165 | with one worker, a one-file corpus is a single composer holding a single work |
| Pipeline.OneFileCorpus | process_midi_pickled.py:121-165 | the one-note file `dataset/alkan/Op1.mid` with one worker gives exactly `{"alkan": {"Op1": <that record>}}` |
| Pipeline.DuplicateKeyDependsOnWorkers | process_midi_pickled.py:153-165 | when the last two of three files share composer and work name, one worker keeps the third file's record and two workers keep the second file's |
| Pipeline.CaseVariantListing | process_midi_pickled.py:23-28 | the listing `Op0.mid`, `Op1.mid`, `Op1.MID` yields the three joined paths in listing order |
| Pipeline.CaseVariantScan | process_midi_pickled.py:17-28 | scanning a folder with `Op0.mid`, `Op1.mid` and `Op1.MID` returns all three paths in listing order |
| Pipeline.CaseVariantNames | process_midi_pickled.py:105-106 | the scanned path `dataset/alkan/Op1.MID` has composer `alkan` and work name `Op1`, the same names as `Op1.mid` |
| Pipeline.UpperCaseExtension | process_midi_pickled.py:106 | `splitext` removes the upper-case extension of `Op1.MID`, leaving `Op1` |
| Pipeline.CaseVariantEntries | process_midi_pickled.py:26 | `Op0.mid`, `Op1.mid` and `Op1.MID` all pass the regular-file and `.mid` test |
| Pipeline.CaseVariantsDependOnWorkers | process_midi_pickled.py:121-165 | for that folder, with both files failing to parse, the corpus holds the record of `Op1.MID` with one worker and of `Op1.mid` with two, so the two corpora differ |

## Left out

- MIDI decoding by `pretty_midi` is not modelled. This covers `PrettyMIDI(...)`, `.instruments`, `.notes`, `get_tempo_changes()`, `time_signature_changes` and `key_signature_changes`. Their outcome is an input: the parsed data, or the message of the exception the library raised. `note_number_to_name` is a function parameter.
- Any exception raised while building the record is treated as a parse failure. In the model, only the parse can fail.
- Times and tempi are exact reals, not floats: no rounding. `end - start` is not checked to be non-negative, as in the code.
- The filesystem is an input map: each folder for which `os.path.isdir` holds maps to its `os.listdir` entries, each with its `isfile` answer.
- `Scanner.Lower`: `str.lower()` is modelled for ASCII letters only, so the model keeps the length where Python may not (`"İ".lower()` has two code points). Apart from `M`, `I`, `D`, Python lowers no character to text that can complete the suffix `.mid` (`İ` lowers to `i` followed by a combining dot), so the `.mid` test gives Python's answer; only the lowering of non-ASCII characters elsewhere in a name is not modelled.
- The ipyparallel cluster is not modelled: `Client`, `sync_imports`, `push`. The worker count is a parameter. `map_sync` is a loop over the chunks in order, so concurrency and worker failure are not modelled.
- `Pipeline.BuildCorpus`: `rc[:]` (line 133) is not modelled. In ipyparallel a view over a cluster with no engines may raise before the worker count is checked at lines 150-151, so the modelled `RuntimeError` may not be reachable in practice.
- `PosixPath`: the model follows POSIX path rules. The hard-coded `C:/…` base directory (line 126) means the script runs where `os.path` is `ntpath`. There, the joins at lines 18 and 25 insert `\`, so scanned paths and the `file` field of error records (line 97) differ from the model's `/`. Composer and work names do not change, because `ntpath` splits on both separators. A case-insensitive Windows folder cannot hold both `Op1.mid` and `Op1.MID`, so `Pipeline.CaseVariantsDependOnWorkers` needs a case-sensitive filesystem.
- Pickling the corpus to `midi_data_all.pkl` is not modelled.
- All `print` output is not modelled, including its order: the sorted composer order of the final report. `composer_counts` and `processed_counts` are kept as method locals with invariants, because the code only prints them.
- `Pipeline.BuildCorpus`: the composer list is a parameter. The script passes `COMPOSERS`, whose sorted order `Pipeline.SortedComposers` states. The base directory is also a parameter, in place of the hard-coded Windows path.
- `Grouping.ProcessMidiFilesParallel`: the two naming expressions of lines 105-106 are parameters. `Pipeline.BuildCorpus` passes `Grouping.ComposerOf` and `Grouping.WorkOf`, which model them.
- `Merge.MergeOne`: the composers of one partial index are visited in an arbitrary order, not insertion order. The merged dictionary is the same; its iteration order is not modelled.
- `Merge.MergeOne`, `Merge.MergePartials`, `Grouping.ProcessMidiFilesParallel`, `Pipeline.CorpusIndependentOfWorkerCount`: the model's indexes are maps, so dictionary insertion order is not modelled, although `final_data` is pickled with it and it changes with the number of workers. For the sorted files `d/a/x.mid`, `d/b/y.mid`, `d/c/z.mid`, one worker gives composer order a, b, c, while two workers give chunks `[a/x, c/z]` and `[b/y]` and order a, c, b; the work order inside a composer changes the same way. Each "does not depend" result holds for dictionary equality only.
