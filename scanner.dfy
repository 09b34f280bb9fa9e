/** The corpus scanner (`gather_midi_files`): for each composer label, in
    sorted order, list `base/<label>` and keep the regular files whose name
    ends in `.mid` in any letter case. The filesystem is an input value. */
module Scanner {
  import opened PosixPath
  import opened Lexicographic

  /** One name returned by `os.listdir`, with what `os.path.isfile` says of
      the joined path. */
  datatype Entry = Entry(name: string, isFile: bool)

  /** The directories for which `os.path.isdir` holds, each with its listing
      in `os.listdir` order. */
  type FileSystem = map<string, seq<Entry>>

  /** `str.lower` on one character (ASCII letters only). */
  function LowerAscii(c: char): char
  {
    if 'A' <= c <= 'Z' then (c as int + 32) as char else c
  }

  /** `name.lower().endswith(".mid")`. */
  predicate IsMidiName(name: string)
  {
    var n := |name|;
    && n >= 4
    && LowerAscii(name[n - 4]) == '.' && LowerAscii(name[n - 3]) == 'm'
    && LowerAscii(name[n - 2]) == 'i' && LowerAscii(name[n - 1]) == 'd'
  }

  /** `s.lower()` restricted to ASCII: each letter `A`-`Z` lowered, every
      other character kept, one character at a time. */
  function Lower(s: string): (r: string)
    ensures |r| == |s|
    ensures forall k :: 0 <= k < |s| ==> r[k] == LowerAscii(s[k])
  {
    if s == [] then [] else [LowerAscii(s[0])] + Lower(s[1..])
  }

  lemma FourCharsMid(t: string)
    requires |t| == 4
    ensures t == ".mid" <==> t[0] == '.' && t[1] == 'm' && t[2] == 'i' && t[3] == 'd'
  {
    assert ".mid"[0] == '.' && ".mid"[1] == 'm' && ".mid"[2] == 'i' && ".mid"[3] == 'd';
  }

  /** The character test is `name.lower().endswith(".mid")`. */
  lemma IsMidiNameEndsWith(name: string)
    ensures IsMidiName(name) <==> |name| >= 4 && Lower(name)[|name| - 4..] == ".mid"
  {
    if |name| >= 4 {
      var n, lower := |name|, Lower(name);
      var tail := lower[n - 4..];
      assert lower[n - 4] == LowerAscii(name[n - 4]) && lower[n - 3] == LowerAscii(name[n - 3]);
      assert lower[n - 2] == LowerAscii(name[n - 2]) && lower[n - 1] == LowerAscii(name[n - 1]);
      assert |tail| == 4 && tail[0] == lower[n - 4] && tail[1] == lower[n - 3];
      assert tail[2] == lower[n - 2] && tail[3] == lower[n - 1];
      FourCharsMid(tail);
    }
  }

  /** The test at process_midi_pickled.py:26. */
  predicate IsMidiEntry(e: Entry)
  {
    e.isFile && IsMidiName(e.name)
  }

  /** The paths the inner loop appends for one directory listing. */
  function MidiPaths(dir: string, listing: seq<Entry>): seq<string>
  {
    if listing == [] then []
    else
      var e := listing[|listing| - 1];
      MidiPaths(dir, listing[..|listing| - 1])
        + (if IsMidiEntry(e) then [Join(dir, e.name)] else [])
  }

  /** The files of one composer, or none when its directory is missing. */
  function ComposerFiles(base: string, composer: string, fs: FileSystem): seq<string>
  {
    var dir := Join(base, composer);
    if dir in fs then MidiPaths(dir, fs[dir]) else []
  }

  /** `midi_files` after the outer loop has visited `composers`. */
  function AllComposerFiles(base: string, composers: seq<string>, fs: FileSystem): seq<string>
  {
    if composers == [] then []
    else
      AllComposerFiles(base, composers[..|composers| - 1], fs)
        + ComposerFiles(base, composers[|composers| - 1], fs)
  }

  /** `composer_counts` after the outer loop has visited `composers`: only a
      composer whose directory exists gets an entry. */
  function ComposerCounts(base: string, composers: seq<string>, fs: FileSystem): map<string, nat>
  {
    if composers == [] then map[]
    else
      var c := composers[|composers| - 1];
      var counts := ComposerCounts(base, composers[..|composers| - 1], fs);
      if Join(base, c) in fs then counts[c := |ComposerFiles(base, c, fs)|] else counts
  }

  lemma MidiPathsStep(dir: string, listing: seq<Entry>, j: nat)
    requires j < |listing|
    ensures MidiPaths(dir, listing[..j + 1]) == MidiPaths(dir, listing[..j])
      + (if IsMidiEntry(listing[j]) then [Join(dir, listing[j].name)] else [])
  {
    assert listing[..j + 1][..j] == listing[..j];
  }

  lemma ComposerStep(base: string, composers: seq<string>, i: nat, fs: FileSystem)
    requires i < |composers|
    ensures AllComposerFiles(base, composers[..i + 1], fs)
      == AllComposerFiles(base, composers[..i], fs) + ComposerFiles(base, composers[i], fs)
    ensures ComposerCounts(base, composers[..i + 1], fs)
      == if Join(base, composers[i]) in fs
         then ComposerCounts(base, composers[..i], fs)[composers[i] := |ComposerFiles(base, composers[i], fs)|]
         else ComposerCounts(base, composers[..i], fs)
  {
    assert composers[..i + 1][..i] == composers[..i];
  }

  /** The inner loop of `gather_midi_files` over one existing composer
      directory: each regular `.mid` file is appended both to the running
      list of all files and to the composer's own list. */
  method ScanComposerDirectory(composerDir: string, listing: seq<Entry>, midiFiles: seq<string>)
    returns (allFiles: seq<string>, composerFiles: seq<string>)
    ensures composerFiles == MidiPaths(composerDir, listing)
    ensures allFiles == midiFiles + composerFiles
  {
    allFiles := midiFiles;
    composerFiles := [];
    for j := 0 to |listing|
      invariant composerFiles == MidiPaths(composerDir, listing[..j])
      invariant allFiles == midiFiles + composerFiles
    {
      var f := listing[j];
      var fullPath := Join(composerDir, f.name);
      MidiPathsStep(composerDir, listing, j);
      if f.isFile && IsMidiName(f.name) {
        allFiles := allFiles + [fullPath];
        composerFiles := composerFiles + [fullPath];
      }
    }
    assert listing[..|listing|] == listing;
  }

  /** `gather_midi_files(base_directory, composers)`. The per-composer counts
      are kept as in the source, where they are only printed. */
  method GatherMidiFiles(baseDirectory: string, composers: seq<string>, fs: FileSystem)
    returns (midiFiles: seq<string>)
    ensures midiFiles == AllComposerFiles(baseDirectory, SortStrings(composers), fs)
  {
    var sorted := SortStrings(composers);
    midiFiles := [];
    var composerCounts: map<string, nat> := map[];
    for i := 0 to |sorted|
      invariant midiFiles == AllComposerFiles(baseDirectory, sorted[..i], fs)
      invariant composerCounts == ComposerCounts(baseDirectory, sorted[..i], fs)
    {
      var composer := sorted[i];
      var composerDir := Join(baseDirectory, composer);
      ComposerStep(baseDirectory, sorted, i, fs);
      if composerDir in fs {
        var composerFiles;
        midiFiles, composerFiles := ScanComposerDirectory(composerDir, fs[composerDir], midiFiles);
        composerCounts := composerCounts[composer := |composerFiles|];
      }
    }
    assert sorted[..|sorted|] == sorted;
  }

  lemma {:induction false} MidiPathsMembers(dir: string, listing: seq<Entry>, p: string)
    ensures p in MidiPaths(dir, listing)
        <==> exists e :: e in listing && IsMidiEntry(e) && p == Join(dir, e.name)
  {
    if listing != [] {
      var init := listing[..|listing| - 1];
      MidiPathsMembers(dir, init, p);
      assert listing == init + [listing[|listing| - 1]];
    }
  }

  /** A path is returned exactly when it joins a listed composer's directory
      with the name of a regular file of that directory whose lower-cased
      name ends in `.mid`. */
  lemma {:induction false} GatheredFilesAreMidi(base: string, composers: seq<string>, fs: FileSystem, p: string)
    ensures p in AllComposerFiles(base, composers, fs)
        <==> exists c, e :: c in composers && Join(base, c) in fs && e in fs[Join(base, c)]
                            && IsMidiEntry(e) && p == Join(Join(base, c), e.name)
  {
    if composers != [] {
      var init := composers[..|composers| - 1];
      var last := composers[|composers| - 1];
      GatheredFilesAreMidi(base, init, fs, p);
      assert composers == init + [last];
      if Join(base, last) in fs {
        MidiPathsMembers(Join(base, last), fs[Join(base, last)], p);
      }
    }
  }

  /** The file list does not depend on the order in which the composer
      labels are given, because they are sorted first. */
  lemma GatherOrderInsensitive(base: string, a: seq<string>, b: seq<string>, fs: FileSystem)
    requires multiset(a) == multiset(b)
    ensures AllComposerFiles(base, SortStrings(a), fs) == AllComposerFiles(base, SortStrings(b), fs)
  {
    SortStringsOrderInsensitive(a, b);
  }

  /** A composer has a count exactly when it is listed and its directory
      exists (a missing directory gets no entry, not a zero), and the count
      is the number of that composer's MIDI files. */
  lemma {:induction false} ComposerCountsEntries(base: string, composers: seq<string>, fs: FileSystem, c: string)
    ensures c in ComposerCounts(base, composers, fs) <==> c in composers && Join(base, c) in fs
    ensures c in ComposerCounts(base, composers, fs)
        ==> ComposerCounts(base, composers, fs)[c] == |ComposerFiles(base, c, fs)|
  {
    if composers != [] {
      var init := composers[..|composers| - 1];
      ComposerCountsEntries(base, init, fs, c);
      assert composers == init + [composers[|composers| - 1]];
    }
  }

  /** Labels and listed names that are non-empty and free of separators. */
  predicate PlainNames(composers: seq<string>, fs: FileSystem)
  {
    && (forall c :: c in composers ==> c != [] && '/' !in c)
    && (forall d, e :: d in fs && e in fs[d] ==> e.name != [] && '/' !in e.name)
  }

  /** Every scanned path names, as its parent directory, one of the composer
      labels: the grouping step recovers the label from the path. */
  lemma ScannedPathComposer(base: string, composers: seq<string>, fs: FileSystem, p: string)
    requires PlainNames(composers, fs)
    requires p in AllComposerFiles(base, composers, fs)
    ensures BaseName(DirName(p)) in composers
  {
    GatheredFilesAreMidi(base, composers, fs, p);
    var c, e :| c in composers && Join(base, c) in fs && e in fs[Join(base, c)]
                && IsMidiEntry(e) && p == Join(Join(base, c), e.name);
    JoinedPathParts(base, c, e.name);
  }
}
