/** The parts of Python's `posixpath` that the corpus pipeline relies on:
    `join` of two components, `basename`, `dirname` and the root half of
    `splitext`. Paths are `/`-separated strings. */
module PosixPath {

  /** `s.rfind(ch)`: the index of the last occurrence of `ch`, or -1. */
  function RFind(s: string, ch: char): (r: int)
    ensures -1 <= r < |s|
  {
    if s == [] then -1
    else if s[|s| - 1] == ch then |s| - 1
    else RFind(s[..|s| - 1], ch)
  }

  /** `rfind` finds an occurrence, and none comes after it. */
  lemma {:induction false} RFindLast(s: string, ch: char)
    ensures RFind(s, ch) >= 0 ==> s[RFind(s, ch)] == ch
    ensures forall k :: RFind(s, ch) < k < |s| ==> s[k] != ch
  {
    if s != [] && s[|s| - 1] != ch {
      RFindLast(s[..|s| - 1], ch);
    }
  }

  /** `os.path.join(a, b)` on POSIX: an absolute `b` replaces `a`; otherwise a
      separator is inserted unless `a` is empty or already ends with one. */
  function Join(a: string, b: string): string
  {
    if |b| > 0 && b[0] == '/' then b
    else if a == [] || a[|a| - 1] == '/' then a + b
    else a + "/" + b
  }

  /** `os.path.basename(p)`: everything after the last separator. */
  function BaseName(p: string): string
  {
    p[RFind(p, '/') + 1..]
  }

  /** Every character of `s` is `c`. */
  predicate All(s: string, c: char)
  {
    s == [] || (s[0] == c && All(s[1..], c))
  }

  /** `s.rstrip('/')`. */
  function RStripSlashes(s: string): string
  {
    if s != [] && s[|s| - 1] == '/' then RStripSlashes(s[..|s| - 1]) else s
  }

  /** `os.path.dirname(p)`: everything up to the last separator, with trailing
      separators removed unless the head consists of separators only. */
  function DirName(p: string): string
  {
    var head := p[..RFind(p, '/') + 1];
    if head != [] && !All(head, '/') then RStripSlashes(head) else head
  }

  /** `os.path.splitext(p)[0]`: the extension starts at the last dot of the
      final component, unless every character before that dot in the
      component is itself a dot (a leading-dot name has no extension). */
  function SplitExtRoot(p: string): string
  {
    var sepIndex := RFind(p, '/');
    var dotIndex := RFind(p, '.');
    if dotIndex > sepIndex && !All(p[sepIndex + 1..dotIndex], '.')
    then p[..dotIndex]
    else p
  }

  lemma {:induction false} AllMeans(s: string, c: char)
    ensures All(s, c) <==> forall k :: 0 <= k < |s| ==> s[k] == c
  {
    if s != [] {
      AllMeans(s[1..], c);
      assert forall k :: 1 <= k < |s| ==> s[k] == s[1..][k - 1];
    }
  }

  /** `join(a, b)`: an absolute `b` is the result; otherwise the result
      starts with `a`, ends with `b`, has a separator just before `b` when
      `a` is not empty, and inserts one character exactly when `a` is
      neither empty nor ends with a separator. */
  lemma JoinParts(a: string, b: string)
    ensures |b| > 0 && b[0] == '/' ==> Join(a, b) == b
    ensures !(|b| > 0 && b[0] == '/') ==>
      && |a| + |b| <= |Join(a, b)| <= |a| + |b| + 1
      && Join(a, b)[..|a|] == a
      && Join(a, b)[|Join(a, b)| - |b|..] == b
    ensures !(|b| > 0 && b[0] == '/') && a != [] ==> Join(a, b)[|Join(a, b)| - |b| - 1] == '/'
    ensures !(|b| > 0 && b[0] == '/') ==>
      (|Join(a, b)| == |a| + |b| <==> a == [] || a[|a| - 1] == '/')
  {
  }

  /** `basename(p)` is the longest suffix of `p` without a separator. */
  lemma BaseNameSuffix(p: string)
    ensures |BaseName(p)| <= |p| && BaseName(p) == p[|p| - |BaseName(p)|..]
    ensures '/' !in BaseName(p)
    ensures |BaseName(p)| < |p| ==> p[|p| - |BaseName(p)| - 1] == '/'
  {
    RFindLast(p, '/');
    BaseNameNoSeparator(p);
  }

  lemma BaseNameNoSeparator(p: string)
    ensures '/' !in BaseName(p)
  {
    RFindLast(p, '/');
    var i := RFind(p, '/') + 1;
    NoSeparatorAfter(p, i);
  }

  /** A suffix of `p` that starts after every separator holds none. */
  lemma NoSeparatorAfter(p: string, i: nat)
    requires i <= |p|
    requires forall k :: i <= k < |p| ==> p[k] != '/'
    ensures '/' !in p[i..]
  {
    var r := p[i..];
    assert forall j :: 0 <= j < |r| ==> r[j] == p[i + j];
  }

  /** `s.rstrip('/')` is a prefix of `s` that does not end with a separator
      and is followed only by separators. */
  lemma {:induction false} RStripSlashesParts(s: string)
    ensures |RStripSlashes(s)| <= |s| && RStripSlashes(s) == s[..|RStripSlashes(s)|]
    ensures RStripSlashes(s) == [] || RStripSlashes(s)[|RStripSlashes(s)| - 1] != '/'
    ensures forall k :: |RStripSlashes(s)| <= k < |s| ==> s[k] == '/'
  {
    if s != [] && s[|s| - 1] == '/' {
      RStripSlashesParts(s[..|s| - 1]);
    }
  }

  /** `dirname(p)` is a prefix of `p`, empty exactly when `p` has no
      separator, that ends without a separator unless it is made of
      separators only, in which case it is all of `p` before `basename(p)`;
      it ends before `basename(p)`, and only separators lie between the
      two. */
  lemma DirNameParts(p: string)
    ensures |DirName(p)| <= |p| && DirName(p) == p[..|DirName(p)|]
    ensures '/' !in p <==> DirName(p) == []
    ensures DirName(p) != [] && !All(DirName(p), '/') ==> DirName(p)[|DirName(p)| - 1] != '/'
    ensures |DirName(p)| <= |p| - |BaseName(p)|
    ensures All(DirName(p), '/') ==> |DirName(p)| == |p| - |BaseName(p)|
    ensures forall k :: |DirName(p)| <= k < |p| - |BaseName(p)| ==> p[k] == '/'
  {
    RFindLast(p, '/');
    var head := p[..RFind(p, '/') + 1];
    if head != [] && !All(head, '/') {
      RStripSlashesParts(head);
      var r := RStripSlashes(head);
      assert forall k :: |r| <= k < |head| ==> p[k] == head[k];
      AllMeans(head, '/');
      var i :| 0 <= i < |head| && head[i] != '/';
      assert i < |r|;
      assert r != [];
      AllMeans(r, '/');
      assert r[i] == head[i];
    } else if head != [] {
      assert p[|head| - 1] == '/';
    }
  }

  /** `splitext(p)[0]` is a prefix of `p`; when it is shorter, what it
      drops is one dot followed by text without a dot or a separator. */
  lemma SplitExtRootParts(p: string)
    ensures |SplitExtRoot(p)| <= |p| && SplitExtRoot(p) == p[..|SplitExtRoot(p)|]
    ensures SplitExtRoot(p) != p ==>
      && p[|SplitExtRoot(p)|] == '.'
      && '/' !in p[|SplitExtRoot(p)|..]
      && '.' !in p[|SplitExtRoot(p)| + 1..]
  {
    if SplitExtRoot(p) != p {
      RFindLast(p, '/');
      RFindLast(p, '.');
      var d := RFind(p, '.');
      var ext, tail := p[d..], p[d + 1..];
      assert forall j :: 0 <= j < |ext| ==> ext[j] == p[d + j] && ext[j] != '/';
      assert forall j :: 0 <= j < |tail| ==> tail[j] == p[d + 1 + j] && tail[j] != '.';
    }
  }

  /** If `s` is `x + y` where `x` is empty or ends with `ch` and `y` holds
      none, the last `ch` of `s` is the last character of `x`. */
  lemma RFindAfter(x: string, y: string, ch: char)
    requires x == [] || x[|x| - 1] == ch
    requires ch !in y
    ensures RFind(x + y, ch) == |x| - 1
  {
    var s := x + y;
    RFindLast(s, ch);
    assert forall k :: |x| <= k < |s| ==> s[k] == y[k - |x|];
    if x != [] {
      assert s[|x| - 1] == ch;
    }
  }

  /** The directory a scanned file lives in is `Join(base, composer)`; adding
      the file's own name and then taking `basename(dirname(..))` gives the
      composer back, and `basename` gives the name back. */
  lemma {:induction false} JoinedPathParts(base: string, composer: string, name: string)
    requires composer != [] && '/' !in composer
    requires name != [] && '/' !in name
    ensures BaseName(DirName(Join(Join(base, composer), name))) == composer
    ensures BaseName(Join(Join(base, composer), name)) == name
  {
    var dir := Join(base, composer);
    var prefix := if base == [] || base[|base| - 1] == '/' then base else base + "/";
    assert dir == prefix + composer;
    assert composer[|composer| - 1] != '/';
    assert dir[|dir| - 1] == composer[|composer| - 1];
    var path := Join(dir, name);
    var head := dir + "/";
    assert path == head + name;
    RFindAfter(head, name, '/');
    assert path[..RFind(path, '/') + 1] == head;
    assert !All(head, '/') by {
      AllMeans(head, '/');
      assert head[|dir| - 1] == composer[|composer| - 1];
    }
    assert RStripSlashes(head) == dir by {
      assert head[..|head| - 1] == dir;
    }
    assert DirName(path) == dir;
    RFindAfter(prefix, composer, '/');
    assert path[RFind(path, '/') + 1..] == name;
  }

  /** The work name of a file `stem.ext` whose stem has a character other
      than a dot is the stem: `splitext` removes exactly the extension. */
  lemma {:induction false} SplitExtRemovesExtension(stem: string, ext: string)
    requires '/' !in stem && '/' !in ext
    requires |ext| >= 1 && ext[0] == '.' && '.' !in ext[1..]
    requires exists k :: 0 <= k < |stem| && stem[k] != '.'
    ensures SplitExtRoot(stem + ext) == stem
  {
    var p := stem + ext;
    assert '/' !in p by {
      assert forall k :: 0 <= k < |p| ==> p[k] in stem || p[k] in ext;
    }
    assert [] + p == p;
    RFindAfter([], p, '/');
    assert p == (stem + ".") + ext[1..];
    RFindAfter(stem + ".", ext[1..], '.');
    assert RFind(p, '/') == -1 && RFind(p, '.') == |stem|;
    assert p[0..|stem|] == stem && p[..|stem|] == stem;
    AllMeans(stem, '.');
    assert !All(stem, '.');
  }

  /** A name whose characters before its last dot are all dots (`.mid`,
      `..mid`) has no extension: `splitext` leaves it whole. */
  lemma {:induction false} SplitExtKeepsDotName(dots: string, rest: string)
    requires All(dots, '.')
    requires '/' !in rest && '.' !in rest
    ensures SplitExtRoot(dots + "." + rest) == dots + "." + rest
  {
    var p := dots + "." + rest;
    AllMeans(dots, '.');
    assert [] + p == p;
    assert '/' !in p by {
      assert forall k :: 0 <= k < |p| ==> p[k] == '.' || p[k] in rest;
    }
    RFindAfter([], p, '/');
    RFindAfter(dots + ".", rest, '.');
    assert p[0..|dots|] == dots;
  }
}
