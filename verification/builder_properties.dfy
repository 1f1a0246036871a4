/**
 * What the bundle builder guarantees: the whole-second staleness rule, what
 * one file contributes, outputs kept in declared order, the filter chain, the
 * artifact-write condition, idempotent rebuilds, and groups that cannot spoil
 * one another.
 */
module BuildProperties {
  import opened Files
  import opened Utils
  import opened Config
  import opened Builder

  /** `a` and `b` hold the same file (or both no file) at `p`. */
  predicate AgreeOn(a: Fs, b: Fs, p: Path)
  {
    (p in a.files <==> p in b.files) && (p in a.files ==> a.files[p] == b.files[p])
  }

  // ---------------------------------------------------------------------------
  // Staleness

  /**
   * Staleness is decided in whole seconds: a source rewritten later within the
   * same second as its cache entry is not modified, and its cache is reused.
   */
  lemma SameSecondEditIsNotModified(sourceTime: int, cacheTime: int)
    requires cacheTime <= sourceTime < (Unix(cacheTime) + 1) * NanosPerSecond
    ensures Unix(sourceTime) == Unix(cacheTime)
    ensures !Modified(sourceTime, Ok(cacheTime))
  {
  }

  // ---------------------------------------------------------------------------
  // One file

  /** A file whose source cannot be stat'd marks the group errored and contributes nothing. */
  lemma MissingSourceIsSkipped(s: Settings, skips: set<Path>, skip: bool, st: GroupState, file: Path)
    requires SourcePath(s, file) !in st.fs.files
    ensures FileStep(s, skips, skip, st, file) == st.(hasError := true)
  {
  }

  /**
   * A re-read file (global skip, no cache entry, or a source newer in whole
   * seconds) contributes its text, unfiltered when it is a skip file and run
   * through the chain otherwise. The group counts as modified only once the
   * cache entry holds that text; a failed cache write marks it errored instead.
   */
  lemma ReprocessedFileIsCached(s: Settings, skips: set<Path>, skip: bool, st: GroupState, file: Path)
    requires SourcePath(s, file) in st.fs.files && SourcePath(s, file) !in st.fs.readFaults
    requires skip || CachePath(s, file) !in st.fs.files ||
      Unix(st.fs.files[SourcePath(s, file)].mtime) > Unix(st.fs.files[CachePath(s, file)].mtime)
    ensures var raw := st.fs.files[SourcePath(s, file)].content;
      var out := if file in skips then raw else ApplyFilters(s.filters, raw);
      var r := FileStep(s, skips, skip, st, file);
      var ok := WriteFile(st.fs, CachePath(s, file), out).ok;
      && r.sources == st.sources + [out]
      && r.hasError == (st.hasError || !ok)
      && r.hasModified == (st.hasModified || ok)
      && (ok ==> r.fs.files == st.fs.files[CachePath(s, file) := File(out, st.fs.now)])
  {
  }

  /**
   * Without the global skip flag, a file whose source is not newer than its
   * cache entry in whole seconds is read back from the cache verbatim: nothing
   * is written and the group is not marked modified.
   */
  lemma FreshFileIsReadFromCache(s: Settings, skips: set<Path>, st: GroupState, file: Path)
    requires SourcePath(s, file) in st.fs.files && CachePath(s, file) in st.fs.files
    requires CachePath(s, file) !in st.fs.readFaults
    requires Unix(st.fs.files[SourcePath(s, file)].mtime) <= Unix(st.fs.files[CachePath(s, file)].mtime)
    ensures FileStep(s, skips, false, st, file) ==
      st.(sources := st.sources + [st.fs.files[CachePath(s, file)].content])
  {
  }

  /**
   * A cache write that runs out of space after the file was opened leaves the
   * entry holding only the part of the output that fit, stamped with the
   * current time, while the group still counts the whole output and is marked
   * errored. A later build without the skip flag finds that entry fresh and
   * reads back the cut-off text, a proper prefix of the output.
   */
  lemma FailedCacheWriteLeavesPrefix(s: Settings, skips: set<Path>, skip: bool, st: GroupState, file: Path)
    requires SourcePath(s, file) in st.fs.files && SourcePath(s, file) !in st.fs.readFaults
    requires skip || CachePath(s, file) !in st.fs.files ||
      Unix(st.fs.files[SourcePath(s, file)].mtime) > Unix(st.fs.files[CachePath(s, file)].mtime)
    requires Dir(CachePath(s, file)) != [] && Dir(CachePath(s, file)) !in st.fs.mkdirFaults
    requires CachePath(s, file) !in st.fs.createFaults
    requires !Fits(st.fs, CachePath(s, file), Output(s, skips, file, st.fs.files[SourcePath(s, file)].content))
    ensures var out := Output(s, skips, file, st.fs.files[SourcePath(s, file)].content);
      var kept := out[..st.fs.writeLimits[CachePath(s, file)]];
      var r := FileStep(s, skips, skip, st, file);
      && |kept| < |out| && out[..|kept|] == kept
      && r.sources == st.sources + [out]
      && r.hasError && r.hasModified == st.hasModified
      && r.fs.files == st.fs.files[CachePath(s, file) := File(kept, st.fs.now)]
      && (CachePath(s, file) != SourcePath(s, file) && CachePath(s, file) !in st.fs.readFaults &&
          Unix(st.fs.files[SourcePath(s, file)].mtime) <= Unix(st.fs.now) ==>
            FileStep(s, skips, false, r.(hasError := false), file).sources == r.sources + [kept])
  {
    var r := FileStep(s, skips, skip, st, file);
    if CachePath(s, file) != SourcePath(s, file) && CachePath(s, file) !in st.fs.readFaults &&
       Unix(st.fs.files[SourcePath(s, file)].mtime) <= Unix(st.fs.now) {
      FreshFileIsReadFromCache(s, skips, r.(hasError := false), file);
    }
  }

  /**
   * With an empty cache root the cache entry of a file is its source. The
   * source is then never newer than itself: without the skip flag the raw
   * source is read back unfiltered, and with it the source file itself is
   * overwritten by its output.
   */
  lemma EmptyCacheRootIsSourceTree(s: Settings, skips: set<Path>, st: GroupState, file: Path)
    requires s.tmpPath == []
    ensures CachePath(s, file) == SourcePath(s, file)
    ensures var src := SourcePath(s, file);
      src in st.fs.files && src !in st.fs.readFaults ==>
        FileStep(s, skips, false, st, file) == st.(sources := st.sources + [st.fs.files[src].content])
    ensures var src := SourcePath(s, file);
      src in st.fs.files && src !in st.fs.readFaults ==>
        var out := Output(s, skips, file, st.fs.files[src].content);
        var w := WriteFile(st.fs, src, out);
        FileStep(s, skips, true, st, file) ==
          GroupState(w.fs, st.sources + [out], st.hasError || !w.ok, st.hasModified || w.ok)
  {
  }

  /** What a file adds to the outputs, or None when it cannot be read. */
  function Contribution(s: Settings, skips: set<Path>, skip: bool, fs: Fs, file: Path): Option<string>
  {
    match Stat(fs, SourcePath(s, file))
    case Err(_) => None
    case Ok(t) =>
      if skip || Modified(t, Stat(fs, CachePath(s, file))) then
        match ReadFile(fs, SourcePath(s, file))
        case Err(_) => None
        case Ok(raw) => Some(Output(s, skips, file, raw))
      else
        match ReadFile(fs, CachePath(s, file))
        case Err(_) => None
        case Ok(cached) => Some(cached)
  }

  /** One turn appends the file's contribution, or marks the group errored when there is none. */
  lemma FileStepAppendsContribution(s: Settings, skips: set<Path>, skip: bool, st: GroupState, file: Path)
    ensures var r := FileStep(s, skips, skip, st, file);
      var c := Contribution(s, skips, skip, st.fs, file);
      && r.sources == st.sources + (if c.Some? then [c.value] else [])
      && (c.None? ==> r.hasError)
      && (st.hasError ==> r.hasError)
      && (st.hasModified ==> r.hasModified)
  {
  }

  // ---------------------------------------------------------------------------
  // The file loop

  /** The loop over `a + b` is the loop over `a` continued over `b`. */
  lemma {:induction false} ProcessFilesSplit(s: Settings, skips: set<Path>, skip: bool, st: GroupState, a: seq<Path>, b: seq<Path>)
    ensures ProcessFiles(s, skips, skip, st, a + b) ==
      ProcessFiles(s, skips, skip, ProcessFiles(s, skips, skip, st, a), b)
    decreases |b|
  {
    if b == [] {
      assert a + b == a;
    } else {
      var b' := b[..|b| - 1];
      assert (a + b)[..|a + b| - 1] == a + b';
      ProcessFilesSplit(s, skips, skip, st, a, b');
    }
  }

  /** Errors and modifications are never undone, and outputs are only appended, at most one per file. */
  lemma {:induction false} ProcessFilesMonotone(s: Settings, skips: set<Path>, skip: bool, st: GroupState, files: seq<Path>)
    ensures var r := ProcessFiles(s, skips, skip, st, files);
      && (st.hasError ==> r.hasError)
      && (st.hasModified ==> r.hasModified)
      && |st.sources| <= |r.sources| <= |st.sources| + |files|
      && r.sources[..|st.sources|] == st.sources
  {
    if files != [] {
      var init := files[..|files| - 1];
      ProcessFilesMonotone(s, skips, skip, st, init);
      var mid := ProcessFiles(s, skips, skip, st, init);
      FileStepAppendsContribution(s, skips, skip, mid, files[|files| - 1]);
      var r := ProcessFiles(s, skips, skip, st, files);
      assert r.sources[..|mid.sources|] == mid.sources;
      assert r.sources[..|st.sources|] == mid.sources[..|st.sources|];
    }
  }

  /**
   * The outputs of the loop over `files` hold one entry per file, each the
   * contribution of that file in the state the loop had reached.
   */
  predicate OutputsMatch(s: Settings, skips: set<Path>, skip: bool, fs: Fs, files: seq<Path>)
  {
    var r := ProcessFiles(s, skips, skip, Fresh(fs), files);
    && |r.sources| == |files|
    && forall i :: 0 <= i < |files| ==>
      Contribution(s, skips, skip, ProcessFiles(s, skips, skip, Fresh(fs), files[..i]).fs, files[i]) == Some(r.sources[i])
  }

  /** One more file that contributes keeps the outputs matched to the files. */
  lemma OutputsMatchStep(s: Settings, skips: set<Path>, skip: bool, fs: Fs, files: seq<Path>)
    requires files != [] && OutputsMatch(s, skips, skip, fs, files[..|files| - 1])
    requires !ProcessFiles(s, skips, skip, Fresh(fs), files).hasError
    ensures OutputsMatch(s, skips, skip, fs, files)
  {
    var init, last := files[..|files| - 1], files[|files| - 1];
    var mid := ProcessFiles(s, skips, skip, Fresh(fs), init);
    FileStepAppendsContribution(s, skips, skip, mid, last);
    var r := FileStep(s, skips, skip, mid, last);
    var c := Contribution(s, skips, skip, mid.fs, last);
    assert c.Some? && r.sources == mid.sources + [c.value];
    forall i | 0 <= i < |files|
      ensures Contribution(s, skips, skip, ProcessFiles(s, skips, skip, Fresh(fs), files[..i]).fs, files[i]) == Some(r.sources[i])
    {
      if i < |init| {
        assert files[..i] == init[..i];
        assert files[i] == init[i];
        assert r.sources[i] == mid.sources[i];
      } else {
        assert files[..i] == init;
      }
    }
  }

  /**
   * Order preservation: when the group had no error, the outputs hold exactly
   * one entry per declared file, in declared order, each the contribution of
   * that file (its filtered text or its cache entry) in the state the loop had
   * reached.
   */
  lemma {:induction false} OutputsFollowDeclaredOrder(s: Settings, skips: set<Path>, skip: bool, fs: Fs, files: seq<Path>)
    requires !ProcessFiles(s, skips, skip, Fresh(fs), files).hasError
    ensures var r := ProcessFiles(s, skips, skip, Fresh(fs), files);
      && |r.sources| == |files|
      && forall i :: 0 <= i < |files| ==>
        Contribution(s, skips, skip, ProcessFiles(s, skips, skip, Fresh(fs), files[..i]).fs, files[i]) == Some(r.sources[i])
  {
    if files != [] {
      var init := files[..|files| - 1];
      FileStepAppendsContribution(s, skips, skip, ProcessFiles(s, skips, skip, Fresh(fs), init), files[|files| - 1]);
      OutputsFollowDeclaredOrder(s, skips, skip, fs, init);
      OutputsMatchStep(s, skips, skip, fs, files);
    }
  }

  // ---------------------------------------------------------------------------
  // Cache transparency

  /**
   * The cache agrees with the sources: every source is present and readable,
   * every cache entry readable, and an entry that the staleness rule would
   * reuse holds exactly what re-reading the source would produce.
   */
  predicate Coherent(s: Settings, skips: set<Path>, fs: Fs, files: seq<Path>)
  {
    forall f <- files ::
      && SourcePath(s, f) in fs.files && SourcePath(s, f) !in fs.readFaults
      && CachePath(s, f) !in fs.readFaults
      && (CachePath(s, f) in fs.files &&
          Unix(fs.files[SourcePath(s, f)].mtime) <= Unix(fs.files[CachePath(s, f)].mtime) ==>
            fs.files[CachePath(s, f)].content == Output(s, skips, f, fs.files[SourcePath(s, f)].content))
  }

  /**
   * A turn that meets no error over a coherent cache appends the file's fresh
   * output, whether it was a cache hit or a miss, and keeps the cache coherent
   * and the sources as they were.
   */
  lemma CoherentStep(s: Settings, skips: set<Path>, skip: bool, st: GroupState, all: seq<Path>, file: Path)
    requires CachesSeparate(s, all) && file in all && Coherent(s, skips, st.fs, all)
    requires !FileStep(s, skips, skip, st, file).hasError
    ensures var r := FileStep(s, skips, skip, st, file);
      && r.sources == st.sources + [Output(s, skips, file, st.fs.files[SourcePath(s, file)].content)]
      && Coherent(s, skips, r.fs, all)
      && SameEnvironment(r.fs, st.fs)
      && forall f <- all :: AgreeOn(r.fs, st.fs, SourcePath(s, f))
  {
    var r := FileStep(s, skips, skip, st, file);
    var cache := CachePath(s, file);
    forall f <- all
      ensures AgreeOn(r.fs, st.fs, SourcePath(s, f))
    {
      assert cache != SourcePath(s, f);
    }
    forall f <- all | CachePath(s, f) == cache
      ensures f == file
    {
    }
  }

  /** The loop over files of `all` that meets no error keeps the cache coherent and yields the fresh outputs. */
  lemma {:induction false} CoherentLoop(s: Settings, skips: set<Path>, skip: bool, fs: Fs, all: seq<Path>, files: seq<Path>)
    requires CachesSeparate(s, all) && Coherent(s, skips, fs, all)
    requires forall f <- files :: f in all
    requires !ProcessFiles(s, skips, skip, Fresh(fs), files).hasError
    ensures var r := ProcessFiles(s, skips, skip, Fresh(fs), files);
      && |r.sources| == |files|
      && (forall i :: 0 <= i < |files| ==>
            r.sources[i] == Output(s, skips, files[i], fs.files[SourcePath(s, files[i])].content))
      && Coherent(s, skips, r.fs, all)
      && SameEnvironment(r.fs, fs)
      && forall f <- all :: AgreeOn(r.fs, fs, SourcePath(s, f))
  {
    if files != [] {
      var init, last := files[..|files| - 1], files[|files| - 1];
      var mid := ProcessFiles(s, skips, skip, Fresh(fs), init);
      FileStepAppendsContribution(s, skips, skip, mid, last);
      CoherentLoop(s, skips, skip, fs, all, init);
      CoherentStep(s, skips, skip, mid, all, last);
      var r := ProcessFiles(s, skips, skip, Fresh(fs), files);
      forall i | 0 <= i < |files|
        ensures r.sources[i] == Output(s, skips, files[i], fs.files[SourcePath(s, files[i])].content)
      {
        if i < |init| {
          assert files[i] == init[i];
        }
      }
    }
  }

  /**
   * The cache is transparent: over a coherent cache, a loop that meets no
   * error yields one output per declared file, in declared order, each the
   * file's current source run through the chain (or raw for a skip file),
   * whichever files were cache hits and whichever were re-read.
   */
  lemma CacheIsTransparent(s: Settings, skips: set<Path>, skip: bool, fs: Fs, files: seq<Path>)
    requires CachesSeparate(s, files) && Coherent(s, skips, fs, files)
    requires !ProcessFiles(s, skips, skip, Fresh(fs), files).hasError
    ensures var r := ProcessFiles(s, skips, skip, Fresh(fs), files);
      && |r.sources| == |files|
      && forall i :: 0 <= i < |files| ==>
        r.sources[i] == Output(s, skips, files[i], fs.files[SourcePath(s, files[i])].content)
  {
    CoherentLoop(s, skips, skip, fs, files, files);
  }

  /**
   * A group built over a coherent cache without error writes, when modified
   * or forced, an artifact joining the fresh outputs of its files in order.
   */
  lemma CoherentGroupBuildsFreshArtifact(s: Settings, g: Group, force: bool, skip: bool, fs: Fs)
    requires CachesSeparate(s, g.sourceFiles) && Coherent(s, SkipSet(g), fs, g.sourceFiles)
    requires !BuildGroup(s, g, force, skip, fs).hasError
    ensures var r := BuildGroup(s, g, force, skip, fs);
      && |r.sources| == |g.sourceFiles|
      && (forall i :: 0 <= i < |g.sourceFiles| ==>
            r.sources[i] == Output(s, SkipSet(g), g.sourceFiles[i], fs.files[SourcePath(s, g.sourceFiles[i])].content))
      && (r.hasModified || force ==>
            ArtifactPath(s, g) in r.fs.files &&
            r.fs.files[ArtifactPath(s, g)].content == JoinWith(r.sources, ArtifactSeparator))
  {
    ArtifactWriteCondition(s, g, force, skip, fs);
    CacheIsTransparent(s, SkipSet(g), skip, fs, g.sourceFiles);
  }

  /**
   * The artifact is written exactly when the group had no error and a cache
   * entry was rewritten or the build is forced; it then holds the outputs
   * joined by a blank line, and a failed write marks the group errored.
   * Otherwise the file system is left as the file loop left it.
   */
  lemma ArtifactWriteCondition(s: Settings, g: Group, force: bool, skip: bool, fs: Fs)
    ensures var st := ProcessFiles(s, SkipSet(g), skip, Fresh(fs), g.sourceFiles);
      var r := BuildGroup(s, g, force, skip, fs);
      var content := JoinWith(st.sources, ArtifactSeparator);
      && r.sources == st.sources && r.hasModified == st.hasModified
      && (!st.hasError && (st.hasModified || force) ==>
            r.fs == WriteFile(st.fs, ArtifactPath(s, g), content).fs &&
            r.hasError == !WriteFile(st.fs, ArtifactPath(s, g), content).ok)
      && (st.hasError || (!st.hasModified && !force) ==> r == st)
  {
  }

  /**
   * An artifact path with no directory part (an empty `DistPath` and a plain
   * `DistFile`) can never be written: the group ends errored whenever the write
   * is attempted, and the artifact is left as the file loop left it.
   */
  lemma ArtifactWithoutDirectoryFails(s: Settings, g: Group, force: bool, skip: bool, fs: Fs)
    requires Dir(ArtifactPath(s, g)) == []
    ensures var st := ProcessFiles(s, SkipSet(g), skip, Fresh(fs), g.sourceFiles);
      var r := BuildGroup(s, g, force, skip, fs);
      && r.fs == st.fs
      && (!st.hasError && (st.hasModified || force) ==> r.hasError)
  {
  }

  // ---------------------------------------------------------------------------
  // The filter chain

  /** Running two chains one after the other is running their concatenation. */
  lemma {:induction false} ApplyFiltersAppend(a: seq<Filter>, b: seq<Filter>, text: string)
    ensures ApplyFilters(a + b, text) == ApplyFilters(b, ApplyFilters(a, text))
    decreases |b|
  {
    if b == [] {
      assert a + b == a;
    } else {
      var b' := b[..|b| - 1];
      assert (a + b)[..|a + b| - 1] == a + b';
      ApplyFiltersAppend(a, b', text);
    }
  }

  /**
   * Filter failure degrades to pass-through: a chain whose every filter gives
   * its input back (as a failing filter does) leaves the text unchanged.
   */
  lemma {:induction false} PassThroughChainKeepsText(filters: seq<Filter>, text: string)
    requires forall i :: 0 <= i < |filters| ==> filters[i](text) == text
    ensures ApplyFilters(filters, text) == text
  {
    if filters != [] {
      PassThroughChainKeepsText(filters[..|filters| - 1], text);
    }
  }

  // ---------------------------------------------------------------------------
  // Idempotent rebuilds

  /**
   * The paths of a group do not overlap: no cache entry or artifact is also a
   * source, distinct files have distinct cache entries, and the artifact is
   * not a cache entry.
   */
  predicate PathsSeparate(s: Settings, g: Group)
  {
    && CachesSeparate(s, g.sourceFiles)
    && (forall f :: f in g.sourceFiles ==> ArtifactPath(s, g) != SourcePath(s, f) && ArtifactPath(s, g) != CachePath(s, f))
  }

  /** No cache entry of `files` is a source, and distinct files have distinct cache entries. */
  predicate CachesSeparate(s: Settings, files: seq<Path>)
  {
    && (forall f, h :: f in files && h in files ==> CachePath(s, f) != SourcePath(s, h))
    && (forall f, h :: f in files && h in files && CachePath(s, f) == CachePath(s, h) ==> f == h)
  }

  /**
   * Every file of `files` has its source and a readable cache entry that holds
   * its output and is not older than the source in whole seconds.
   */
  predicate CacheServes(s: Settings, fs: Fs, files: seq<Path>, sources: seq<string>)
  {
    && |sources| == |files|
    && forall j :: 0 <= j < |files| ==>
      && SourcePath(s, files[j]) in fs.files
      && CachePath(s, files[j]) in fs.files
      && CachePath(s, files[j]) !in fs.readFaults
      && fs.files[CachePath(s, files[j])].content == sources[j]
      && Unix(fs.files[SourcePath(s, files[j])].mtime) <= Unix(fs.files[CachePath(s, files[j])].mtime)
  }

  /** What the first build's file loop keeps true while it meets no error. */
  predicate FillInvariant(s: Settings, g: Group, skip: bool, fs0: Fs, st: GroupState, k: nat)
    requires k <= |g.sourceFiles|
  {
    && SameEnvironment(st.fs, fs0)
    && (forall f <- g.sourceFiles :: AgreeOn(st.fs, fs0, SourcePath(s, f)))
    && CacheServes(s, st.fs, g.sourceFiles[..k], st.sources)
    && (skip ==> forall j :: 0 <= j < k ==>
          SourcePath(s, g.sourceFiles[j]) in fs0.files &&
          st.sources[j] == Output(s, SkipSet(g), g.sourceFiles[j], fs0.files[SourcePath(s, g.sourceFiles[j])].content))
  }

  /** The clock of `fs0` is not behind any source of the group, in whole seconds. */
  predicate ClockNotBehind(s: Settings, g: Group, fs0: Fs)
  {
    forall f <- g.sourceFiles :: SourcePath(s, f) in fs0.files ==>
      Unix(fs0.files[SourcePath(s, f)].mtime) <= Unix(fs0.now)
  }

  /** A re-read file keeps the invariant: its cache entry now holds its output and is stamped `now`. */
  lemma FillStepReprocessed(s: Settings, g: Group, skip: bool, fs0: Fs, st: GroupState, k: nat)
    requires 0 < k <= |g.sourceFiles|
    requires PathsSeparate(s, g) && ClockNotBehind(s, g, fs0)
    requires forall f <- g.sourceFiles :: CachePath(s, f) !in fs0.readFaults
    requires FillInvariant(s, g, skip, fs0, st, k - 1)
    requires SourcePath(s, g.sourceFiles[k - 1]) in st.fs.files
    requires skip || Modified(st.fs.files[SourcePath(s, g.sourceFiles[k - 1])].mtime, Stat(st.fs, CachePath(s, g.sourceFiles[k - 1])))
    requires !FileStep(s, SkipSet(g), skip, st, g.sourceFiles[k - 1]).hasError
    ensures FillInvariant(s, g, skip, fs0, FileStep(s, SkipSet(g), skip, st, g.sourceFiles[k - 1]), k)
  {
    var files, skips := g.sourceFiles, SkipSet(g);
    var file := files[k - 1];
    var st' := FileStep(s, skips, skip, st, file);
    var src, cache := SourcePath(s, file), CachePath(s, file);
    assert file in files;
    var raw := st.fs.files[src].content;
    var out := Output(s, skips, file, raw);
    var w := WriteFile(st.fs, cache, out);
    assert w.ok && st'.fs == w.fs && st'.sources == st.sources + [out];
    assert st'.fs.files == st.fs.files[cache := File(out, fs0.now)];
    forall f <- files
      ensures AgreeOn(st'.fs, fs0, SourcePath(s, f))
    {
      assert SourcePath(s, f) != cache;
    }
    forall j | 0 <= j < k
      ensures var fj := files[..k][j];
        && SourcePath(s, fj) in st'.fs.files
        && CachePath(s, fj) in st'.fs.files
        && CachePath(s, fj) !in st'.fs.readFaults
        && st'.fs.files[CachePath(s, fj)].content == st'.sources[j]
        && Unix(st'.fs.files[SourcePath(s, fj)].mtime) <= Unix(st'.fs.files[CachePath(s, fj)].mtime)
    {
      var fj := files[j];
      assert files[..k][j] == fj && fj in files;
      assert SourcePath(s, fj) != cache;
      if j < k - 1 {
        assert files[..k - 1][j] == fj;
        if CachePath(s, fj) == cache {
          assert fj == file;
          if !skip {
            assert false;
          }
        }
      }
    }
    if skip {
      forall j | 0 <= j < k
        ensures SourcePath(s, files[j]) in fs0.files
        ensures st'.sources[j] == Output(s, skips, files[j], fs0.files[SourcePath(s, files[j])].content)
      {
        assert files[j] in files;
      }
    }
  }

  /** A file read back from its cache keeps the invariant: nothing is written. */
  lemma FillStepReused(s: Settings, g: Group, skip: bool, fs0: Fs, st: GroupState, k: nat)
    requires 0 < k <= |g.sourceFiles|
    requires FillInvariant(s, g, skip, fs0, st, k - 1)
    requires SourcePath(s, g.sourceFiles[k - 1]) in st.fs.files
    requires !(skip || Modified(st.fs.files[SourcePath(s, g.sourceFiles[k - 1])].mtime, Stat(st.fs, CachePath(s, g.sourceFiles[k - 1]))))
    requires !FileStep(s, SkipSet(g), skip, st, g.sourceFiles[k - 1]).hasError
    ensures FillInvariant(s, g, skip, fs0, FileStep(s, SkipSet(g), skip, st, g.sourceFiles[k - 1]), k)
  {
    var files := g.sourceFiles;
    var file := files[k - 1];
    var st' := FileStep(s, SkipSet(g), skip, st, file);
    assert st' == st.(sources := st.sources + [st.fs.files[CachePath(s, file)].content]);
    forall j | 0 <= j < k
      ensures var fj := files[..k][j];
        && CachePath(s, fj) in st'.fs.files
        && st'.fs.files[CachePath(s, fj)].content == st'.sources[j]
    {
      if j < k - 1 {
        assert files[..k][j] == files[..k - 1][j];
      }
    }
  }

  /** The state the first build has reached after the first `k` files, when it had no error so far. */
  lemma {:induction false} FirstBuildFillsCache(s: Settings, g: Group, skip: bool, fs0: Fs, k: nat)
    requires k <= |g.sourceFiles|
    requires PathsSeparate(s, g) && ClockNotBehind(s, g, fs0)
    requires forall f <- g.sourceFiles :: CachePath(s, f) !in fs0.readFaults
    requires !ProcessFiles(s, SkipSet(g), skip, Fresh(fs0), g.sourceFiles[..k]).hasError
    ensures FillInvariant(s, g, skip, fs0, ProcessFiles(s, SkipSet(g), skip, Fresh(fs0), g.sourceFiles[..k]), k)
  {
    var files, skips := g.sourceFiles, SkipSet(g);
    if k > 0 {
      var file := files[k - 1];
      assert files[..k][..k - 1] == files[..k - 1];
      var st := ProcessFiles(s, skips, skip, Fresh(fs0), files[..k - 1]);
      assert ProcessFiles(s, skips, skip, Fresh(fs0), files[..k]) == FileStep(s, skips, skip, st, file);
      assert !st.hasError;
      FirstBuildFillsCache(s, g, skip, fs0, k - 1);
      assert file in files;
      assert AgreeOn(st.fs, fs0, SourcePath(s, file));
      if skip || Modified(st.fs.files[SourcePath(s, file)].mtime, Stat(st.fs, CachePath(s, file))) {
        FillStepReprocessed(s, g, skip, fs0, st, k);
      } else {
        FillStepReused(s, g, skip, fs0, st, k);
      }
    }
  }

  /** A build over caches that serve every file reads them all back and writes nothing. */
  lemma {:induction false} ServedBuildReusesCache(s: Settings, skips: set<Path>, fs: Fs, files: seq<Path>, sources: seq<string>, k: nat)
    requires k <= |files|
    requires CacheServes(s, fs, files, sources)
    ensures ProcessFiles(s, skips, false, Fresh(fs), files[..k]) == GroupState(fs, sources[..k], false, false)
  {
    if k > 0 {
      ServedBuildReusesCache(s, skips, fs, files, sources, k - 1);
      assert files[..k][..k - 1] == files[..k - 1];
      assert sources[..k] == sources[..k - 1] + [sources[k - 1]];
      FreshFileIsReadFromCache(s, skips, GroupState(fs, sources[..k - 1], false, false), files[k - 1]);
    }
  }

  /** Writing the artifact, which is neither a source nor a cache entry, keeps the caches serving. */
  lemma ArtifactWriteKeepsCache(s: Settings, g: Group, fs: Fs, fs': Fs, sources: seq<string>)
    requires PathsSeparate(s, g) && CacheServes(s, fs, g.sourceFiles, sources)
    requires SameEnvironment(fs', fs) && fs'.files - {ArtifactPath(s, g)} == fs.files - {ArtifactPath(s, g)}
    ensures CacheServes(s, fs', g.sourceFiles, sources)
  {
    var files, art := g.sourceFiles, ArtifactPath(s, g);
    forall j | 0 <= j < |files|
      ensures AgreeOn(fs', fs, SourcePath(s, files[j])) && AgreeOn(fs', fs, CachePath(s, files[j]))
    {
      assert files[j] in files;
      assert SourcePath(s, files[j]) in fs.files - {art};
      assert CachePath(s, files[j]) in fs.files - {art};
    }
  }

  /**
   * Idempotence: after a build that had no error, and with a clock not behind
   * any source, a second build without `force` or `skip` reads every file back
   * from its cache, writes nothing, marks nothing modified, and produces the
   * same outputs, so the artifact stays byte-identical.
   */
  lemma RebuildIsIdempotent(s: Settings, g: Group, force: bool, skip: bool, fs0: Fs)
    requires PathsSeparate(s, g) && ClockNotBehind(s, g, fs0)
    requires forall f <- g.sourceFiles :: CachePath(s, f) !in fs0.readFaults
    requires !BuildGroup(s, g, force, skip, fs0).hasError
    ensures var first := BuildGroup(s, g, force, skip, fs0);
      BuildGroup(s, g, false, false, first.fs) == GroupState(first.fs, first.sources, false, false)
  {
    var files, skips := g.sourceFiles, SkipSet(g);
    var st := ProcessFiles(s, skips, skip, Fresh(fs0), files);
    assert files[..|files|] == files;
    assert !st.hasError;
    FirstBuildFillsCache(s, g, skip, fs0, |files|);
    var first := BuildGroup(s, g, force, skip, fs0);
    if st.hasModified || force {
      var w := WriteFile(st.fs, ArtifactPath(s, g), JoinWith(st.sources, ArtifactSeparator));
      assert first.fs == w.fs && w.ok;
      ArtifactWriteKeepsCache(s, g, st.fs, first.fs, st.sources);
    }
    ServedBuildReusesCache(s, skips, first.fs, files, first.sources, |files|);
    assert first.sources[..|files|] == first.sources;
  }

  // ---------------------------------------------------------------------------
  // Groups are independent

  function CachePaths(s: Settings, files: seq<Path>): set<Path>
  {
    set f | f in files :: CachePath(s, f)
  }

  function SourcePaths(s: Settings, g: Group): set<Path>
  {
    set f | f in g.sourceFiles :: SourcePath(s, f)
  }

  /** Every path a build of `g` may write: its cache entries and its artifact. */
  function TouchedPaths(s: Settings, g: Group): set<Path>
  {
    CachePaths(s, g.sourceFiles) + {ArtifactPath(s, g)}
  }

  /** A write to `p` succeeds. */
  predicate Writable(fs: Fs, p: Path)
  {
    Dir(p) != [] && Dir(p) !in fs.mkdirFaults && p !in fs.createFaults && p !in fs.writeLimits
  }

  /** The file loop writes only cache entries of the files it walks. */
  lemma {:induction false} ProcessFilesFrame(s: Settings, skips: set<Path>, skip: bool, st: GroupState, files: seq<Path>)
    ensures var r := ProcessFiles(s, skips, skip, st, files);
      && SameEnvironment(r.fs, st.fs)
      && forall p :: p !in CachePaths(s, files) ==> AgreeOn(r.fs, st.fs, p)
  {
    if files != [] {
      var init, last := files[..|files| - 1], files[|files| - 1];
      ProcessFilesFrame(s, skips, skip, st, init);
      var r := ProcessFiles(s, skips, skip, st, files);
      forall p | p !in CachePaths(s, files)
        ensures AgreeOn(r.fs, st.fs, p)
      {
        assert last in files;
        assert p != CachePath(s, last);
        assert forall f <- init :: f in files;
        assert p !in CachePaths(s, init);
      }
    }
  }

  /** A group's build writes nothing outside its cache entries and its artifact. */
  lemma BuildGroupFrame(s: Settings, g: Group, force: bool, skip: bool, fs: Fs)
    ensures var r := BuildGroup(s, g, force, skip, fs);
      && SameEnvironment(r.fs, fs)
      && forall p :: p !in TouchedPaths(s, g) ==> AgreeOn(r.fs, fs, p)
  {
    ProcessFilesFrame(s, SkipSet(g), skip, Fresh(fs), g.sourceFiles);
  }

  /**
   * A file loop over sources that exist and can be read, with cache entries
   * that can be read and written and that are not themselves sources, meets
   * no error.
   */
  lemma {:induction false} HealthyFilesNoError(s: Settings, skips: set<Path>, skip: bool, st: GroupState, files: seq<Path>)
    requires !st.hasError
    requires forall f <- files :: SourcePath(s, f) in st.fs.files && SourcePath(s, f) !in st.fs.readFaults
    requires forall f <- files :: Writable(st.fs, CachePath(s, f)) && CachePath(s, f) !in st.fs.readFaults
    requires forall f, h :: f in files && h in files ==> CachePath(s, f) != SourcePath(s, h)
    ensures !ProcessFiles(s, skips, skip, st, files).hasError
  {
    if files != [] {
      var init, last := files[..|files| - 1], files[|files| - 1];
      assert forall f <- init :: f in files;
      HealthyFilesNoError(s, skips, skip, st, init);
      ProcessFilesFrame(s, skips, skip, st, init);
      var mid := ProcessFiles(s, skips, skip, st, init);
      assert last in files;
      assert SourcePath(s, last) !in CachePaths(s, init);
      assert AgreeOn(mid.fs, st.fs, SourcePath(s, last));
    }
  }

  /** The conditions under which a group builds without error. */
  predicate Healthy(s: Settings, g: Group, fs: Fs)
  {
    && (forall f <- g.sourceFiles :: SourcePath(s, f) in fs.files && SourcePath(s, f) !in fs.readFaults)
    && (forall f <- g.sourceFiles :: Writable(fs, CachePath(s, f)) && CachePath(s, f) !in fs.readFaults)
    && Writable(fs, ArtifactPath(s, g))
    && SourcePaths(s, g) !! TouchedPaths(s, g)
  }

  /**
   * A healthy group builds without error, and when something was re-cached or
   * the build is forced its artifact holds the outputs joined by a blank line.
   */
  lemma HealthyGroupBuilds(s: Settings, g: Group, force: bool, skip: bool, fs: Fs)
    requires Healthy(s, g, fs)
    ensures var r := BuildGroup(s, g, force, skip, fs);
      && !r.hasError
      && (r.hasModified || force ==>
            ArtifactPath(s, g) in r.fs.files &&
            r.fs.files[ArtifactPath(s, g)] == File(JoinWith(r.sources, ArtifactSeparator), fs.now))
  {
    forall f, h | f in g.sourceFiles && h in g.sourceFiles
      ensures CachePath(s, f) != SourcePath(s, h)
    {
      assert SourcePath(s, h) in SourcePaths(s, g);
      assert CachePath(s, f) in TouchedPaths(s, g);
    }
    HealthyFilesNoError(s, SkipSet(g), skip, Fresh(fs), g.sourceFiles);
    ProcessFilesFrame(s, SkipSet(g), skip, Fresh(fs), g.sourceFiles);
  }

  /**
   * A source that is missing when the loop reaches it, because no earlier
   * file's cache write created it, marks the group errored for good.
   */
  lemma ErrorAtMissingSource(s: Settings, skips: set<Path>, skip: bool, st: GroupState, files: seq<Path>, i: nat)
    requires i < |files|
    requires SourcePath(s, files[i]) !in st.fs.files
    requires SourcePath(s, files[i]) !in CachePaths(s, files[..i])
    ensures ProcessFiles(s, skips, skip, st, files).hasError
  {
    var a, x, c := files[..i], files[i], files[i + 1..];
    assert files == (a + [x]) + c;
    ProcessFilesSplit(s, skips, skip, st, a + [x], c);
    assert (a + [x])[..|a + [x]| - 1] == a;
    ProcessFilesFrame(s, skips, skip, st, a);
    var mid := ProcessFiles(s, skips, skip, st, a);
    assert AgreeOn(mid.fs, st.fs, SourcePath(s, x));
    MissingSourceIsSkipped(s, skips, skip, mid, x);
    ProcessFilesMonotone(s, skips, skip, FileStep(s, skips, skip, mid, x), c);
  }

  /**
   * A missing source file that no cache write of the group can create marks
   * the group errored, so its artifact is left as it was.
   */
  lemma MissingSourceBlocksArtifact(s: Settings, g: Group, force: bool, skip: bool, fs: Fs, i: nat)
    requires i < |g.sourceFiles|
    requires SourcePath(s, g.sourceFiles[i]) !in fs.files
    requires SourcePath(s, g.sourceFiles[i]) !in CachePaths(s, g.sourceFiles)
    requires ArtifactPath(s, g) !in CachePaths(s, g.sourceFiles)
    ensures var r := BuildGroup(s, g, force, skip, fs);
      r.hasError && AgreeOn(r.fs, fs, ArtifactPath(s, g))
  {
    var files := g.sourceFiles;
    assert forall f <- files[..i] :: f in files;
    assert CachePaths(s, files[..i]) <= CachePaths(s, files);
    ErrorAtMissingSource(s, SkipSet(g), skip, Fresh(fs), files, i);
    ProcessFilesFrame(s, SkipSet(g), skip, Fresh(fs), files);
  }

  /**
   * Partial failure isolation: of two groups, one with a missing source and
   * one healthy, built in either order, the failing group's artifact is left
   * untouched while the healthy group builds without error and keeps the
   * artifact it wrote. The flags of each group start fresh, so the first
   * group's error never reaches the second through them. The two groups list
   * no common source file: such groups share that file's cache entry, and one
   * group's build changes what the other reads
   * (`SharedSourceLeavesStaleArtifact`).
   */
  lemma GroupFailureIsContained(s: Settings, groups: map<string, Group>, na: string, nb: string,
                                force: bool, skip: bool, fs: Fs, i: nat)
    requires na in groups && nb in groups
    requires i < |groups[na].sourceFiles|
    requires SourcePath(s, groups[na].sourceFiles[i]) !in fs.files
    requires SourcePath(s, groups[na].sourceFiles[i]) !in TouchedPaths(s, groups[na]) + TouchedPaths(s, groups[nb])
    requires ArtifactPath(s, groups[na]) !in CachePaths(s, groups[na].sourceFiles)
    requires TouchedPaths(s, groups[na]) !! SourcePaths(s, groups[nb]) + TouchedPaths(s, groups[nb])
    requires Healthy(s, groups[nb], fs)
    ensures var fa := BuildGroup(s, groups[na], force, skip, fs);
      var fb := BuildGroup(s, groups[nb], force, skip, fa.fs);
      && BuildGroups(s, groups, force, skip, fs, [na, nb]) == fb.fs
      && fa.hasError && !fb.hasError
      && AgreeOn(fb.fs, fs, ArtifactPath(s, groups[na]))
      && (fb.hasModified || force ==>
            ArtifactPath(s, groups[nb]) in fb.fs.files &&
            fb.fs.files[ArtifactPath(s, groups[nb])].content == JoinWith(fb.sources, ArtifactSeparator))
    ensures var fb := BuildGroup(s, groups[nb], force, skip, fs);
      var fa := BuildGroup(s, groups[na], force, skip, fb.fs);
      && BuildGroups(s, groups, force, skip, fs, [nb, na]) == fa.fs
      && fa.hasError && !fb.hasError
      && AgreeOn(fa.fs, fs, ArtifactPath(s, groups[na]))
      && (fb.hasModified || force ==>
            ArtifactPath(s, groups[nb]) in fa.fs.files &&
            fa.fs.files[ArtifactPath(s, groups[nb])].content == JoinWith(fb.sources, ArtifactSeparator))
  {
    var ga, gb := groups[na], groups[nb];
    var artA, artB := ArtifactPath(s, ga), ArtifactPath(s, gb);
    assert CachePaths(s, ga.sourceFiles) <= TouchedPaths(s, ga);
    assert artA in TouchedPaths(s, ga) && artB in TouchedPaths(s, gb);
    assert [na, nb][..1] == [na] && [nb, na][..1] == [nb];
    assert [na][..0] == [] && [nb][..0] == [];

    // Group a first, then group b.
    var fa := BuildGroup(s, ga, force, skip, fs);
    MissingSourceBlocksArtifact(s, ga, force, skip, fs, i);
    BuildGroupFrame(s, ga, force, skip, fs);
    assert Healthy(s, gb, fa.fs) by {
      forall f <- gb.sourceFiles
        ensures AgreeOn(fa.fs, fs, SourcePath(s, f))
      {
        assert SourcePath(s, f) in SourcePaths(s, gb);
      }
    }
    HealthyGroupBuilds(s, gb, force, skip, fa.fs);
    BuildGroupFrame(s, gb, force, skip, fa.fs);
    assert BuildGroups(s, groups, force, skip, fs, [na]) == fa.fs;
    assert BuildGroups(s, groups, force, skip, fs, [na, nb]) == BuildGroup(s, gb, force, skip, fa.fs).fs;

    // Group b first, then group a.
    var fb := BuildGroup(s, gb, force, skip, fs);
    HealthyGroupBuilds(s, gb, force, skip, fs);
    BuildGroupFrame(s, gb, force, skip, fs);
    assert AgreeOn(fb.fs, fs, SourcePath(s, ga.sourceFiles[i]));
    MissingSourceBlocksArtifact(s, ga, force, skip, fb.fs, i);
    BuildGroupFrame(s, ga, force, skip, fb.fs);
    assert AgreeOn(BuildGroup(s, ga, force, skip, fb.fs).fs, fb.fs, artB);
    assert BuildGroups(s, groups, force, skip, fs, [nb]) == fb.fs;
    assert BuildGroups(s, groups, force, skip, fs, [nb, na]) == BuildGroup(s, ga, force, skip, fb.fs).fs;
  }

  /**
   * A group of one file whose source is newer than its cache entry re-reads
   * it: the output is re-cached, and the artifact is written when it can be.
   */
  lemma StaleSingleFileBuild(s: Settings, g: Group, fs: Fs, file: Path)
    requires g.sourceFiles == [file] && file !in g.skipFiles
    requires var src, cache := SourcePath(s, file), CachePath(s, file);
      && src in fs.files && src !in fs.readFaults && Writable(fs, cache)
      && cache in fs.files && Unix(fs.files[cache].mtime) < Unix(fs.files[src].mtime)
      && cache != ArtifactPath(s, g)
    ensures var out := ApplyFilters(s.filters, fs.files[SourcePath(s, file)].content);
      var cache, art := CachePath(s, file), ArtifactPath(s, g);
      var r := BuildGroup(s, g, false, false, fs);
      && r.sources == [out] && r.hasModified && SameEnvironment(r.fs, fs)
      && cache in r.fs.files && r.fs.files[cache] == File(out, fs.now)
      && (forall p | p != cache && p != art :: AgreeOn(r.fs, fs, p))
      && (Writable(fs, art) ==> !r.hasError && art in r.fs.files && r.fs.files[art].content == out)
  {
    var out := ApplyFilters(s.filters, fs.files[SourcePath(s, file)].content);
    assert file !in SkipSet(g);
    assert g.sourceFiles[..0] == [];
    assert ProcessFiles(s, SkipSet(g), false, Fresh(fs), []) == Fresh(fs);
    var st := ProcessFiles(s, SkipSet(g), false, Fresh(fs), g.sourceFiles);
    assert st == FileStep(s, SkipSet(g), false, Fresh(fs), file);
    ReprocessedFileIsCached(s, SkipSet(g), false, Fresh(fs), file);
    assert JoinWith([out], ArtifactSeparator) == out;
  }

  /**
   * The cache entry of a source file is keyed by the file alone, so groups
   * listing the same file share it. Let the file have been edited in a later
   * second than its cache entry was written. Built on its own, group `b`
   * re-reads the file and rewrites its artifact with the new output. Built
   * after group `a`, which has already re-cached the file, group `b` finds the
   * entry fresh, reads the same output back, sees nothing modified and keeps
   * its old artifact.
   */
  lemma SharedSourceLeavesStaleArtifact(s: Settings, a: Group, b: Group, fs: Fs, file: Path)
    requires a.sourceFiles == [file] && b.sourceFiles == [file]
    requires file !in a.skipFiles && file !in b.skipFiles
    requires var src, cache := SourcePath(s, file), CachePath(s, file);
      var artA, artB := ArtifactPath(s, a), ArtifactPath(s, b);
      && src in fs.files && src !in fs.readFaults
      && cache in fs.files && cache !in fs.readFaults && Writable(fs, cache)
      && Unix(fs.files[cache].mtime) < Unix(fs.files[src].mtime) <= Unix(fs.now)
      && Writable(fs, artB)
      && src != cache && src != artA && src != artB
      && cache != artA && cache != artB && artA != artB
    ensures var out := ApplyFilters(s.filters, fs.files[SourcePath(s, file)].content);
      var artB := ArtifactPath(s, b);
      var alone := BuildGroup(s, b, false, false, fs);
      var fa := BuildGroup(s, a, false, false, fs);
      var fb := BuildGroup(s, b, false, false, fa.fs);
      && alone.sources == [out] && !alone.hasError && alone.hasModified
      && artB in alone.fs.files && alone.fs.files[artB].content == out
      && fa.hasModified
      && fb.sources == [out] && !fb.hasError && !fb.hasModified
      && AgreeOn(fb.fs, fs, artB)
  {
    var src, cache := SourcePath(s, file), CachePath(s, file);
    StaleSingleFileBuild(s, b, fs, file);
    StaleSingleFileBuild(s, a, fs, file);
    var fa := BuildGroup(s, a, false, false, fs);
    assert AgreeOn(fa.fs, fs, src) && AgreeOn(fa.fs, fs, ArtifactPath(s, b));

    // Group b finds the entry group a wrote fresh and reads it back.
    assert b.sourceFiles[..0] == [];
    assert ProcessFiles(s, SkipSet(b), false, Fresh(fa.fs), []) == Fresh(fa.fs);
    var pb := ProcessFiles(s, SkipSet(b), false, Fresh(fa.fs), b.sourceFiles);
    assert pb == FileStep(s, SkipSet(b), false, Fresh(fa.fs), file);
    FreshFileIsReadFromCache(s, SkipSet(b), Fresh(fa.fs), file);
  }
}
