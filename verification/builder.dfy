/**
 * The staleness-aware bundle builder (`compressFiles`). For every group it
 * walks the declared source files in order, reuses the per-file cache of a
 * file whose source is not newer, re-reads and re-filters the others, and
 * writes the group's artifact when the group had no error and something was
 * re-cached or a rebuild is forced.
 *
 * The specification is a fold over the file list: `FileStep` is one turn of
 * the file loop, `ProcessFiles` the whole loop, `FinishGroup` the artifact
 * write, `BuildGroup` one group and `BuildGroups` the groups in the order the
 * map iteration happened to take.
 */
module Builder {
  import opened Files
  import opened Utils
  import opened Config

  /** The default root of the per-file cache; callers may reassign the package variable. */
  const DefaultTmpPath: Path := "tmp"

  /** The separator between two files' outputs in an artifact. */
  const ArtifactSeparator: string := "\n\n"

  /** What a build reads: the cache root, and the roots and chain of the configuration object. */
  datatype Settings = Settings(tmpPath: Path, srcPath: Path, distPath: Path, filters: seq<Filter>)

  function SettingsOf(c: Compress, tmpPath: Path): Settings
    reads c`srcPath, c`distPath, c`filters
  {
    Settings(tmpPath, c.srcPath, c.distPath, c.filters)
  }

  function SourcePath(s: Settings, file: Path): Path
  {
    Join(s.srcPath, file)
  }

  /** The cache entry of a source file: tmpPath/SrcPath/file. */
  function CachePath(s: Settings, file: Path): Path
  {
    Join(Join(s.tmpPath, s.srcPath), file)
  }

  function ArtifactPath(s: Settings, g: Group): Path
  {
    Join(s.distPath, g.distFile)
  }

  function SkipSet(g: Group): set<Path>
  {
    set f | f in g.skipFiles
  }

  /** The filter chain: each filter's output is the next filter's input. */
  function ApplyFilters(filters: seq<Filter>, text: string): string
  {
    if filters == [] then text
    else filters[|filters| - 1](ApplyFilters(filters[..|filters| - 1], text))
  }

  /**
   * A source file is modified when it has no cache entry, or when its
   * modification time is later than the cache entry's in whole seconds.
   */
  function Modified(sourceTime: int, cacheTime: Result<int>): bool
  {
    cacheTime.Err? || Unix(sourceTime) > Unix(cacheTime.value)
  }

  /** The per-group variables of the loop, and the file system. */
  datatype GroupState = GroupState(fs: Fs, sources: seq<string>, hasError: bool, hasModified: bool)

  /** What a re-read file contributes: its text unfiltered when it is a skip file, filtered otherwise. */
  function Output(s: Settings, skips: set<Path>, file: Path, raw: string): string
  {
    if file in skips then raw else ApplyFilters(s.filters, raw)
  }

  /** One turn of the file loop. */
  function FileStep(s: Settings, skips: set<Path>, skip: bool, st: GroupState, file: Path): GroupState
  {
    var cacheFile := CachePath(s, file);
    var sourceFile := SourcePath(s, file);
    match Stat(st.fs, sourceFile)
    case Err(_) => st.(hasError := true)
    case Ok(sourceTime) =>
      if skip || Modified(sourceTime, Stat(st.fs, cacheFile)) then
        match ReadFile(st.fs, sourceFile)
        case Err(_) => st.(hasError := true)
        case Ok(raw) =>
          var out := Output(s, skips, file, raw);
          var w := WriteFile(st.fs, cacheFile, out);
          GroupState(w.fs, st.sources + [out], st.hasError || !w.ok, st.hasModified || w.ok)
      else
        match ReadFile(st.fs, cacheFile)
        case Err(_) => st.(hasError := true)
        case Ok(cached) => st.(sources := st.sources + [cached])
  }

  /** The file loop over `files`, in order. */
  function ProcessFiles(s: Settings, skips: set<Path>, skip: bool, st: GroupState, files: seq<Path>): GroupState
  {
    if files == [] then st
    else FileStep(s, skips, skip, ProcessFiles(s, skips, skip, st, files[..|files| - 1]), files[|files| - 1])
  }

  /** Writes the artifact when the group had no error and something changed or the build is forced. */
  function FinishGroup(s: Settings, g: Group, force: bool, st: GroupState): GroupState
  {
    if !st.hasError && (st.hasModified || force) then
      var w := WriteFile(st.fs, ArtifactPath(s, g), JoinWith(st.sources, ArtifactSeparator));
      st.(fs := w.fs, hasError := !w.ok)
    else st
  }

  /** The start of every group: no error, nothing modified, no output yet. */
  function Fresh(fs: Fs): GroupState
  {
    GroupState(fs, [], false, false)
  }

  function BuildGroup(s: Settings, g: Group, force: bool, skip: bool, fs: Fs): GroupState
  {
    FinishGroup(s, g, force, ProcessFiles(s, SkipSet(g), skip, Fresh(fs), g.sourceFiles))
  }

  /** The groups named by `order`, one after the other, each from fresh flags. */
  function BuildGroups(s: Settings, groups: map<string, Group>, force: bool, skip: bool, fs: Fs, order: seq<string>): Fs
    requires forall n <- order :: n in groups
  {
    if order == [] then fs
    else
      var before := BuildGroups(s, groups, force, skip, fs, order[..|order| - 1]);
      BuildGroup(s, groups[order[|order| - 1]], force, skip, before).fs
  }

  /** Runs the filter chain over one file's text. */
  method RunFilters(filters: seq<Filter>, text: string) returns (out: string)
    ensures out == ApplyFilters(filters, text)
  {
    out := text;
    for i := 0 to |filters|
      invariant out == ApplyFilters(filters[..i], text)
    {
      assert filters[..i + 1][..i] == filters[..i];
      out := filters[i](out);
    }
    assert filters[..|filters|] == filters;
  }

  /**
   * One turn of the file loop: stat the cache entry and the source, then either
   * re-read, filter and re-cache the source or read the cache entry back.
   */
  method CompressFile(s: Settings, skips: map<Path, bool>, ghost skipSet: set<Path>, skip: bool, file: Path,
                      fs0: Fs, sources0: seq<string>, hasError0: bool, hasModified0: bool)
    returns (fs: Fs, sources: seq<string>, hasError: bool, hasModified: bool)
    requires forall f :: (f in skips && skips[f]) <==> f in skipSet
    ensures GroupState(fs, sources, hasError, hasModified) ==
      FileStep(s, skipSet, skip, GroupState(fs0, sources0, hasError0, hasModified0), file)
  {
    fs, sources, hasError, hasModified := fs0, sources0, hasError0, hasModified0;

    var modified := false;
    var cacheFile := CachePath(s, file);
    var cacheTime := Stat(fs, cacheFile);
    var sourceFile := SourcePath(s, file);
    var info := Stat(fs, sourceFile);
    if info.Ok? {
      if cacheTime.Ok? {
        if Unix(info.value) > Unix(cacheTime.value) {
          modified := true;
        }
      } else {
        modified := true;
      }
    } else {
      hasError := true;
      return;
    }

    if skip || modified {
      var read := ReadFile(fs, sourceFile);
      if read.Err? {
        hasError := true;
        return;
      }
      var source := read.value;
      if !(file in skips && skips[file]) {
        source := RunFilters(s.filters, source);
      }
      sources := sources + [source];

      var w := WriteFile(fs, cacheFile, source);
      fs := w.fs;
      if w.ok {
        hasModified := true;
      } else {
        hasError := true;
      }
    } else {
      var read := ReadFile(fs, cacheFile);
      if read.Err? {
        hasError := true;
        return;
      }
      sources := sources + [read.value];
    }
  }

  /** The body of the group loop: one group's files, then its artifact. */
  method CompressGroup(s: Settings, g: Group, force: bool, skip: bool, fs0: Fs)
    returns (fs: Fs, sources: seq<string>, hasError: bool, hasModified: bool)
    ensures GroupState(fs, sources, hasError, hasModified) == BuildGroup(s, g, force, skip, fs0)
  {
    hasError := false;
    hasModified := false;
    sources := [];
    fs := fs0;

    var skips: map<Path, bool> := map[];
    for k := 0 to |g.skipFiles|
      invariant skips.Keys == set f | f in g.skipFiles[..k]
      invariant forall f <- skips.Keys :: skips[f]
    {
      assert g.skipFiles[..k + 1] == g.skipFiles[..k] + [g.skipFiles[k]];
      skips := skips[g.skipFiles[k] := true];
    }
    assert g.skipFiles[..|g.skipFiles|] == g.skipFiles;

    for i := 0 to |g.sourceFiles|
      invariant GroupState(fs, sources, hasError, hasModified) ==
        ProcessFiles(s, SkipSet(g), skip, Fresh(fs0), g.sourceFiles[..i])
    {
      assert g.sourceFiles[..i + 1][..i] == g.sourceFiles[..i];
      fs, sources, hasError, hasModified :=
        CompressFile(s, skips, SkipSet(g), skip, g.sourceFiles[i], fs, sources, hasError, hasModified);
    }
    assert g.sourceFiles[..|g.sourceFiles|] == g.sourceFiles;

    if !hasError {
      if hasModified || force {
        var w := WriteFile(fs, ArtifactPath(s, g), JoinWith(sources, ArtifactSeparator));
        fs := w.fs;
        if !w.ok {
          hasError := true;
        }
      }
    }
  }

  /**
   * Builds every group of the configuration. The groups are taken in an
   * arbitrary order, returned as `order`; each starts from fresh flags, so a
   * group's error flag never reaches another group. Groups that list a common
   * source file share its cache entry, so one group's build can change what
   * a later group reads and whether it rewrites its artifact. The cache root
   * is the current value of the package variable `TmpPath`.
   */
  method CompressFiles(c: Compress, tmpPath: Path, fs0: Fs, force: bool, skip: bool, verbose: bool)
    returns (fs: Fs, order: seq<string>)
    ensures forall n :: n in order <==> n in c.groups
    ensures forall i, j :: 0 <= i < j < |order| ==> order[i] != order[j]
    ensures fs == BuildGroups(SettingsOf(c, tmpPath), c.groups, force, skip, MkdirAll(fs0, tmpPath).fs, order)
  {
    var s := SettingsOf(c, tmpPath);
    var start := MkdirAll(fs0, tmpPath).fs;
    fs := start;
    order := [];
    var remaining := c.groups.Keys;
    while remaining != {}
      invariant remaining <= c.groups.Keys
      invariant forall n :: n in order <==> n in c.groups && n !in remaining
      invariant forall i, j :: 0 <= i < j < |order| ==> order[i] != order[j]
      invariant fs == BuildGroups(s, c.groups, force, skip, start, order)
      decreases remaining
    {
      var name :| name in remaining;
      var groupFs, sources, hasError, hasModified := CompressGroup(s, c.groups[name], force, skip, fs);
      assert (order + [name])[..|order|] == order;
      order := order + [name];
      fs := groupFs;
      remaining := remaining - {name};
    }
  }
}
