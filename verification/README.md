# beego/compress in Dafny

A model of the core of beego's asset compressor. The compressor bundles the
script or stylesheet files of named groups into one artifact per group, and
renders the HTML tags that load them.

- **Bundle builder** (`compressFiles`). For every group it walks the declared
  source files in order.
  - A file is re-read when the global skip flag is set, when it has no cache
    entry under `TmpPath/SrcPath/file` (`TmpPath` is a package variable, `tmp` by
    default), or when its modification time is later
    than the cache entry's in whole Unix seconds.
  - A re-read file runs through the filter chain unless it is one of the
    group's skip files, and the result is written to its cache entry.
  - Any other file is read back from its cache entry.
  - The outputs are joined with a blank line. The group's artifact is written
    only when the group met no error and a cache entry was rewritten or the
    build is forced.
- **Tag renderer** (`generateHTML`).
  - In production mode it returns one tag for the group's artifact, versioned
    by the artifact's modification time. Non-empty markup is kept in a cache
    that is created on first use.
  - In development mode it returns a begin marker, one tag or error comment
    per source file, and an end marker, rebuilt on every call.
- **Configuration object** (`compress`). It has the kind check of `setType`,
  the two setters, the filter-chain loader `loadFilters` and the template
  dispatch `Compress`.
- **Helpers**: `argString.Get` and the comment that `errHtml` returns.

Layout:

- `files.dfy` (module `Files`): the file system as a value.
  - A map from path to content and modification time in nanoseconds.
  - A clock that stamps writes.
  - Fault sets for the operating-system calls that can fail, and a per-path
    limit on how much text a write can store.
  - `Unix` is Go's `Time.Unix`: whole seconds, rounded down.
- `utils.dfy` (module `Utils`): `Get`, `ErrHtml`, `strings.Join`, and the
  decimal rendering of an integer.
- `compress.dfy` (module `Config`): the class `Compress`, whose setters and
  loader update its fields in place, and the functions that specify
  `LoadFilters`.
- `builder.dfy` (module `Builder`): the specification of a build and the two
  methods proved against it.
  - `FileStep` is one turn of the file loop and `ProcessFiles` the whole loop.
  - `FinishGroup` is the artifact write and `BuildGroup` one group.
  - `BuildGroups` runs the groups in a given order.
  - `CompressFile`, `CompressGroup` and `CompressFiles` are the loops of html.go.
- `builder_properties.dfy` (module `BuildProperties`): what the builder
  guarantees.
  - The whole-second staleness rule and the effect of one file.
  - Outputs kept in declared order and the artifact-write condition.
  - Cache transparency: over a cache that agrees with the sources, the outputs
    are the sources' filtered texts in declared order, hit or miss.
  - Idempotent rebuilds and the frame of a group's writes.
  - Isolation of a failing group from a group that shares none of its
    source files. Groups that share a file also share its cache entry.
- `tags.dfy` (module `Tags`): the specification `Render` and the methods
  `GenerateHtml`, `DevTags` and `Compress` proved against it, with their
  properties.

Points where the code behaves differently from what its names suggest, all
modelled as written:

- The cache is reused whenever the source is not newer in whole seconds, so
  an edit in the same second as the cache write is not picked up
  (`BuildProperties.SameSecondEditIsNotModified`).
- `force` does not cause re-reading. It only forces the artifact write.
- The global skip flag forces re-reading but does not bypass the filter chain.
  Only a group's skip files do.
- A production-mode failure returns the empty string: the error comment is
  built and then dropped. A production tag carries no begin or end markers.
- The development-mode URL is built from `SrcPath`, not from `SrcURL`.
- A write whose path has no directory part (an empty `DistPath` with a plain
  `DistFile`) always fails, because `os.MkdirAll("")` fails.
- An empty `TmpPath` makes each cache entry the source file itself. Without
  the skip flag no file is ever modified and the raw source goes into the
  artifact unfiltered; with it each source is overwritten by its filtered
  text (`BuildProperties.EmptyCacheRootIsSourceTree`).
- A cache entry is keyed by source file, not by group. When two groups list
  the same edited file, the group built first re-caches it. The group built
  second then reads the new text back, sees nothing modified and keeps its
  old artifact (`BuildProperties.SharedSourceLeavesStaleArtifact`).

## Model

| member | source | states |
|---|---|---|
| Files.MkdirAll | html.go:15 | creating a directory leaves every file as it was, and fails exactly on the empty path or a faulty directory |
| Files.WriteFile | html.go:89-105 | a cache or artifact write changes only its own path; it succeeds exactly when the directory is non-empty and can be created, the open succeeds and the text fits, and then the path holds the text stamped with the current time; a failed directory or open leaves the path as it was; a write that does not fit leaves the prefix that fit, stamped with the current time |
| Utils.Get | utils.go:21-28 | the i-th argument when `0 <= i < len(a)`, else the first default when there is one, else `""`; the result is always an argument, a default or `""` |
| Utils.ErrHtmlLayout | utils.go:40-44 | the comment is `<!-- Beego Compress: `, then the message, then ` -->`, by length and by slices |
| Utils.ErrHtmlInjective | utils.go:40-44 | distinct messages give distinct comments |
| Utils.JoinWithEnds | html.go:137 | a joined list starts with its first part and ends with its last |
| Utils.JoinWithSnoc | html.go:137 | joining one more part appends the separator and that part |
| Config.Compress.constructor | conf.go:38-46 | a configuration with the given roots and groups, no kind, development mode, no filters and no cache |
| Config.Compress.SetType | compress.go:32-38 | the kind becomes `t` when `t` is `js` or `css` and is unchanged otherwise; no other field changes |
| Config.Compress.SetProdMode | compress.go:40-42 | sets the production flag and changes no other field |
| Config.Compress.SetStaticURL | compress.go:44-46 | sets the static URL and changes no other field |
| Config.Compress.LoadFilters | compress.go:48-62 | the chain becomes the old chain followed by the registry entries of the known listed names, replaced by the kind's default when empty |
| Config.SelectTemplate | compress.go:69-75 | the script template for `js`, the stylesheet template for `css`, the nil template for any other kind |
| Config.ResolveAppend | compress.go:49-53 | resolving a concatenation of name lists resolves each list |
| Config.UnknownNameIgnored | compress.go:49-53 | a name the registry lacks contributes nothing wherever it stands |
| Config.KnownNamesAppend | compress.go:49-53 | the known names of a concatenation are those of each part |
| Config.ResolveIsKnownNamesLookedUp | compress.go:49-53 | the chain has one filter per known name, in list order, each the registry entry of that name |
| Config.AllKnownNamesKept | compress.go:49-53 | when every listed name is known the chain follows the list one to one |
| Config.NoKnownNamesResolveNothing | compress.go:49-53 | when no listed name is known nothing is appended |
| Config.LoadedChainExtendsOld | compress.go:48-62 | loading appends: a non-empty old chain stays a prefix and no default replaces it |
| Config.DefaultChainOnlyWhenEmpty | compress.go:54-61 | the js default for an empty chain of kind `js`, the css default for `css`, an empty chain for any other kind, and a non-empty chain is kept |
| Builder.RunFilters | html.go:82-85 | the loop runs the chain in list order, each filter's output feeding the next |
| Builder.CompressFile | html.go:33-127 | one turn of the file loop computes exactly the specified step: a missing source or a failed read marks the group errored; a stale, skipped or uncached file is re-read, filtered unless a skip file, and re-cached; any other file is read back from its cache |
| Builder.CompressGroup | html.go:19-160 | the per-group loop computes exactly the specified file loop and artifact write: new file system, outputs and both flags |
| Builder.CompressFiles | html.go:14-166 | the groups are visited once each in some order, returned; the file system is the result of building them one after the other in that order, after creating the cache root `TmpPath` (a failure of which is ignored) |
| BuildProperties.SameSecondEditIsNotModified | html.go:37-54 | a source rewritten in the same second as its cache entry is not modified |
| BuildProperties.MissingSourceIsSkipped | html.go:45-59 | a source that cannot be stat'd marks the group errored, adds no output and changes nothing else |
| BuildProperties.ReprocessedFileIsCached | html.go:61-110 | a re-read file adds its text, unfiltered for a skip file and filtered otherwise; the group counts as modified exactly when the cache write succeeds, which stores that text, and is errored otherwise |
| BuildProperties.FreshFileIsReadFromCache | html.go:112-127 | without the skip flag, a file not newer than its cache entry adds the cache's content verbatim and changes neither flags nor files |
| BuildProperties.FailedCacheWriteLeavesPrefix | html.go:89-110 | a cache write that runs out of space after the open leaves the entry holding a proper prefix of the output, stamped with the current time, and marks the group errored while its outputs keep the whole text; the next build without skip reads back that prefix |
| BuildProperties.FileStepAppendsContribution | html.go:33-127 | one turn appends the file's contribution, or marks the group errored when it has none; flags are never cleared |
| BuildProperties.ProcessFilesSplit | html.go:33-128 | the loop over `a + b` is the loop over `a` continued over `b` |
| BuildProperties.ProcessFilesMonotone | html.go:33-128 | errors and modifications are never undone; outputs are only appended, at most one per file |
| BuildProperties.OutputsFollowDeclaredOrder | html.go:33-128 | without error, the outputs hold exactly one entry per declared file, in declared order, each that file's contribution |
| BuildProperties.EmptyCacheRootIsSourceTree | html.go:38-54 | with an empty cache root the cache entry is the source; without skip the raw source is read back unfiltered, with skip the source itself is overwritten by its output |
| BuildProperties.CoherentStep | html.go:35-127 | over a coherent cache, an error-free turn appends the file's fresh output, hit or miss, and keeps the cache coherent and the sources unchanged |
| BuildProperties.CoherentLoop | html.go:33-128 | over a coherent cache, an error-free loop over files of the group yields their fresh outputs in order and leaves the cache coherent |
| BuildProperties.CacheIsTransparent | html.go:33-128 | over a coherent cache, an error-free loop yields one output per declared file, in order, each the current source filtered (raw for a skip file), whichever files were cache hits |
| BuildProperties.CoherentGroupBuildsFreshArtifact | html.go:33-160 | over a coherent cache, an error-free group build that is modified or forced writes the fresh outputs joined by a blank line as its artifact |
| BuildProperties.ArtifactWriteCondition | html.go:130-160 | the artifact is written, with the outputs joined by a blank line, exactly when the group has no error and was modified or forced; a failed write marks it errored; otherwise nothing changes |
| BuildProperties.ArtifactWithoutDirectoryFails | html.go:132-154 | an artifact path with no directory part is never written: the file system is left as the file loop left it, and the group is errored whenever the write is attempted |
| BuildProperties.ApplyFiltersAppend | html.go:82-85 | running two chains in turn is running their concatenation |
| BuildProperties.PassThroughChainKeepsText | html.go:82-85 | a chain whose filters all give their input back leaves the text unchanged |
| BuildProperties.FillStepReprocessed | html.go:61-110 | a re-read file leaves its cache entry holding its output, stamped no earlier than its source |
| BuildProperties.FillStepReused | html.go:112-127 | a file read back from its cache keeps every cache entry serving its output |
| BuildProperties.FirstBuildFillsCache | html.go:33-128 | after a build with no error, every file's cache entry holds that file's output and is not older than its source |
| BuildProperties.ServedBuildReusesCache | html.go:112-127 | over caches that serve every file, the loop reads them all back and writes nothing |
| BuildProperties.ArtifactWriteKeepsCache | html.go:130-160 | writing the artifact, which is neither a source nor a cache entry, keeps every cache entry serving its file |
| BuildProperties.RebuildIsIdempotent | html.go:33-160 | after a build with no error, a second build without force or skip writes nothing, marks nothing modified and yields the same outputs |
| BuildProperties.ProcessFilesFrame | html.go:33-128 | the file loop changes only the cache entries of the files it walks |
| BuildProperties.BuildGroupFrame | html.go:33-160 | a group's build changes only its cache entries and its artifact |
| BuildProperties.HealthyFilesNoError | html.go:33-128 | readable sources with readable, writable cache entries give a loop with no error |
| BuildProperties.HealthyGroupBuilds | html.go:33-160 | a healthy group builds without error, and when modified or forced its artifact holds the joined outputs |
| BuildProperties.ErrorAtMissingSource | html.go:55-59 | a source missing when the loop reaches it leaves the group errored at the end of the loop |
| BuildProperties.MissingSourceBlocksArtifact | html.go:55-59 | a missing source marks the group errored and leaves its artifact as it was |
| BuildProperties.GroupFailureIsContained | html.go:17-21 | of a failing and a healthy group that list no common source file, built in either order, the failing group's artifact is untouched and the healthy group builds without error and keeps its artifact |
| BuildProperties.StaleSingleFileBuild | html.go:37-160 | a one-file group whose source is newer in whole seconds than its cache entry re-caches the filtered text stamped with the current time, changes nothing but that entry and its artifact, and writes the text as its artifact when it can |
| BuildProperties.SharedSourceLeavesStaleArtifact | html.go:37-160 | two groups sharing an edited file: built alone, the second group re-reads the file and rewrites its artifact; built after the first, it reads the re-cached text back, is not modified, and its artifact is left as it was |
| Tags.DevEntries | html.go:207-223 | one development entry per source file |
| Tags.DevTags | html.go:203-227 | the development loop yields the begin marker, the files' entries in order and the end marker, joined by a newline and a tab |
| Tags.GenerateHtml | html.go:168-234 | the returned markup and the new cache are those `Render` specifies from the old cache |
| Tags.Compress | compress.go:68-77 | renders with the template the configuration's kind selects |
| Tags.UnknownGroupIsOneComment | html.go:229-231 | an unknown group gives one `not found` comment in either mode and leaves the cache alone |
| Tags.CacheHitReturnsStoredMarkup | html.go:176-178 | a production cache hit returns the stored markup whatever the files or template now say |
| Tags.ProdMissRendersArtifact | html.go:180-201 | on a miss the URL is StaticURL + join(DistURL, DistFile) + `?ver=` + seconds; a non-empty tag plus a newline is cached and returned; a failed stat or template, or an empty tag, returns `""` and adds no entry |
| Tags.ProdMarkupIsSticky | html.go:172-201 | once a production render returned markup, later renders of that group return it unchanged |
| Tags.RenderStoresNoEmptyMarkup | html.go:197-200 | the production cache never holds empty markup |
| Tags.FailedProdRenderIsRetried | html.go:180-201 | after a production render that returned `""`, the next render tries the artifact again |
| Tags.DevEntriesFollowFiles | html.go:207-223 | the i-th development entry is the entry of the i-th source file |
| Tags.MissingDevFileEntry | html.go:220-222 | an absent source file's entry is the error comment naming the file and its path |
| Tags.MissingDevFileIsReportedAlone | html.go:207-223 | an absent file's slot in the development list holds its error comment |
| Tags.DevMarkupIsFramed | html.go:203-227 | the development markup opens with the group's begin marker and closes with the end marker |

## Left out

- Logging: `logInfo`, `logError`, the `verbose` output and the write of `errHtml` to standard error are not modelled. They do not affect any result, so `verbose` is an unused parameter of `CompressFiles`.
- filter.go is not part of this model. Filters are opaque `string -> string` functions. The `Filters` registry and the default chains are parameters of `LoadFilters`.
- conf.go is not part of this model apart from the field assignments of `NewJsCompress` and `NewCssCompress`, which `Config.Compress.constructor` performs, and the package variable `TmpPath` (conf.go:12), which is the `tmpPath` parameter of `Builder.CompressFiles`: JSON loading, the kind-specific wrapper types those two functions return, and the tag template strings are left out. Templates, including `html/template` execution and escaping in `parseTmpl`, are opaque functions from a URL to markup or an error.
- Tags.Compress: for a kind that is neither `js` nor `css` the Go code executes a nil template and panics; the model renders with a template that always fails, so the call returns `""` or an error comment.
- Files.Join: the lexical cleaning of `filepath.Join` and `path.Join` (`.`, `..`, doubled separators) is not modelled; empty elements are dropped and the rest joined with `/`.
- Files.MkdirAll: the set of directories is recorded but no operation reads it; a missing parent directory is not a separate failure.
- Files.Stat: a stat fails only when the path is absent; permission errors on stat are not modelled.
- Files.ReadFile: a read error after a successful open is ignored in the code, as is the leaked cache-file handle at html.go:115-116; neither is modelled.
- Files.Fs: the clock is fixed for the whole of a build; every write in one build gets the same timestamp.
- The iteration order of `c.Groups` is unspecified in Go. `CompressFiles` picks any order and returns it, and group properties hold for either order.
- The method wrapper `compress.compressFiles` at compress.go:64-66 only forwards to `CompressFiles`.
- BuildProperties.RebuildIsIdempotent: it assumes that the clock is not behind any source and that the cache entries are readable; otherwise the second build can re-read files.
- BuildProperties.GroupFailureIsContained: it is stated for two groups, built in either order, rather than for any number of groups. It also requires that the groups list no common source file. Groups that share a file share its cache entry at html.go:38, so one group's build changes what the other reads (`BuildProperties.SharedSourceLeavesStaleArtifact`), and a failing group can still re-cache a shared file before it fails.
