/**
 * The tag renderer (`generateHTML`) and the kind dispatch (`Compress`). In
 * production mode a group renders to one tag for its artifact, kept in a
 * per-process cache once rendered; in development mode it renders to one tag
 * per source file, rebuilt on every call.
 */
module Tags {
  import opened Files
  import opened Utils
  import opened Config

  function VersionedUrl(staticURL: string, root: string, file: Path, mtime: int): string
  {
    staticURL + Join(root, file) + "?ver=" + DecimalString(Unix(mtime))
  }

  function BeginMarker(name: string): string
  {
    "<script>/* Beego Compress group `" + name + "` begin */</script>"
  }

  const EndMarker: string := "<script>/* end */</script>"

  /** The separator between the tags of development mode. */
  const TagSeparator: string := "\n\t"

  function NotFoundMessage(name: string): string
  {
    "not found compress group `" + name + "`"
  }

  /**
   * The production markup of a group: the artifact's tag and a line break,
   * versioned by the artifact's modification time in whole seconds; the empty
   * string when the artifact cannot be stat'd, the template fails or renders
   * nothing.
   */
  function ProdTag(fs: Fs, distPath: Path, staticURL: string, distURL: string, g: Group, t: Template): string
  {
    match Stat(fs, Join(distPath, g.distFile))
    case Err(_) => ""
    case Ok(mtime) =>
      match t(VersionedUrl(staticURL, distURL, g.distFile, mtime))
      case Err(_) => ""
      case Ok(res) => if |res| > 0 then res + "\n" else ""
  }

  /**
   * The development tag of one source file, versioned by its modification
   * time; the URL is built from the source path, not the source URL. A file
   * that cannot be stat'd, or whose template fails, gets an error comment.
   */
  function DevEntry(fs: Fs, srcPath: Path, staticURL: string, file: Path, t: Template): string
  {
    var filePath := Join(srcPath, file);
    match Stat(fs, filePath)
    case Err(e) => ErrHtml("load file `" + file + "` for path `" + filePath + "` error: " + e)
    case Ok(mtime) =>
      match t(VersionedUrl(staticURL, srcPath, file, mtime))
      case Err(e) => ErrHtml("tempalte execute error: " + e)
      case Ok(res) => res
  }

  function DevEntries(fs: Fs, srcPath: Path, staticURL: string, files: seq<Path>, t: Template): (entries: seq<string>)
    ensures |entries| == |files|
  {
    if files == [] then []
    else DevEntries(fs, srcPath, staticURL, files[..|files| - 1], t) + [DevEntry(fs, srcPath, staticURL, files[|files| - 1], t)]
  }

  /** The development markup: the begin marker, the files' entries, the end marker. */
  function DevMarkup(name: string, fs: Fs, srcPath: Path, staticURL: string, files: seq<Path>, t: Template): string
  {
    JoinWith([BeginMarker(name)] + DevEntries(fs, srcPath, staticURL, files, t) + [EndMarker], TagSeparator)
  }

  /** The markup a render returns and the production cache it leaves. */
  datatype Rendered = Rendered(html: string, caches: Option<map<string, string>>)

  /** What rendering group `name` returns and leaves in the cache, given the cache before. */
  function Render(c: Compress, caches: Option<map<string, string>>, name: string, fs: Fs, t: Template): Rendered
    reads c`groups, c`isProdMode, c`srcPath, c`distPath, c`staticURL, c`distURL
  {
    if name !in c.groups then Rendered(ErrHtml(NotFoundMessage(name)), caches)
    else
      var g := c.groups[name];
      if c.isProdMode then
        var m := if caches.Some? then caches.value else map[];
        if name in m then Rendered(m[name], Some(m))
        else
          var tag := ProdTag(fs, c.distPath, c.staticURL, c.distURL, g, t);
          Rendered(tag, Some(if tag == "" then m else m[name := tag]))
      else Rendered(DevMarkup(name, fs, c.srcPath, c.staticURL, g.sourceFiles, t), caches)
  }

  /** The development tag list of one group, built entry by entry. */
  method DevTags(name: string, fs: Fs, srcPath: Path, staticURL: string, files: seq<Path>, t: Template)
    returns (html: string)
    ensures html == DevMarkup(name, fs, srcPath, staticURL, files, t)
  {
    var scripts := [BeginMarker(name)];
    for i := 0 to |files|
      invariant scripts == [BeginMarker(name)] + DevEntries(fs, srcPath, staticURL, files[..i], t)
    {
      var file := files[i];
      assert files[..i + 1][..i] == files[..i];
      assert DevEntries(fs, srcPath, staticURL, files[..i + 1], t) ==
        DevEntries(fs, srcPath, staticURL, files[..i], t) + [DevEntry(fs, srcPath, staticURL, file, t)];
      var filePath := Join(srcPath, file);
      var info := Stat(fs, filePath);
      if info.Ok? {
        var url := VersionedUrl(staticURL, srcPath, file, info.value);
        var res := t(url);
        if res.Err? {
          scripts := scripts + [ErrHtml("tempalte execute error: " + res.msg)];
        } else {
          scripts := scripts + [res.value];
        }
      } else {
        scripts := scripts + [ErrHtml("load file `" + file + "` for path `" + filePath + "` error: " + info.msg)];
      }
    }
    assert files[..|files|] == files;
    scripts := scripts + [EndMarker];
    html := JoinWith(scripts, TagSeparator);
  }

  /** Renders group `name` with template `t`, creating the production cache on first use. */
  method GenerateHtml(name: string, c: Compress, fs: Fs, t: Template) returns (html: string)
    modifies c`caches
    ensures Rendered(html, c.caches) == Render(c, old(c.caches), name, fs, t)
  {
    if name in c.groups {
      var group := c.groups[name];
      if c.isProdMode {
        if c.caches.None? {
          c.caches := Some(map[]);
        }
        assert c.caches.value == if old(c.caches).Some? then old(c.caches).value else map[];
        if name in c.caches.value {
          html := c.caches.value[name];
          return;
        }

        var scripts := "";
        var filePath := Join(c.distPath, group.distFile);
        var info := Stat(fs, filePath);
        if info.Ok? {
          var url := VersionedUrl(c.staticURL, c.distURL, group.distFile, info.value);
          var res := t(url);
          if res.Ok? {
            scripts := scripts + res.value;
          }
          // a template error is reported as an error comment that is then dropped
        }
        // so is a failed stat of the artifact
        assert ProdTag(fs, c.distPath, c.staticURL, c.distURL, group, t) ==
          if |scripts| > 0 then scripts + "\n" else "";

        if |scripts| > 0 {
          var res := scripts + "\n";
          c.caches := Some(c.caches.value[name := res]);
          html := res;
          return;
        }
      } else {
        html := DevTags(name, fs, c.srcPath, c.staticURL, group.sourceFiles, t);
        return;
      }
    } else {
      html := ErrHtml(NotFoundMessage(name));
      return;
    }
    html := "";
  }

  /** Renders with the script-tag template for scripts and the stylesheet-link template for stylesheets. */
  method Compress(c: Compress, name: string, fs: Fs, jsTag: Template, cssTag: Template) returns (html: string)
    modifies c`caches
    ensures Rendered(html, c.caches) == Render(c, old(c.caches), name, fs, SelectTemplate(c.assetType, jsTag, cssTag))
  {
    var templ := NilTemplate;
    if c.assetType == Js {
      templ := jsTag;
    } else if c.assetType == Css {
      templ := cssTag;
    }
    html := GenerateHtml(name, c, fs, templ);
  }

  // ---------------------------------------------------------------------------
  // Properties

  /** An unknown group renders as one error comment in either mode, and the cache is left alone. */
  lemma UnknownGroupIsOneComment(c: Compress, caches: Option<map<string, string>>, name: string, fs: Fs, t: Template)
    requires name !in c.groups
    ensures Render(c, caches, name, fs, t) == Rendered(ErrHtml("not found compress group `" + name + "`"), caches)
  {
  }

  /** A cache hit returns the stored markup unchanged, whatever the file system or template now say. */
  lemma CacheHitReturnsStoredMarkup(c: Compress, m: map<string, string>, name: string, fs: Fs, t: Template)
    requires name in c.groups && c.isProdMode && name in m
    ensures Render(c, Some(m), name, fs, t) == Rendered(m[name], Some(m))
  {
  }

  /**
   * A cache miss in production mode stats the artifact and renders its URL,
   * StaticURL + join(DistURL, DistFile) + "?ver=" + seconds; the tag and a
   * line break are cached and returned only when the tag is not empty. On a
   * failed stat or template the result is empty and no entry is added (the
   * cache itself is created if it did not exist).
   */
  lemma ProdMissRendersArtifact(c: Compress, caches: Option<map<string, string>>, name: string, fs: Fs, t: Template)
    requires name in c.groups && c.isProdMode
    requires caches.None? || name !in caches.value
    ensures var g := c.groups[name];
      var path := Join(c.distPath, g.distFile);
      var before := if caches.Some? then caches.value else map[];
      var r := Render(c, caches, name, fs, t);
      && (path !in fs.files ==> r == Rendered("", Some(before)))
      && (path in fs.files ==>
            var url := c.staticURL + Join(c.distURL, g.distFile) + "?ver=" + DecimalString(fs.files[path].mtime / NanosPerSecond);
            && (t(url).Err? || t(url).value == "" ==> r == Rendered("", Some(before)))
            && (t(url).Ok? && t(url).value != "" ==>
                  r == Rendered(t(url).value + "\n", Some(before[name := t(url).value + "\n"]))))
  {
  }

  /**
   * The production cache is not time-aware: once a render returned markup,
   * the next render of that group returns the same markup and leaves the cache
   * as it is, even if the artifact or the template changed in between.
   */
  lemma ProdMarkupIsSticky(c: Compress, caches: Option<map<string, string>>, name: string,
                           fs1: Fs, t1: Template, fs2: Fs, t2: Template)
    requires name in c.groups && c.isProdMode
    requires Render(c, caches, name, fs1, t1).html != ""
    ensures var first := Render(c, caches, name, fs1, t1);
      Render(c, first.caches, name, fs2, t2) == first
  {
    var first := Render(c, caches, name, fs1, t1);
    var m := if caches.Some? then caches.value else map[];
    if name !in m {
      assert first.caches == Some(m[name := first.html]);
    }
  }

  /** The production cache never stores empty markup. */
  predicate NoEmptyEntries(caches: Option<map<string, string>>)
  {
    caches.Some? ==> forall k <- caches.value :: caches.value[k] != ""
  }

  /** Rendering keeps the cache free of empty markup. */
  lemma RenderStoresNoEmptyMarkup(c: Compress, caches: Option<map<string, string>>, name: string, fs: Fs, t: Template)
    requires NoEmptyEntries(caches)
    ensures NoEmptyEntries(Render(c, caches, name, fs, t).caches)
  {
  }

  /**
   * A failed production render caches nothing, so the next render tries
   * again and picks up an artifact that has appeared since.
   */
  lemma FailedProdRenderIsRetried(c: Compress, caches: Option<map<string, string>>, name: string,
                                  fs1: Fs, t1: Template, fs2: Fs, t2: Template)
    requires name in c.groups && c.isProdMode
    requires NoEmptyEntries(caches)
    requires Render(c, caches, name, fs1, t1).html == ""
    ensures var first := Render(c, caches, name, fs1, t1);
      Render(c, first.caches, name, fs2, t2).html == ProdTag(fs2, c.distPath, c.staticURL, c.distURL, c.groups[name], t2)
  {
  }

  /** Development mode yields exactly one entry per source file, in declared order. */
  lemma {:induction false} DevEntriesFollowFiles(fs: Fs, srcPath: Path, staticURL: string, files: seq<Path>, t: Template)
    ensures forall i :: 0 <= i < |files| ==>
      DevEntries(fs, srcPath, staticURL, files, t)[i] == DevEntry(fs, srcPath, staticURL, files[i], t)
  {
    if files != [] {
      var init, last := files[..|files| - 1], files[|files| - 1];
      DevEntriesFollowFiles(fs, srcPath, staticURL, init, t);
      var entries, before := DevEntries(fs, srcPath, staticURL, files, t), DevEntries(fs, srcPath, staticURL, init, t);
      assert entries == before + [DevEntry(fs, srcPath, staticURL, last, t)];
      forall i | 0 <= i < |files|
        ensures entries[i] == DevEntry(fs, srcPath, staticURL, files[i], t)
      {
        if i < |init| {
          assert files[i] == init[i] && entries[i] == before[i];
        }
      }
    }
  }

  /** The message of a development entry whose source file is absent. */
  function MissingFileMessage(file: Path, path: Path): string
  {
    "load file `" + file + "` for path `" + path + "` error: stat " + path + ": no such file or directory"
  }

  /** An absent source file's entry is the error comment naming the file and its path. */
  lemma MissingDevFileEntry(fs: Fs, srcPath: Path, staticURL: string, file: Path, t: Template)
    requires Join(srcPath, file) !in fs.files
    ensures DevEntry(fs, srcPath, staticURL, file, t) == ErrHtml(MissingFileMessage(file, Join(srcPath, file)))
  {
    var path := Join(srcPath, file);
    assert "load file `" + file + "` for path `" + path + "` error: " + ("stat " + path + ": no such file or directory")
      == MissingFileMessage(file, path);
  }

  /**
   * A source file that cannot be stat'd gets an error comment naming that
   * file and its path in that file's own slot.
   */
  lemma MissingDevFileIsReportedAlone(fs: Fs, srcPath: Path, staticURL: string, files: seq<Path>, t: Template, i: nat)
    requires i < |files| && Join(srcPath, files[i]) !in fs.files
    ensures DevEntries(fs, srcPath, staticURL, files, t)[i] == ErrHtml(MissingFileMessage(files[i], Join(srcPath, files[i])))
  {
    DevEntriesFollowFiles(fs, srcPath, staticURL, files, t);
    MissingDevFileEntry(fs, srcPath, staticURL, files[i], t);
  }

  /** The development markup opens with the group's begin marker and closes with the end marker. */
  lemma DevMarkupIsFramed(name: string, fs: Fs, srcPath: Path, staticURL: string, files: seq<Path>, t: Template)
    ensures var r := DevMarkup(name, fs, srcPath, staticURL, files, t);
      && |BeginMarker(name)| <= |r| && r[..|BeginMarker(name)|] == BeginMarker(name)
      && |EndMarker| <= |r| && r[|r| - |EndMarker|..] == EndMarker
  {
    var parts := [BeginMarker(name)] + DevEntries(fs, srcPath, staticURL, files, t) + [EndMarker];
    assert parts[0] == BeginMarker(name) && parts[|parts| - 1] == EndMarker;
    JoinWithEnds(parts, TagSeparator);
  }
}
