/**
 * An abstract local file system, as the bundle builder and the tag renderer
 * see it through `os.Stat`, `os.Open`, `os.MkdirAll` and `os.OpenFile`.
 *
 * Files are kept in a map from path to content and modification time. Every
 * operation that can fail in the operating system fails here exactly when the
 * path is absent, is listed in one of the fault sets, which stand for
 * permission errors and the like, or exceeds the space left for it. Writes
 * stamp the file with the clock `now`.
 */
module Files {

  type Path = string

  datatype Option<T> = None | Some(value: T)

  /** A value, or the text of the error that the operation reported. */
  datatype Result<T> = Ok(value: T) | Err(msg: string)

  /** Modification times are kept in nanoseconds since the Unix epoch. */
  const NanosPerSecond: int := 1_000_000_000

  /**
   * Whole Unix seconds of a timestamp, as Go's `Time.Unix` gives them: the
   * floor of the division, which is what Dafny's `/` computes for a positive
   * divisor.
   */
  function Unix(nanos: int): int
  {
    nanos / NanosPerSecond
  }

  datatype File = File(content: string, mtime: int)

  datatype Fs = Fs(
    files: map<Path, File>,
    dirs: set<Path>,
    now: int,                  // the clock that stamps every write
    readFaults: set<Path>,     // os.Open fails on these
    mkdirFaults: set<Path>,    // os.MkdirAll fails on these
    createFaults: set<Path>,   // os.OpenFile(O_CREATE|O_WRONLY|O_TRUNC) fails on these
    writeLimits: map<Path, nat>) // File.WriteString stores at most this many characters here

  /** Two file systems that differ at most in their files and directories. */
  predicate SameEnvironment(a: Fs, b: Fs)
  {
    a.now == b.now && a.readFaults == b.readFaults && a.mkdirFaults == b.mkdirFaults &&
    a.createFaults == b.createFaults && a.writeLimits == b.writeLimits
  }

  /**
   * Joins two path elements with a separator, ignoring empty elements, as
   * `filepath.Join` and `path.Join` do; their lexical cleaning is not modelled.
   */
  function Join(a: Path, b: Path): Path
  {
    if a == [] then b else if b == [] then a else a + "/" + b
  }

  /** The directory part of a path, up to and including the last separator (`filepath.Split`). */
  function Dir(p: Path): Path
  {
    if p == [] then [] else if p[|p| - 1] == '/' then p else Dir(p[..|p| - 1])
  }

  /** `os.Stat`: the modification time of an existing path. */
  function Stat(fs: Fs, p: Path): Result<int>
  {
    if p in fs.files then Ok(fs.files[p].mtime) else Err("stat " + p + ": no such file or directory")
  }

  /** `os.Open` followed by reading the whole file. */
  function ReadFile(fs: Fs, p: Path): Result<string>
  {
    if p !in fs.files then Err("open " + p + ": no such file or directory")
    else if p in fs.readFaults then Err("open " + p + ": permission denied")
    else Ok(fs.files[p].content)
  }

  /** The file system after an operation, and whether the operation succeeded. */
  datatype Outcome = Outcome(fs: Fs, ok: bool)

  /**
   * `os.MkdirAll`. The empty path names no directory: `os.MkdirAll("")` fails
   * with "mkdir : no such file or directory".
   */
  function MkdirAll(fs: Fs, d: Path): (r: Outcome)
    ensures r.fs.files == fs.files && SameEnvironment(r.fs, fs)
    ensures r.ok <==> d != [] && d !in fs.mkdirFaults
  {
    if d == [] || d in fs.mkdirFaults then Outcome(fs, false) else Outcome(fs.(dirs := fs.dirs + {d}), true)
  }

  /** Whether writing `s` to `p` fits in the space left there. */
  predicate Fits(fs: Fs, p: Path, s: string)
  {
    p !in fs.writeLimits || |s| <= fs.writeLimits[p]
  }

  /**
   * The write sequence used for cache files and bundle artifacts: create the
   * parent directory, open the file with O_CREATE|O_WRONLY|O_TRUNC, write the
   * text. Opening truncates the file and stamps it; a write that runs out of
   * space after the open stores the part of the text that fit, and the file
   * keeps the fresh modification time.
   */
  function WriteFile(fs: Fs, p: Path, s: string): (r: Outcome)
    ensures SameEnvironment(r.fs, fs)
    ensures r.fs.files - {p} == fs.files - {p}
    ensures r.ok <==> Dir(p) != [] && Dir(p) !in fs.mkdirFaults && p !in fs.createFaults && Fits(fs, p, s)
    ensures r.ok ==> r.fs.files == fs.files[p := File(s, fs.now)]
    ensures !r.ok && (Dir(p) == [] || Dir(p) in fs.mkdirFaults || p in fs.createFaults) ==> r.fs.files == fs.files
    ensures !r.ok && Dir(p) != [] && Dir(p) !in fs.mkdirFaults && p !in fs.createFaults ==>
      p in fs.writeLimits && fs.writeLimits[p] < |s| &&
      r.fs.files == fs.files[p := File(s[..fs.writeLimits[p]], fs.now)]
  {
    var m := MkdirAll(fs, Dir(p));
    if !m.ok then m
    else if p in fs.createFaults then Outcome(m.fs, false)
    else
      var truncated := m.fs.(files := m.fs.files[p := File("", fs.now)]);
      if !Fits(fs, p, s) then Outcome(truncated.(files := truncated.files[p := File(s[..fs.writeLimits[p]], fs.now)]), false)
      else Outcome(truncated.(files := truncated.files[p := File(s, fs.now)]), true)
  }
}
