/**
 * String helpers: the bounds-checked argument lookup `argString.Get`, the
 * inline diagnostic comment produced by `errHtml`, `strings.Join`, and the
 * decimal rendering `fmt.Sprint` gives an integer.
 */
module Utils {

  /** A list of string arguments (Go's `argString`). */
  type ArgString = seq<string>

  /**
   * `a.Get(i, defs...)`: the i-th argument when it exists, otherwise the first
   * default, otherwise the empty string.
   */
  function Get(a: ArgString, i: int, defs: seq<string>): (r: string)
    ensures 0 <= i < |a| ==> r == a[i]
    ensures (i < 0 || |a| <= i) && |defs| > 0 ==> r == defs[0]
    ensures (i < 0 || |a| <= i) && |defs| == 0 ==> r == ""
    ensures r in a || r in defs || r == ""
  {
    if 0 <= i < |a| then a[i] else if |defs| > 0 then defs[0] else ""
  }

  const ErrPrefix: string := "<!-- Beego Compress: "
  const ErrSuffix: string := " -->"

  /**
   * The markup `errHtml` returns for an already formatted message: an HTML
   * comment carrying the message after the "Beego Compress: " tag.
   */
  function ErrHtml(msg: string): string
  {
    ErrPrefix + msg + ErrSuffix
  }

  /** The comment is the prefix, then the message, then the suffix. */
  lemma ErrHtmlLayout(msg: string)
    ensures var r := ErrHtml(msg);
      && |r| == |ErrPrefix| + |msg| + |ErrSuffix|
      && r[..|ErrPrefix|] == ErrPrefix
      && r[|ErrPrefix|..|r| - |ErrSuffix|] == msg
      && r[|r| - |ErrSuffix|..] == ErrSuffix
  {
  }

  /** The message can be read back from the comment, so distinct messages give distinct comments. */
  lemma ErrHtmlInjective(m1: string, m2: string)
    ensures ErrHtml(m1) == ErrHtml(m2) ==> m1 == m2
  {
    ErrHtmlLayout(m1);
    ErrHtmlLayout(m2);
  }

  /** `strings.Join`: the parts in order, with `sep` between neighbours. */
  function JoinWith(parts: seq<string>, sep: string): string
  {
    if |parts| == 0 then ""
    else if |parts| == 1 then parts[0]
    else parts[0] + sep + JoinWith(parts[1..], sep)
  }

  /** A joined list starts with its first part and ends with its last one. */
  lemma {:induction false} JoinWithEnds(parts: seq<string>, sep: string)
    requires |parts| > 0
    ensures var r := JoinWith(parts, sep);
      |parts[0]| <= |r| && r[..|parts[0]|] == parts[0] &&
      |parts[|parts| - 1]| <= |r| && r[|r| - |parts[|parts| - 1]|..] == parts[|parts| - 1]
  {
    if |parts| > 1 {
      JoinWithEnds(parts[1..], sep);
      var rest := JoinWith(parts[1..], sep);
      var last := parts[|parts| - 1];
      assert parts[1..][|parts[1..]| - 1] == last;
      var r := parts[0] + sep + rest;
      assert r[|r| - |last|..] == rest[|rest| - |last|..];
    }
  }

  /** Joining one more part at the end adds the separator and that part. */
  lemma {:induction false} JoinWithSnoc(parts: seq<string>, x: string, sep: string)
    requires |parts| > 0
    ensures JoinWith(parts + [x], sep) == JoinWith(parts, sep) + sep + x
  {
    if |parts| == 1 {
      assert parts + [x] == [parts[0], x];
    } else {
      assert (parts + [x])[1..] == parts[1..] + [x];
      JoinWithSnoc(parts[1..], x, sep);
    }
  }

  function DigitChar(d: int): char
    requires 0 <= d < 10
  {
    "0123456789"[d]
  }

  /** `fmt.Sprint` of an integer: its decimal digits, with a leading minus when negative. */
  function DecimalString(n: int): string
    decreases if n < 0 then 1 - n else n
  {
    if n < 0 then "-" + DecimalString(-n)
    else if n < 10 then [DigitChar(n)]
    else DecimalString(n / 10) + [DigitChar(n % 10)]
  }
}
