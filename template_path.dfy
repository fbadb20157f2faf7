/**
 * Splitting a template file path into the directory handed to the template
 * loader and the file name of the template inside it, as done by
 * JinjaFileSystemEnvironmentExtended.split_template_path_and_filename.
 *
 * The source picks one delimiter for the whole path ('/' when the path has
 * one, '\' otherwise), splits on it, pops the last segment as the file name
 * and joins the remaining segments again, followed by one more delimiter.
 */
module TemplatePath {

  const Slash: char := '/'
  const Backslash: char := '\\'

  /** `sep.join(parts)` for a one-character separator; the empty list joins to "". */
  function Join(parts: seq<string>, sep: char): string
  {
    if |parts| == 0 then ""
    else if |parts| == 1 then parts[0]
    else Join(parts[..|parts| - 1], sep) + [sep] + parts[|parts| - 1]
  }

  /**
   * `s.split(sep)` for a one-character separator: never empty, no segment
   * holds the separator, and joining the segments gives `s` back.
   */
  function Split(s: string, sep: char): (parts: seq<string>)
    ensures |parts| >= 1
    ensures forall i :: 0 <= i < |parts| ==> sep !in parts[i]
    ensures Join(parts, sep) == s
    ensures sep !in s ==> parts == [s]
  {
    if s == [] then [""]
    else
      var prev := Split(s[..|s| - 1], sep);
      var c := s[|s| - 1];
      assert s == s[..|s| - 1] + [c];
      if c == sep then prev + [""]
      else
        var k := |prev| - 1;
        var parts := prev[..k] + [prev[k] + [c]];
        assert parts[..k] == prev[..k];
        parts
  }

  /** The delimiter chosen for the whole path: '/' if it holds one, '\' otherwise. */
  function Delimiter(path: string): (d: char)
    ensures d == Slash <==> Slash in path
    ensures d != Slash ==> d == Backslash
  {
    if Slash in path then Slash else Backslash
  }

  /**
   * Returns (directory, file name). The file name is the last segment, so it
   * holds no delimiter; the directory always ends with the delimiter; when the
   * path holds the delimiter the two concatenate back to the path; when it
   * holds neither slash the directory is a lone backslash and the file name is
   * the whole path.
   */
  function SplitTemplatePathAndFilename(path: string): (r: (string, string))
    ensures Delimiter(path) !in r.1
    ensures |r.0| > 0 && r.0[|r.0| - 1] == Delimiter(path)
    ensures Delimiter(path) in path ==> r.0 + r.1 == path
    ensures Slash !in path && Backslash !in path ==> r == ([Backslash], path)
  {
    var sep := Delimiter(path);
    var parts := Split(path, sep);
    var filename := parts[|parts| - 1];
    var dir := Join(parts[..|parts| - 1], sep) + [sep];
    assert |parts| >= 2 ==> Join(parts, sep) == dir + filename;
    assert |parts| == 1 ==> parts[..0] == [] && dir == [sep];
    (dir, filename)
  }

  /**
   * The directory is the prefix of the path up to and including its LAST
   * delimiter, and the file name is everything after it: any split of the path
   * at an occurrence of the delimiter with no delimiter after it is the one
   * the function returns.
   */
  lemma LastDelimiterSplit(path: string, dir: string, filename: string)
    requires path == dir + [Delimiter(path)] + filename
    requires Delimiter(path) !in filename
    ensures SplitTemplatePathAndFilename(path) == (dir + [Delimiter(path)], filename)
  {
    var sep := Delimiter(path);
    var r := SplitTemplatePathAndFilename(path);
    assert path[|dir|] == sep;
    assert r.0[..|r.0| - 1] + [sep] + r.1 == path;
    SplitAtLastOccurrence(path, dir, filename, r.0[..|r.0| - 1], r.1, sep);
    assert r.0 == r.0[..|r.0| - 1] + [sep];
  }

  /** Two ways of writing `s` as `a + [x] + b` with no `x` in `b` are the same. */
  lemma SplitAtLastOccurrence(s: string, a: string, b: string, c: string, d: string, x: char)
    requires s == a + [x] + b && x !in b
    requires s == c + [x] + d && x !in d
    ensures a == c && b == d
  {
    assert s[|s| - |d| - 1] == x && s[|s| - |b| - 1] == x;
    assert forall j :: |a| < j < |s| ==> s[j] == b[j - |a| - 1];
    assert forall j :: |c| < j < |s| ==> s[j] == d[j - |c| - 1];
    assert |b| == |d|;
    assert b == s[|s| - |b|..] == d;
    assert a == s[..|a|] == c;
  }

  /** A path ending in its delimiter gives an empty file name and the whole path as directory. */
  lemma TrailingDelimiter(path: string)
    requires |path| > 0 && path[|path| - 1] == Delimiter(path)
    ensures SplitTemplatePathAndFilename(path) == (path, "")
  {
    var sep := Delimiter(path);
    assert path == path[..|path| - 1] + [sep] + "";
    LastDelimiterSplit(path, path[..|path| - 1], "");
    assert path[..|path| - 1] + [sep] == path;
  }

  /**
   * Once the path holds a '/', a backslash is an ordinary character: the
   * split happens at the last '/', and backslashes on either side stay in
   * the directory or in the file name.
   */
  lemma SlashPathKeepsBackslashes(dir: string, filename: string)
    requires Slash !in filename
    ensures SplitTemplatePathAndFilename(dir + [Slash] + filename) == (dir + [Slash], filename)
  {
    var path := dir + [Slash] + filename;
    assert path[|dir|] == Slash;
    LastDelimiterSplit(path, dir, filename);
  }
}
