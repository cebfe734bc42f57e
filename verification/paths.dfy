/**
 POSIX path helpers used to locate an issue: `Dirname` and `Basename` split a
 path at its last '/', `Join` glues a directory and a relative path. This is
 the part of Node's `path.dirname` / `path.join` the validator relies on: a
 "." directory disappears in a join, and no other normalisation happens.
 */
module Paths {
  import opened Text

  function Dirname(f: string): (d: string)
    ensures '/' !in f ==> d == "."
    ensures '/' in f ==> |d| > 0 && |d| <= |f|
  {
    match LastIndexOf(f, '/')
    case None => "."
    case Some(i) => if i == 0 then "/" else f[..i]
  }

  function Basename(f: string): (b: string)
    ensures '/' !in b
    ensures |b| <= |f|
  {
    match LastIndexOf(f, '/')
    case None => f
    case Some(i) => f[i + 1..]
  }

  function Join(dir: string, p: string): (r: string)
    ensures dir != "." ==> |r| == |dir| + |p| + (if dir == "/" then 0 else 1)
    ensures dir != "." ==> r[..|dir|] == dir
  {
    if dir == "." then p
    else if dir == "/" then dir + p
    else dir + "/" + p
  }

  /** Position `i` of `f` starts a '/'-separated segment. */
  predicate SegmentStart(f: string, i: nat) {
    i == 0 || (0 < i <= |f| && f[i - 1] == '/')
  }

  /** Position `j` of `f` ends a '/'-separated segment. */
  predicate SegmentEnd(f: string, j: nat) {
    j == |f| || (j < |f| && f[j] == '/')
  }

  /**
   `f` is already in the form path normalisation produces: it is non-empty,
   has no doubled or trailing '/', and no segment is `.` or `..`.
   */
  predicate PlainPath(f: string) {
    && f != ""
    && f[|f| - 1] != '/'
    && (forall i :: 0 <= i < |f| - 1 ==> !(f[i] == '/' && f[i + 1] == '/'))
    && (forall i :: 0 <= i < |f| && f[i] == '.' && SegmentStart(f, i) ==> !SegmentEnd(f, i + 1))
    && (forall i :: 0 <= i < |f| - 1 && f[i] == '.' && f[i + 1] == '.' && SegmentStart(f, i) ==> !SegmentEnd(f, i + 2))
  }

  /** Normalised names are plain; names with `.`, `..` or empty segments are not. */
  lemma PlainPathExamples()
    ensures PlainPath("api.raml") && PlainPath("a/b.raml") && PlainPath("/srv/api.raml")
    ensures !PlainPath("x/../api.raml") && !PlainPath("a/./b.raml") && !PlainPath("./b.raml")
    ensures !PlainPath("a//b.raml") && !PlainPath("a/b/") && !PlainPath("")
  {
    var up := "x/../api.raml";
    assert up[2] == '.' && up[3] == '.' && SegmentStart(up, 2) && SegmentEnd(up, 4);
    var here := "a/./b.raml";
    assert here[2] == '.' && SegmentStart(here, 2) && SegmentEnd(here, 3);
    var dot := "./b.raml";
    assert dot[0] == '.' && SegmentStart(dot, 0) && SegmentEnd(dot, 1);
    var twice := "a//b.raml";
    assert twice[1] == '/' && twice[2] == '/';
  }

  /** Joining a plain path's directory with its base name gives the path back. */
  lemma JoinDirnameBasename(f: string)
    requires PlainPath(f)
    ensures Join(Dirname(f), Basename(f)) == f
  {
    match LastIndexOf(f, '/')
    case None =>
    case Some(i) =>
      if i == 0 {
        assert f == "/" + f[1..];
      } else {
        assert f[..i] != "." && f[..i] != "/" by {
          if i == 1 {
            assert f[..i][0] == f[0] && f[1] == '/';
            assert SegmentStart(f, 0) && SegmentEnd(f, 1);
          }
        }
        assert f == f[..i] + "/" + f[i + 1..];
      }
  }

  /** A "./"-prefixed file name is not what its own directory and base name join to. */
  lemma DotSlashJoinsToBareName(b: string)
    requires '/' !in b
    ensures Join(Dirname("./" + b), Basename("./" + b)) == b
    ensures Join(Dirname("./" + b), Basename("./" + b)) != "./" + b
  {
    var f := "./" + b;
    LastIndexOfBeforeTail(".", '/', b);
    assert f == "." + ['/'] + b;
    assert f[..1] == ".";
    assert f[2..] == b;
  }
}
