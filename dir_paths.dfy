/** get_dir_path: a guest path without its final component.

    A path is the C string without its terminating NUL. The C code copies the
    path into a buffer, moves an offset back over trailing separators and then
    over the last component, and writes a NUL at the offset; the offset never
    goes below 1, so the root "/" is never cut away. */
module DirPaths {

  type Path = seq<char>

  /** Where the backward scan over trailing separators stops: the largest
      index k <= offset that is 1 or does not hold a separator. */
  function SkipSeparators(p: Path, offset: nat): (k: nat)
    requires 1 <= offset < |p|
    ensures 1 <= k <= offset
    ensures k == 1 || p[k] != '/'
    ensures forall j :: k < j <= offset ==> p[j] == '/'
    decreases offset
  {
    if offset > 1 && p[offset] == '/' then SkipSeparators(p, offset - 1) else offset
  }

  /** Where the backward scan over the last component stops: the largest
      index k <= offset that is 1 or holds a separator. */
  function SkipComponent(p: Path, offset: nat): (k: nat)
    requires 1 <= offset < |p|
    ensures 1 <= k <= offset
    ensures k == 1 || p[k] == '/'
    ensures forall j :: k < j <= offset ==> p[j] != '/'
    decreases offset
  {
    if offset > 1 && p[offset] != '/' then SkipComponent(p, offset - 1) else offset
  }

  /** The value get_dir_path leaves in its output buffer. Paths of at most one
      character are returned unchanged; longer ones are cut strictly shorter
      but never to nothing. */
  function DirPath(p: Path): (r: Path)
    ensures r <= p
    ensures |p| <= 1 ==> r == p
    ensures |p| >= 2 ==> 1 <= |r| < |p|
  {
    if |p| <= 1 then p else p[..SkipComponent(p, SkipSeparators(p, |p| - 1))]
  }

  /** The cut point k of a path of length at least 2: index 1 or a separator
      that starts a non-empty component, and no separator after k is followed
      by anything but separators (the part after k is one component and its
      trailing separators). */
  ghost predicate IsCut(p: Path, k: int)
  {
    && 1 <= k < |p|
    && (k == 1 || p[k] == '/')
    && (k > 1 ==> k + 1 < |p| && p[k + 1] != '/')
    && (forall i, j :: k < i < j < |p| && p[i] == '/' ==> p[j] == '/')
  }

  /** get_dir_path cuts at the cut point. */
  lemma DirPathCutsAtLastComponent(p: Path)
    requires |p| >= 2
    ensures IsCut(p, |DirPath(p)|)
    ensures DirPath(p) == p[..|DirPath(p)|]
  {
  }

  /** The cut point is unique, so IsCut is an independent definition of what
      get_dir_path returns. */
  lemma CutIsUnique(p: Path, k1: int, k2: int)
    requires IsCut(p, k1) && IsCut(p, k2)
    ensures k1 == k2
  {
  }

  /** Any cut point determines get_dir_path's result. */
  lemma DirPathIsCut(p: Path, k: int)
    requires |p| >= 2 && IsCut(p, k)
    ensures DirPath(p) == p[..k]
  {
  }

  /** Worked values: the last component is removed; the root and a top-level
      entry give the root; a trailing separator is skipped before the last
      component is located, so "/a/b/" loses "b". */
  lemma DirPathExamples()
    ensures DirPath("/a/b/c") == "/a/b"
    ensures DirPath("/a/b/") == "/a"
    ensures DirPath("/a") == "/"
    ensures DirPath("/") == "/"
    ensures DirPath("/a//") == "/"
  {
    DirPathIsCut("/a/b/c", 4);
    DirPathIsCut("/a/b/", 2);
    DirPathIsCut("/a", 1);
    DirPathIsCut("/a//", 1);
  }

  /** get_dir_path as the C code runs it: two backward scans and a cut. */
  method GetDirPath(path: Path) returns (dirPath: Path)
    ensures dirPath == DirPath(path)
  {
    var offset := |path| - 1;
    if offset > 0 {
      // Skip trailing path separators.
      while offset > 1 && path[offset] == '/'
        invariant 1 <= offset < |path|
        invariant SkipSeparators(path, offset) == SkipSeparators(path, |path| - 1)
      {
        offset := offset - 1;
      }
      ghost var t := offset;
      // Search for the previous path separator.
      while offset > 1 && path[offset] != '/'
        invariant 1 <= offset <= t
        invariant SkipComponent(path, offset) == SkipComponent(path, t)
      {
        offset := offset - 1;
      }
      // Cut the end of the string before the last component.
      dirPath := path[..offset];
    } else {
      dirPath := path;
    }
  }
}
