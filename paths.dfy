/**
 * The two members of System.IO.Path the core relies on, as they behave on a
 * Unix host, where '/' is both the directory separator and the root marker.
 */
module Paths {

  const Separator: char := '/'

  predicate IsRooted(p: string) {
    |p| > 0 && p[0] == Separator
  }

  predicate StartsWith(s: string, prefix: string) {
    |prefix| <= |s| && s[..|prefix|] == prefix
  }

  predicate EndsWith(s: string, suffix: string) {
    |suffix| <= |s| && s[|s| - |suffix|..] == suffix
  }

  /** A single path segment: a non-empty name without a separator. */
  predicate IsPlainName(name: string) {
    name != [] && Separator !in name
  }

  /**
   * Path.Combine(path1, path2): an empty argument yields the other one, a rooted
   * second argument wins, and otherwise one separator stands between the parts.
   */
  function Combine(path1: string, path2: string): string {
    if path2 == [] then path1
    else if path1 == [] then path2
    else if IsRooted(path2) then path2
    else if path1[|path1| - 1] == Separator then path1 + path2
    else path1 + [Separator] + path2
  }

  /** The combined path ends with the second part, and starts with the first unless the second is rooted. */
  lemma CombineShape(path1: string, path2: string)
    ensures path2 == [] ==> Combine(path1, path2) == path1
    ensures path2 != [] ==> EndsWith(Combine(path1, path2), path2)
    ensures !IsRooted(path2) ==> StartsWith(Combine(path1, path2), path1)
    ensures IsRooted(path2) ==> Combine(path1, path2) == path2
  {
  }

  /** Path.GetFileName(path): the characters after the last separator. */
  function GetFileName(path: string): string
    decreases |path|
  {
    if path == [] then []
    else if path[|path| - 1] == Separator then []
    else GetFileName(path[..|path| - 1]) + [path[|path| - 1]]
  }

  /**
   * The file name is characterised fully: a suffix of the path, free of
   * separators, and preceded by a separator unless it is the whole path.
   */
  lemma {:induction false} FileNameShape(path: string)
    ensures EndsWith(path, GetFileName(path))
    ensures Separator !in GetFileName(path)
    ensures |GetFileName(path)| < |path| ==> path[|path| - |GetFileName(path)| - 1] == Separator
    decreases |path|
  {
    if path != [] && path[|path| - 1] != Separator {
      var init, last := path[..|path| - 1], path[|path| - 1];
      FileNameShape(init);
      var r := GetFileName(init);
      assert path == init + [last];
      assert GetFileName(path) == r + [last];
      SuffixOfAppend(init, last, |r|);
      if |r| + 1 < |path| {
        assert path[|path| - |r| - 2] == init[|init| - |r| - 1];
      }
    }
  }

  /** A proof step for FileNameShape, kept apart so that its proof does not see the recursion. */
  lemma SuffixOfAppend(s: string, c: char, n: nat)
    requires n <= |s|
    ensures (s + [c])[|s| - n..] == s[|s| - n..] + [c]
  {
  }

  /** Whatever stands before a separator, the file name is the segment after it. */
  lemma {:induction false} FileNameAfterSeparator(dir: string, name: string)
    requires dir == [] || dir[|dir| - 1] == Separator
    requires Separator !in name
    ensures GetFileName(dir + name) == name
    decreases |name|
  {
    if name == [] {
      assert dir + name == dir;
    } else {
      var init := name[..|name| - 1];
      assert (dir + name)[..|dir + name| - 1] == dir + init;
      FileNameAfterSeparator(dir, init);
      assert init + [name[|name| - 1]] == name;
    }
  }

  /** Resolving a plain name against a directory keeps the name as the file name. */
  lemma FileNameOfCombine(dir: string, name: string)
    requires IsPlainName(name)
    ensures GetFileName(Combine(dir, name)) == name
  {
    if dir == [] {
      FileNameAfterSeparator([], name);
      assert [] + name == name;
    } else if dir[|dir| - 1] == Separator {
      FileNameAfterSeparator(dir, name);
    } else {
      FileNameAfterSeparator(dir + [Separator], name);
      assert dir + [Separator] + name == (dir + [Separator]) + name;
    }
  }
}
