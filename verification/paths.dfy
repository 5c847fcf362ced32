/** The POSIX path operations the managers use to name their files:
    `os.path.basename`, `os.path.splitext(...)[0]` and `os.path.join`. */
module Paths {
  import opened Common

  /** `s.rfind(c)`, as an index when `c` occurs. */
  function LastIndexOf(s: string, c: char): (r: Option<nat>)
    ensures r.Some? ==> r.value < |s| && s[r.value] == c && c !in s[r.value + 1..]
    ensures r.None? ==> c !in s
  {
    if |s| == 0 then None
    else if s[|s| - 1] == c then Some(|s| - 1)
    else
      var r := LastIndexOf(s[..|s| - 1], c);
      assert s == s[..|s| - 1] + [s[|s| - 1]];
      r
  }

  /** Text after a last occurrence of `c` does not change where that occurrence is. */
  lemma {:induction false} LastIndexOfAppend(s: string, t: string, c: char)
    requires c !in t
    ensures LastIndexOf(s + t, c) == LastIndexOf(s, c)
  {
    if |t| > 0 {
      var u := s + t[..|t| - 1];
      assert (s + t)[..|s + t| - 1] == u;
      LastIndexOfAppend(s, t[..|t| - 1], c);
    } else {
      assert s + t == s;
    }
  }

  /** `os.path.basename`: the text after the last '/'. */
  function BaseName(path: string): (name: string)
    ensures '/' !in name
    ensures |name| <= |path| && path[|path| - |name|..] == name
  {
    match LastIndexOf(path, '/')
    case None => path
    case Some(i) => path[i + 1..]
  }

  predicate AllDots(s: string) {
    forall k :: 0 <= k < |s| ==> s[k] == '.'
  }

  /** `os.path.splitext(name)[0]` for a name without '/': the name without the
      text from its last '.', unless only dots come before that '.' (".bashrc"
      has no extension). */
  function StemOf(name: string): (stem: string)
    ensures |stem| <= |name| && name[..|stem|] == stem
  {
    match LastIndexOf(name, '.')
    case None => name
    case Some(i) => if AllDots(name[..i]) then name else name[..i]
  }

  /** `os.path.splitext(os.path.basename(path))[0]`: the name a manager files a transcript under. */
  function FileStem(path: string): string {
    StemOf(BaseName(path))
  }

  /** `os.path.join(dir, name)`. */
  function PathJoin(dir: string, name: string): (path: string)
    ensures |path| >= |name|
    ensures |name| > 0 && name[0] != '/' ==> path[|path| - |name|..] == name
  {
    if |name| > 0 && name[0] == '/' then name
    else if |dir| == 0 || dir[|dir| - 1] == '/' then dir + name
    else dir + "/" + name
  }

  /** A file joined onto a directory is the base name of the result. */
  lemma BaseNameOfJoin(dir: string, name: string)
    requires '/' !in name
    ensures BaseName(PathJoin(dir, name)) == name
  {
    if |dir| == 0 {
      LastIndexOfAppend("", name, '/');
      assert "" + name == name;
    } else if dir[|dir| - 1] == '/' {
      LastIndexOfAppend(dir, name, '/');
    } else {
      LastIndexOfAppend(dir + "/", name, '/');
      assert LastIndexOf(dir + "/", '/') == Some(|dir|);
    }
  }

  /** A name with one extension, and something other than dots before it, loses exactly that extension. */
  lemma StemOfExtension(base: string, ext: string)
    requires |ext| > 0 && ext[0] == '.' && '.' !in ext[1..] && !AllDots(base)
    ensures StemOf(base + ext) == base
  {
    var name := base + ext;
    assert name == (base + ".") + ext[1..];
    LastIndexOfAppend(base + ".", ext[1..], '.');
    assert LastIndexOf(base + ".", '.') == Some(|base|);
    assert name[..|base|] == base;
  }

  /** Two paths naming the same file in different directories share a stem. */
  lemma SameFileNameSameStem(dir1: string, dir2: string, name: string)
    requires '/' !in name
    ensures FileStem(PathJoin(dir1, name)) == FileStem(PathJoin(dir2, name))
  {
    BaseNameOfJoin(dir1, name);
    BaseNameOfJoin(dir2, name);
  }
}
