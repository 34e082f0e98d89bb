/** The `System.IO.Path` operations the add-ons apply to asset paths. Asset
    paths use '/' between folders, which is the only separator modelled. */
module FilePaths {

  const Separator: char := '/'

  /** The index of the last `c` in `s`, or -1. */
  function LastIndexOf(s: string, c: char): (i: int)
    ensures -1 <= i < |s|
    ensures i >= 0 ==> s[i] == c
  {
    LastIndexBelow(s, c, |s|)
  }

  /** The index of the last `c` among the first `n` characters of `s`, or
      -1. */
  function LastIndexBelow(s: string, c: char, n: nat): (i: int)
    requires n <= |s|
    ensures -1 <= i < n
    ensures i >= 0 ==> s[i] == c
  {
    if n == 0 then -1
    else if s[n - 1] == c then n - 1
    else LastIndexBelow(s, c, n - 1)
  }

  /** No `c` follows the index `LastIndexBelow` finds. */
  lemma {:induction false} LastIndexBelowIsLast(s: string, c: char, n: nat)
    requires n <= |s|
    ensures forall j :: LastIndexBelow(s, c, n) < j < n ==> s[j] != c
  {
    if n > 0 && s[n - 1] != c {
      LastIndexBelowIsLast(s, c, n - 1);
    }
  }

  /** No `c` follows the index `LastIndexOf` finds. */
  lemma LastIndexOfIsLast(s: string, c: char)
    ensures forall j :: LastIndexOf(s, c) < j < |s| ==> s[j] != c
  {
    LastIndexBelowIsLast(s, c, |s|);
  }

  /** `Path.GetFileName(path)`: everything after the last separator. */
  function FileName(path: string): string {
    path[LastIndexOf(path, Separator) + 1..]
  }

  /** The file name is the end of the path and holds no separator. */
  lemma FileNameIsLastSegment(path: string)
    ensures var r := FileName(path);
      Separator !in r && |r| <= |path| && path[|path| - |r|..] == r
  {
    LastIndexOfIsLast(path, Separator);
  }

  /** `Path.GetDirectoryName(path)`: everything before the last separator, ""
      when there is none. */
  function DirectoryName(path: string): string {
    var i := LastIndexOf(path, Separator);
    if i < 0 then "" else path[..i]
  }

  /** The directory name is the start of the path. */
  lemma DirectoryNameIsPrefix(path: string)
    ensures var r := DirectoryName(path);
      |r| <= |path| && path[..|r|] == r
  {
  }

  /** `Path.GetExtension(path)`: the file name from its last '.', "" when the
      file name has no '.' or ends with it. */
  function Extension(path: string): string {
    var name := FileName(path);
    var i := LastIndexOf(name, '.');
    if i < 0 || i == |name| - 1 then "" else name[i..]
  }

  /** A non-empty extension is a '.' and at least one more character, none
      of them a separator. */
  lemma ExtensionShape(path: string)
    ensures var r := Extension(path);
      r != [] ==> r[0] == '.' && |r| >= 2 && Separator !in r
  {
    FileNameIsLastSegment(path);
  }

  /** `Path.GetFileNameWithoutExtension(path)`: the file name up to its last
      '.'. */
  function FileNameWithoutExtension(path: string): string {
    var name := FileName(path);
    var i := LastIndexOf(name, '.');
    if i < 0 then name else name[..i]
  }

  /** A path with a separator is its directory, a separator and its file
      name. */
  lemma DirectoryAndFileName(path: string)
    requires Separator in path
    ensures DirectoryName(path) + [Separator] + FileName(path) == path
  {
    LastIndexOfIsLast(path, Separator);
    var i := LastIndexOf(path, Separator);
    assert path[..i] + [path[i]] + path[i + 1..] == path;
  }

  /** The file name is its name without extension followed by its extension,
      unless it ends with a '.' (which `GetExtension` drops but
      `GetFileNameWithoutExtension` does not keep either). */
  lemma NameAndExtension(path: string)
    ensures var name := FileName(path);
      name == [] || name[|name| - 1] != '.' ==>
        FileNameWithoutExtension(path) + Extension(path) == name
  {
    var name := FileName(path);
    var i := LastIndexOf(name, '.');
    if i >= 0 && i < |name| - 1 {
      assert name[..i] + name[i..] == name;
    }
  }
}
