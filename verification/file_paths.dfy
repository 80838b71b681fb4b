/** The System.IO.Path operations the bot uses, with the Unix rules of
    .NET: '/' is the only directory separator and a path is rooted when it
    starts with '/'. */
module FilePaths {
  import opened Text

  /** string.LastIndexOf(char): the last position of `c`, or -1. */
  function LastIndexOf(s: string, c: char): (r: int)
    ensures -1 <= r < |s|
    ensures r >= 0 ==> s[r] == c
    ensures forall j :: r < j < |s| ==> s[j] != c
  {
    LastBefore(s, c, |s|)
  }

  /** The last position of `c` before position `n`, or -1. */
  function LastBefore(s: string, c: char, n: nat): (r: int)
    requires n <= |s|
    ensures -1 <= r < n
    ensures r >= 0 ==> s[r] == c
    ensures forall j :: r < j < n ==> s[j] != c
    decreases n
  {
    if n == 0 then -1
    else if s[n - 1] == c then n - 1
    else LastBefore(s, c, n - 1)
  }

  /** No `c` follows position `k` when no index after `k` holds one. */
  lemma NoneAfter(s: string, c: char, k: int)
    requires -1 <= k < |s|
    requires forall j :: k < j < |s| ==> s[j] != c
    ensures c !in s[k + 1..]
  {
    var t := s[k + 1..];
    forall i | 0 <= i < |t|
      ensures t[i] != c
    {
      assert t[i] == s[k + 1 + i];
    }
  }

  /** Path.GetFileName: what follows the last separator. */
  function FileName(path: string): string {
    path[LastIndexOf(path, '/') + 1..]
  }

  /** The file name is the part of the path after its last separator. */
  lemma FileNameShape(path: string)
    ensures var r := FileName(path);
            && '/' !in r
            && |r| <= |path| && r == path[|path| - |r|..]
            && (|r| < |path| ==> path[|path| - |r| - 1] == '/')
  {
    NoneAfter(path, '/', LastIndexOf(path, '/'));
  }

  /** Path.GetFileNameWithoutExtension: the file name cut at its last '.',
      or the whole file name when it has no '.'. */
  function FileStem(path: string): string {
    CutExtension(FileName(path))
  }

  /** A file name cut at its last '.', or all of it when it has none. */
  function CutExtension(f: string): string {
    var d := LastIndexOf(f, '.');
    if d < 0 then f else f[..d]
  }

  /** What is cut off is the last '.' and what follows it. */
  lemma CutExtensionShape(f: string)
    ensures var r := CutExtension(f);
            && StartsWith(f, r)
            && (|r| == |f| <==> '.' !in f)
            && (|r| < |f| ==> f[|r|] == '.' && '.' !in f[|r| + 1..])
  {
    var d := LastIndexOf(f, '.');
    NoneAfter(f, '.', d);
    if d < 0 {
      assert f[..|f|] == f;
    } else {
      assert f[d] in f;
      assert f[..|f[..d]|] == f[..d];
    }
  }

  /** Cutting a name adds no character to it. */
  lemma CutExtensionWithin(f: string, c: char)
    requires c !in f
    ensures c !in CutExtension(f)
  {
    var d := LastIndexOf(f, '.');
    if d >= 0 {
      var r := f[..d];
      forall i | 0 <= i < |r|
        ensures r[i] != c
      {
        assert r[i] == f[i];
      }
    }
  }

  /** The stem is the file name up to its last '.', and all of it when it
      has none. */
  lemma FileStemShape(path: string)
    ensures var r, f := FileStem(path), FileName(path);
            && '/' !in r
            && StartsWith(f, r)
            && (|r| == |f| <==> '.' !in f)
            && (|r| < |f| ==> f[|r|] == '.' && '.' !in f[|r| + 1..])
  {
    FileNameShape(path);
    CutExtensionShape(FileName(path));
    CutExtensionWithin(FileName(path), '/');
  }

  /** Path.Combine(dir, name). */
  function Combine(dir: string, name: string): string {
    if |name| == 0 then dir
    else if |dir| == 0 || name[0] == '/' then name
    else if dir[|dir| - 1] == '/' then dir + name
    else dir + "/" + name
  }

  /** A file `name + ext` stored directly under a directory ending in '/'
      has `name` as its stem whenever `ext` is a single extension. */
  lemma StemUnderDirectory(dir: string, name: string, ext: string)
    requires |dir| > 0 && dir[|dir| - 1] == '/'
    requires '/' !in name && '/' !in ext
    requires |ext| > 0 && ext[0] == '.' && '.' !in ext[1..]
    ensures FileName(dir + name + ext) == name + ext
    ensures FileStem(dir + name + ext) == name
  {
    var p := dir + name + ext;
    var k := LastIndexOf(p, '/');
    assert p[|dir| - 1] == '/';
    assert p[|dir|..] == name + ext;
    forall j | |dir| <= j < |p|
      ensures p[j] != '/'
    {
      assert p[j] == (name + ext)[j - |dir|];
      assert (name + ext)[j - |dir|] in name + ext;
    }
    assert k == |dir| - 1;
    var f := name + ext;
    var d := LastIndexOf(f, '.');
    assert f[|name|] == '.';
    forall j | |name| < j < |f|
      ensures f[j] != '.'
    {
      assert f[j] == ext[1..][j - |name| - 1];
      assert ext[1..][j - |name| - 1] in ext[1..];
    }
    assert d == |name|;
  }
}
