/** Path composition as the scripts use it: `pathlib` on the POSIX evaluation
    container, `os.path` (Windows flavour) in the data-preparation scripts.
    Normalisation of "." components, repeated separators and drive letters is
    not modelled. */
module Paths {

  /** `PurePosixPath(base) / part`: an absolute part replaces the base, an empty part is dropped. */
  function PosixJoin(base: string, part: string): (r: string)
    ensures |part| > 0 && part[0] != '/' && |base| > 0 && base[|base| - 1] != '/' ==> r == base + "/" + part
    ensures |part| > 0 && part[0] == '/' ==> r == part
  {
    if |part| == 0 then base
    else if part[0] == '/' || |base| == 0 then part
    else if base[|base| - 1] == '/' then base + part
    else base + "/" + part
  }

  predicate IsWinSep(c: char)
  {
    c == '\\' || c == '/'
  }

  /** A directory-entry name, as `os.listdir` returns it: non-empty, no separator. */
  predicate PlainName(name: string)
  {
    |name| > 0 && forall i :: 0 <= i < |name| ==> !IsWinSep(name[i])
  }

  /** `ntpath.join(base, part)`. */
  function WinJoin(base: string, part: string): string
  {
    if |part| > 0 && IsWinSep(part[0]) then part
    else if |base| == 0 || IsWinSep(base[|base| - 1]) then base + part
    else base + "\\" + part
  }

  /** The joined path ends with `part`; a part starting at a separator replaces
      the base, and a plain name goes after a base without a trailing separator
      with one backslash between them. */
  lemma WinJoinShape(base: string, part: string)
    ensures var r := WinJoin(base, part);
      && |part| <= |r| && r[|r| - |part|..] == part
      && (|part| > 0 && IsWinSep(part[0]) ==> r == part)
      && (PlainName(part) && |base| > 0 && !IsWinSep(base[|base| - 1]) ==> r == base + "\\" + part)
  {
  }

  /** `ntpath.basename(path)`: what follows the last separator, which holds no
      separator itself. */
  function Basename(path: string): string
  {
    if |path| == 0 then ""
    else if IsWinSep(path[|path| - 1]) then ""
    else Basename(path[..|path| - 1]) + [path[|path| - 1]]
  }

  /** The base name is a separator-free suffix of the path, and the whole of
      what follows the last separator. */
  lemma {:induction false} BasenameShape(path: string)
    ensures var r := Basename(path);
      && |r| <= |path| && r == path[|path| - |r|..]
      && (forall i :: 0 <= i < |r| ==> !IsWinSep(r[i]))
      && (|r| == |path| || IsWinSep(path[|path| - |r| - 1]))
  {
    if |path| > 0 && !IsWinSep(path[|path| - 1]) {
      var pre := path[..|path| - 1];
      BasenameShape(pre);
      var r := Basename(path);
      assert r == Basename(pre) + [path[|path| - 1]];
      assert path == pre + [path[|path| - 1]];
      assert path[|path| - |r|..] == pre[|pre| - |Basename(pre)|..] + [path[|path| - 1]];
    }
  }

  /** The base name of a directory entry's path is the entry's name. */
  lemma {:induction false} BasenameOfJoin(dir: string, name: string)
    requires PlainName(name)
    ensures Basename(WinJoin(dir, name)) == name
  {
    var p := WinJoin(dir, name);
    var prefix := p[..|p| - |name|];
    assert p == prefix + name;
    assert |prefix| == 0 || IsWinSep(prefix[|prefix| - 1]);
    BasenameAfterSep(prefix, name);
  }

  lemma {:induction false} BasenameAfterSep(prefix: string, name: string)
    requires forall i :: 0 <= i < |name| ==> !IsWinSep(name[i])
    requires |prefix| == 0 || IsWinSep(prefix[|prefix| - 1])
    ensures Basename(prefix + name) == name
  {
    if |name| == 0 {
      assert prefix + name == prefix;
    } else {
      var n := |name| - 1;
      assert (prefix + name)[..|prefix + name| - 1] == prefix + name[..n];
      BasenameAfterSep(prefix, name[..n]);
      assert name == name[..n] + [name[n]];
    }
  }
}
