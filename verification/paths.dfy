/** File-system paths as Rust's `PathBuf` treats them, after normalisation:
    a flag for "starts at the root" and the list of components. */
module Paths {
  import opened Wrappers
  import opened Text

  datatype Path = Path(absolute: bool, parts: seq<string>)

  /** `PathBuf::push(p)`: an absolute `p` replaces the whole path, a relative
      one is appended component by component. */
  function Push(base: Path, p: Path): Path
  {
    if p.absolute then p else Path(base.absolute, base.parts + p.parts)
  }

  /** `PathBuf::push(name)` / `Path::join(name)` with a single plain component. */
  function Child(base: Path, name: string): Path
  {
    Path(base.absolute, base.parts + [name])
  }

  /** `PathBuf::pop`: drops the last component; a path without components is
      left as it is. */
  function Pop(p: Path): Path
  {
    if |p.parts| == 0 then p else Path(p.absolute, p.parts[..|p.parts| - 1])
  }

  /** `Path::ends_with` for a relative suffix: compares whole components. */
  predicate EndsWithParts(p: Path, suffix: seq<string>)
  {
    |suffix| <= |p.parts| && p.parts[|p.parts| - |suffix|..] == suffix
  }

  /** `Path::to_str` on a Unix system. */
  function ToString(p: Path): string
  {
    (if p.absolute then "/" else "") + Join(p.parts, '/')
  }

  /** `Path::file_name`: the last component, if there is one and it is
      not `..`. */
  function FileName(p: Path): (r: Option<string>)
    ensures r.Some? <==> |p.parts| > 0 && p.parts[|p.parts| - 1] != ".."
    ensures r.Some? ==> r.value == p.parts[|p.parts| - 1]
  {
    if |p.parts| == 0 || p.parts[|p.parts| - 1] == ".." then None else Some(p.parts[|p.parts| - 1])
  }

  /** The index of the last `c` in `s`. */
  function LastIndexOf(s: string, c: char): (r: Option<nat>)
    ensures r.Some? ==> r.value < |s| && s[r.value] == c && Free(s[r.value + 1..], c)
    ensures r.None? ==> Free(s, c)
    decreases |s|
  {
    if |s| == 0 then None
    else if s[|s| - 1] == c then Some(|s| - 1)
    else
      var r := LastIndexOf(s[..|s| - 1], c);
      assert forall i :: 0 <= i < |s| - 1 ==> s[..|s| - 1][i] == s[i];
      r
  }

  /** `Path::extension` applied to a file name: the text after the last dot,
      except for `..`, for names without a dot and for names whose only dot
      leads them (`.profile`). */
  function Extension(name: string): Option<string>
  {
    if name == ".." then None
    else match LastIndexOf(name, '.')
      case None => None
      case Some(i) => if i == 0 then None else Some(name[i + 1..])
  }

  /** What `Extension` returns is the dot-free tail of the name, behind a
      non-empty stem. */
  lemma ExtensionShape(name: string)
    requires Extension(name).Some?
    ensures var e := Extension(name).value;
            Free(e, '.') && |e| + 2 <= |name| && name[|name| - |e|..] == e
            && name[|name| - |e| - 1] == '.'
  {
  }

  /** A stem and a dot-free extension are split apart again by `Extension`
      (the one name this cannot hold for is `..`). */
  lemma {:induction false} ExtensionOf(stem: string, ext: string)
    requires |stem| > 0 && Free(ext, '.') && stem + "." + ext != ".."
    ensures Extension(stem + "." + ext) == Some(ext)
  {
    var name := stem + "." + ext;
    LastDotAfterStem(stem, ext);
    assert name[|stem| + 1..] == ext;
  }

  lemma {:induction false} LastDotAfterStem(stem: string, ext: string)
    requires Free(ext, '.')
    ensures LastIndexOf(stem + "." + ext, '.') == Some(|stem|)
    decreases |ext|
  {
    var name := stem + "." + ext;
    if ext != [] {
      assert name[..|name| - 1] == stem + "." + ext[..|ext| - 1];
      assert name[|name| - 1] == ext[|ext| - 1];
      LastDotAfterStem(stem, ext[..|ext| - 1]);
    }
  }
}
