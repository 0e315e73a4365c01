/**
 * The parts of Rust's `std::path::Path` the application relies on. A path is the
 * sequence of its components; `file_name` and `extension` follow the standard
 * library's rules (the last component, unless it is `..`; the text after the last
 * dot of the file name, unless that dot is the first character).
 */
module Paths {
  import opened Wrappers

  type Path = seq<string>

  /** `Path::file_name`: the last component, absent for the empty path and for `..`. */
  function FileName(p: Path): (r: Option<string>)
    ensures r.Some? <==> |p| > 0 && p[|p| - 1] != ".."
    ensures r.Some? ==> r.value == p[|p| - 1]
  {
    if |p| == 0 || p[|p| - 1] == ".." then None else Some(p[|p| - 1])
  }

  /** Index of the last '.' in `s`, if any. */
  function LastDot(s: string): (r: Option<nat>)
    ensures r.Some? ==> r.value < |s| && s[r.value] == '.'
    ensures r.Some? ==> forall j :: r.value < j < |s| ==> s[j] != '.'
    ensures r.None? ==> forall j :: 0 <= j < |s| ==> s[j] != '.'
  {
    if s == [] then None
    else if s[|s| - 1] == '.' then Some(|s| - 1)
    else LastDot(s[..|s| - 1])
  }

  /**
   * The extension of a file name: the text after its last dot, provided the dot
   * is not the first character (`.bashrc` has none) and the name is not `..`.
   */
  function NameExtension(name: string): (r: Option<string>)
    ensures r.Some? <==> name != ".." && exists i :: 0 < i < |name| && name[i] == '.'
    ensures r.Some? ==>
      var dot := |name| - |r.value| - 1;
      0 < dot && name[dot] == '.' && name[dot + 1..] == r.value &&
      forall j :: 0 <= j < |r.value| ==> r.value[j] != '.'
  {
    if name == ".." then None
    else match LastDot(name)
      case None => None
      case Some(i) => if i == 0 then None else Some(name[i + 1..])
  }

  /** `Path::extension`: the extension of the file name, if there is a file name. */
  function Extension(p: Path): (r: Option<string>)
    ensures r.Some? ==> FileName(p).Some? && NameExtension(FileName(p).value) == r
    ensures FileName(p).Some? ==> r == NameExtension(FileName(p).value)
  {
    match FileName(p)
    case None => None
    case Some(name) => NameExtension(name)
  }
}
