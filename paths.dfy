/** File-system paths, as the program prints them in its error messages. */
module Paths {

  /** A path; byte-level `OsString` details are not modelled. */
  type Path = string

  /** Whether `p` already ends in a separator, or is empty: `PathBuf::push`
      adds no separator then. */
  predicate EndsInSeparator(p: Path) {
    |p| == 0 || p[|p| - 1] == '/'
  }

  /** `p` is `dir` itself or a path beneath it: `dir` followed by whole
      components, not merely a string with `dir` as its prefix. */
  predicate Beneath(dir: Path, p: Path) {
    dir <= p && (|p| == |dir| || EndsInSeparator(dir) || p[|dir|] == '/')
  }

  /** `DirEntry::path()`: the directory's path joined with the entry's name
      as `PathBuf::join` does it, with a `/` between them unless the
      directory's path already ends in one. */
  function Join(dir: Path, name: string): (r: Path)
    ensures |r| == |dir| + |name| + (if EndsInSeparator(dir) then 0 else 1)
    ensures dir <= r && r[|r| - |name|..] == name
    ensures |dir| > 0 ==> r[|r| - |name| - 1] == '/'
  {
    if EndsInSeparator(dir) then dir + name else dir + "/" + name
  }
}
