/** The part of `os.path` and `os.makedirs` that the cache and log writes
    depend on. */
module Paths {

  /** `os.path.dirname(path) != ''`: the path names a directory part exactly
      when it contains a separator. */
  predicate HasDirectory(path: string) {
    '/' in path
  }

  /** `path` ends with `name`. */
  predicate EndsWithName(path: string, name: string) {
    |name| <= |path| && path[|path| - |name|..] == name
  }

  /** `str(e)` of `os.makedirs('')`, raised before writing a file whose path
      has no directory part. */
  const NO_SUCH_DIRECTORY: string := "[Errno 2] No such file or directory: ''"

  /** `os.path.join(directory, name)` for a relative name: an empty directory
      leaves the name alone, any other directory gives the path a directory part. */
  function PathJoin(directory: string, name: string): (path: string)
    requires name == [] || name[0] != '/'
    ensures directory != [] ==> HasDirectory(path) && EndsWithName(path, name)
    ensures directory == [] ==> path == name
  {
    if directory == [] then name
    else if directory[|directory| - 1] == '/' then directory + name
    else directory + "/" + name
  }
}
