/** `os.path.join` for two components, by the POSIX rule. */
module Paths {

  /**
   * A component that starts with '/' replaces what came before; otherwise the
   * two are glued with one '/' unless the directory is empty or already ends
   * with one. Either way the joined path ends with the file name.
   */
  function Join(dir: string, name: string): (path: string)
    ensures |name| <= |path| && path[|path| - |name|..] == name
    ensures (|name| > 0 && name[0] == '/') ==> path == name
    ensures !(|name| > 0 && name[0] == '/') ==>
      && (path[..|path| - |name|] == dir || path[..|path| - |name|] == dir + "/")
      && (path[..|path| - |name|] == dir <==> dir == [] || dir[|dir| - 1] == '/')
  {
    if |name| > 0 && name[0] == '/' then name
    else if dir == [] || dir[|dir| - 1] == '/' then dir + name
    else dir + "/" + name
  }
}
