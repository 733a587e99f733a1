/** Where a path leads, read character by character from a directory. */
module PathWalk {

  /** A directory, by the names on the way to it from the root. */
  type Directory = seq<string>

  /** One part: nothing and "." stay, ".." goes up unless at the root, a name goes down. */
  function Enter(dir: Directory, part: string): Directory {
    if part == "" || part == "." then dir
    else if part != ".." then dir + [part]
    else if dir == [] then []
    else dir[..|dir| - 1]
  }

  /** The rest `s` of a path, when `part` is what has been read of the current part. */
  function Walk(dir: Directory, part: string, s: string): Directory
    decreases |s|
  {
    if s == "" then Enter(dir, part)
    else if s[0] == '/' then Walk(Enter(dir, part), "", s[1..])
    else Walk(dir, part + [s[0]], s[1..])
  }

  /** Where path `s` leads from `dir`; a path that starts with a separator starts at the root. */
  function Leads(dir: Directory, s: string): Directory {
    Walk(if s != "" && s[0] == '/' then [] else dir, "", s)
  }
}
