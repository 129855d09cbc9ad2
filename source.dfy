/** `resolveSourceDirectory`: which directory the crawl starts from. The file
    system is abstract: `resolve` stands for `path.resolve` against the working
    directory and `isDirectory` for "`existsSync` and `statSync(..).isDirectory()`
    both succeed and say yes" (a throwing call counts as no). */
module Source {

  /** The chosen directory, and whether the "defaulting to the script repo
      root" warning was printed. */
  datatype Resolution = Resolution(dir: string, warned: bool)

  function ResolveSourceDirectory(userInput: string, resolve: string -> string,
                                  isDirectory: string -> bool, defaultSourceDir: string): (r: Resolution)
    // empty input: the default, silently
    ensures userInput == "" ==> r == Resolution(defaultSourceDir, false)
    // an input naming an existing directory is used as resolved
    ensures userInput != "" && isDirectory(resolve(userInput)) ==> r == Resolution(resolve(userInput), false)
    // any other input: the default, with a warning
    ensures userInput != "" && !isDirectory(resolve(userInput)) ==> r == Resolution(defaultSourceDir, true)
    // whatever is returned is the default or an existing directory
    ensures r.dir == defaultSourceDir || isDirectory(r.dir)
  {
    if userInput != "" then
      var candidate := resolve(userInput);
      if isDirectory(candidate) then Resolution(candidate, false)
      else Resolution(defaultSourceDir, true)
    else Resolution(defaultSourceDir, false)
  }
}
