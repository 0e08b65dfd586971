/** The exceptions the program raises, as values. Each constructor names the
    Python exception it stands for; none of these is caught by the dispatch
    loop, so each one ends the run. */
module Errors {

  import opened Wrappers
  import opened Patterns

  datatype Failure =
    | DuplicateHandler(pattern: Pattern, filter: Option<string>)  // AssertionError in `handler`
    | UnpackError                                                // ValueError: too many values to unpack
    | NoHandler(category: string, source: string)                // RuntimeError in `handle_file`
    | EmptySourceFilename                                        // AssertionError in `File.__init__`
    | UnsplittablePath(path: string)                             // TypeError/ValueError in `_split_on_category`
    | DirectoryNotCreated(path: string)                          // Exception in `ensure_directory`
    | LinkFailed(source: string, destination: string)            // OSError from `os.link`
    | StatFailed(path: string)                                   // OSError from `os.stat`
    | UnparsableListingLine(line: string)                        // AttributeError/ValueError in `rar_contents`
    | LookupError(series: string)                                // a show-database error nobody catches
    | OutOfFuel                                                  // the model's recursion bound
}
