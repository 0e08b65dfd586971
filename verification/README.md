# Torrent post-processor, modelled in Dafny

The post-processor runs when a torrent completes. It walks the torrent's
files and hands each one to the first registered handler whose pattern
matches the file's source path and whose category, if it has one, is the
file's category. Handlers yield new files, and those go through the same
dispatch again:

- `unrar` extracts the members of a RAR archive next to it.
- `tv_series_episodes` renames an episode after the TVDB show database and
  hard-links it into the library.
- `movies` hard-links a large enough movie to the top of the Movies
  directory.
- `no_op` catches everything else.

Every file is a `File` record. Its category (Movies, TVSeries, Other), its
internal directory and its destination in the library are derived from its
source path through `os.path` operations, unless a handler overrode them.

The model follows process.py, the single-file version of the program. It
also covers the package copies (post_processor/filesystem.py, framework.py,
handlers.py, archives.py, tv.py). Where a package copy differs, that copy is
modelled as well.

Modules, in dependency order:

| module | file | models |
|---|---|---|
| `Wrappers` | wrappers.dfy | `Option` and `Result` |
| `Text` | text.dfy | the string helpers used: `strip`, `split('\n')`, `int()`, `%02d`, `rfind` |
| `Patterns` | patterns.dfy | the three registered regular expressions and the split-volume test |
| `Paths` | paths.dfy | `os.path.split`, `dirname`, `basename`, `join` (posixpath) and `path_parts` |
| `Errors` | errors.dfy | the exceptions, as values |
| `Files` | files.dfy | the `File` record and its derived properties, plus `dissect_base_directory` |
| `Engine` | engine.dfy | the `handler` registry, `handle_file` and `process_files` |
| `Episodes` | episodes.dfy | `validate_episode_filename`, `normalise_show_name`, `get_tvdb_id`, `name_via_tvdb` |
| `Listings` | listings.dfy | how `rar_contents` reads the output of `unrar l` |
| `Archives` | archives.dfy | `rar_contents` and `unrar` |
| `Linking` | linking.dfy | `ensure_directory` and the `link` decorator |
| `Handlers` | handlers.dfy | `tv_series_episodes`, `movies`, `no_op` |
| `Program` | program.dfy | the four registrations of process.py and what dispatch does with them |
| `Framework` | framework.dfy | the package's registry as written (see Findings) |

The model has no Python objects and performs no I/O:

- The disk is a set of existing paths, and the TVDB id cache is a map.
  Both sit in a `World` value that handlers take and return.
- Each outside service is a parameter:
  - the `unrar` tool: test, list and extract;
  - `os.makedirs` and `os.link`;
  - `os.stat`'s size;
  - the TVDB show database.
- A handler's generator is modelled as the complete list it yields, the
  state after it, and the exception that ended it, if any.
- An exception ends the run. None of the handlers' exceptions is caught by
  `handle_file`.

## Model

| member | source | states |
|---|---|---|
| Text.SplitLinesRoundTrip | process.py:354 | joining the pieces of `split('\n')` with newlines gives back the text, so no character of the listing is lost or invented |
| Text.Pad2RoundTrip | process.py:317 | reading back a season or episode number formatted with `%02d` gives the number |
| Text.Strip | process.py:244 | `strip()` gives a slice of the input with only whitespace cut on either side and no whitespace left at either end, so exactly the outer whitespace goes |
| Patterns.SplitVolumeIsArchive | process.py:321-325 | every name the split-volume test flags (a `.r01` volume) is routed to `unrar` by the archive pattern, which then skips it |
| Patterns.VideoPatternQuirks | process.py:383 | only the `mp4` alternative is tied to the end, so `avi` anywhere (as in "David.txt") and `.mkv` in the middle both match |
| Patterns.ArchivePatternQuirk | process.py:321 | the `[rR]\d\d$` alternative needs no dot, so "Chapter01" goes to `unrar` although it is no split volume |
| Patterns.DollarBeforeNewline | process.py:323 | `$` also matches before one final newline, for both the split-volume test and the video pattern |
| Paths.Split | process.py:145 | `os.path.split`: the tail holds no '/', and it is empty only for an empty path or one that ends in '/' |
| Paths.SplitShape | process.py:145 | the tail is the suffix after the last '/' (the whole path when there is none); the head is the prefix before it, less trailing slashes unless it is all slashes |
| Paths.PathPartsOfRender | process.py:144-148 | `path_parts` of a path built from a root and segments gives back the root followed by exactly those segments |
| Paths.SplitRenderSnoc | process.py:145 | splitting a well-formed path separates its last segment from the path of the others |
| Paths.JoinAllRender | process.py:47-48 | folding `os.path.join` over a root and segments rebuilds the path |
| Paths.JoinPartsOfSegments | process.py:47 | `os.path.join(*segs)` of one or more segments joins them with '/' |
| Paths.JoinParts | process.py:47 | `os.path.join(*parts)` fails exactly when it is given no argument |
| Files.NewFile | process.py:37-41 | the constructor fails exactly for an empty literal source path, and otherwise starts with no overrides |
| Files.SourceFilename | process.py:66-74 | a torrent member's path is the download directory and the member name run together, with no separator |
| Files.DerivedCategoryPriority | process.py:80-91 | the category scan is a fixed priority: Movies over TVSeries over the default Other |
| Files.DerivedCategoryOfRender | process.py:80-91 | on a well-formed directory, the derived category depends only on which category names occur as segments |
| Files.SourcePartsOfRender | process.py:76-78 | `source_directory` and the default `filename` of a well-formed path are its leading segments and its last segment |
| Files.RightOfCategoryOfRender | process.py:43-56 | the derived `internal_directory` is the segments after the first occurrence of the category. It fails when the category is the last segment. With no category segment it succeeds only for a two-character path |
| Files.OverrideTruthiness | process.py:80-115 | an empty `category` or `filename` override is ignored, but an empty `internal_directory` override takes effect |
| Files.DestinationLayout | process.py:117-123 | the destination is the base, then the category, then the internal directory (left out when empty), then the file name |
| Files.Copy | process.py:125-126 | `__copy__` keeps the source and drops every override |
| Files.DissectOfRender | process.py:151-155 | `dissect_base_directory` returns '/' plus the inner segments, and the last segment when it is Movies or TVSeries, else Other |
| Engine.Register | process.py:180-195 | registering fails exactly when the (pattern, category) pair is already present; otherwise it appends the entry at the end |
| Engine.Lookup | process.py:405-408 | the entry picked is the first that applies; none is picked only when no entry applies |
| Engine.DispatchRunsFirstMatch | process.py:405-414 | every handler invocation in a whole dispatch tree ran the first entry that applies to its file |
| Engine.DispatchEachRunsFirstMatch | process.py:410-411 | the same holds for a sequence of files handled one after the other |
| Engine.CatchAllDispatch | process.py:413-414 | with a filter-less `.*` entry, and handlers that never raise the "don't know how to handle" error themselves, dispatch never raises it |
| Engine.CatchAllDispatchEach | process.py:410-411 | the same holds for a sequence of files |
| Engine.DispatchOnlyAdds | process.py:405-414 | if no handler deletes a path, a dispatch deletes none |
| Engine.DispatchEachOnlyAdds | process.py:417-419 | the same holds for a sequence of files |
| Engine.DispatchFuelMonotone | process.py:405-414 | the recursion bound only cuts runs short: a run that finishes gives the same result with more fuel |
| Engine.DispatchEachFuelMonotone | process.py:410-411 | the same holds for a sequence of files |
| Engine.DispatchEachAppend | process.py:410-411 | the files of `xs + ys` are handled depth-first: all of `xs`, with everything they spawn, before the first of `ys` |
| Engine.DispatchOneLevel | process.py:410-412 | a handler yielding one file whose own handler yields nothing gives exactly two visits, in order |
| Engine.TorrentFiles | process.py:173-175 | iterating a torrent gives one torrent-backed record per file, in order, with no overrides |
| Engine.ProcessTorrentInOrder | process.py:417-419 | `process_files` handles the first file completely before the rest, and stops at the first exception |
| Episodes.DigitRunEnd | process.py:225 | `\d+` consumes the maximal run of digits |
| Episodes.RightmostMatch | process.py:225 | the match found is the rightmost 's' position where the pattern matches, because the leading `.*` is greedy |
| Episodes.MatchEpisode | process.py:230 | `search` fails exactly when no position matches; otherwise it uses the rightmost matching position |
| Episodes.ValidateEpisodeFilename | process.py:223-240 | the file name is tried first, then the directory. With no match in either it is an identification error. The extension is non-empty and dot-free, and the series name holds no separator |
| Episodes.Collapse | process.py:244 | `re.sub(r'[.\-_]+', ' ', s)` leaves no separator and changes a separator-free name not at all |
| Episodes.CollapseIsSubstitute | process.py:244 | the substitution equals the left-to-right reading of the pattern: each maximal run of separators becomes exactly one space, and every other character is copied |
| Episodes.Title | process.py:244 | `title()` changes only the case of letters, never which letter, and keeps other characters; a letter is upper-case exactly when the character before it is not a letter |
| Episodes.Normalise | process.py:243-244 | a normalised show name has no separator and no whitespace at either end |
| Episodes.NormaliseIdempotent | process.py:243-244 | normalising a normalised show name changes nothing |
| Episodes.EpisodeFilenameMatches | process.py:316-317 | a file name built by `name_via_tvdb` matches at the 'S' after the series name, with the padded numbers and the extension as groups |
| Episodes.EpisodeFilenameRoundTrip | process.py:223-237 | re-validating a built file name gives back its season, episode and extension |
| Episodes.GetTvdbId | process.py:275-285 | a cached name is answered from the cache. Otherwise a found show's id is added to the cache, "not found" is an identification error, and any other database error is raised |
| Episodes.CacheHitAfterLookup | process.py:277 | once a name has been looked up, the database is never asked about it again |
| Episodes.NameEpisode | process.py:300-318 | naming keeps every cached id. An unknown show, a show the database cannot name, or a missing episode means no name. A failed id search or a missing season is an uncaught lookup error. A known show with a found episode is named '{series}/Season {n}' and '{series} - S{nn}E{nn} - {name}.{ext}' |
| Episodes.NameViaTvdb | process.py:292-318 | a file that fails validation is not named; otherwise naming uses the validated details; errors are only database errors |
| Episodes.NamedIsReidentifiable | process.py:292-318 | a file named by the database can be validated again from its new name, and gives back the same season, episode and extension |
| Listings.TableReference | process.py:353-359 | the reference description: table lines are the non-banner lines preceded by an odd number of banners |
| Listings.TableLinesMatchReference | process.py:353-359 | the banner-flipping loop keeps exactly the lines the reference description selects |
| Listings.GroupBounds | process.py:360 | where the member-line search puts its groups: the size group lies strictly before the name group, and both lie within the line |
| Listings.BoundsAt | process.py:360 | a line of four whitespace-separated tokens, after any leading blanks, with whitespace after the fourth, matches with the size group on the second token and the name group after that whitespace |
| Listings.GroupBoundsFields | process.py:360 | conversely, whenever the search succeeds the line has that shape, with the groups where the shape puts them |
| Listings.UnmatchedLineFails | process.py:360 | a line without that shape (fewer columns, or nothing after the fourth) is an error |
| Listings.ParseListingLine | process.py:360-361 | a member line gives its stripped name, with its size the `int` of the size column; a line that does not match is an error |
| Listings.NonNumericSizeFails | process.py:360-361 | a line of the member shape whose size column is not a number is an error |
| Listings.NumericSizeParses | process.py:360-361 | a line of the member shape whose size column is a number gives that number and the stripped rest of the line after the fourth column |
| Listings.ListingLineRoundTrip | process.py:360-361 | reading a member line of attributes, size, date, time and name gives back that size and name, whatever blanks pad the columns before, between and after them |
| Archives.ParseMembers | process.py:354-361 | table lines are parsed in order. Parsing stops at the first bad line, which is the error; every line before it is a parsed member |
| Archives.RarContents | process.py:346-361 | a failing `unrar l` yields nothing; otherwise the members are parsed from the lines the reference description selects |
| Archives.ExtractMembers | process.py:334-343 | every yielded member exists afterwards and has no overrides; the only new paths are members' paths; the loop fails exactly when some member's path is empty, through the constructor's assertion |
| Archives.ExtractMembersYieldsAvailable | process.py:334-343 | the loop yields, in listing order, the record of each member whose path existed beforehand or was extracted by then; the disk gains exactly the paths whose extraction succeeds |
| Archives.Unrar | process.py:321-343 | split volumes and archives that fail the test yield nothing and change nothing; everything yielded exists |
| Archives.UnrarYieldsListed | process.py:321-361 | an archive that passes the test yields the available members of its parsed listing, in order, and ends with the listing's own error, if any |
| Archives.ExtractMembersPresent | process.py:336 | when every member already exists, nothing is extracted and every member is yielded, in order, as its path under the archive's directory |
| Archives.ExtractMembersIdempotent | process.py:334-343 | a second run of the member loop leaves the filesystem as the first run left it |
| Linking.EnsureDirectory | process.py:198-204 | `ensure_directory` succeeds exactly when `makedirs` does or the path already exists, and then the path exists |
| Linking.LinkEach | process.py:207-220 | a yielded file had no destination before and has one after; a finished loop leaves every file's destination present |
| Linking.LinkEachAgain | process.py:211-214 | a second pass over the same files, on a disk holding the first pass's result, yields nothing and changes nothing |
| Linking.LinkOne | process.py:211-218 | a file whose destination is free, whose directory already exists or can be made, and whose link succeeds, is yielded and its directory and destination exist afterwards |
| Handlers.Linker | process.py:207-220 | `link` only yields files of the wrapped handler that it newly linked, and passes on an empty result unchanged |
| Handlers.RenameEpisode | process.py:385-392 | the episode is yielded, renamed, exactly when the database names it; an identification error yields nothing; the id cache is kept either way |
| Handlers.TvSeriesEpisodes | process.py:383-392 | at most one file, the renamed one, and only when its new destination was free and is now linked |
| Handlers.PickMovie | process.py:397-402 | the intended size test: the movie is yielded, moved to the category root, exactly when `os.stat` reports more than 100000000 bytes |
| Handlers.MoviesHandler | process.py:395-402 | a yielded movie is larger than the threshold and newly linked at the category root; a small movie changes nothing |
| Handlers.MovieDestination | process.py:401 | the yielded movie lands directly under Movies in the library, under its own base name |
| Handlers.NoOp | process.py:422-428 | `no_op` yields nothing and changes nothing |
| Handlers.SampleLinkedAsWritten | process.py:399 | the size test as written links a zero-byte sample that the intended test turns away |
| Program.ProgramRegistryBuilds | process.py:190-191 | the four registrations pass the duplicate check (the two video entries differ in category) and sit in source order |
| Program.LookupIsRoute | process.py:405-408 | which handler a file gets: archives first, then TV or movie videos by category, then `no_op` |
| Program.EntriesWellBehaved | process.py:321-428 | no handler of the program deletes a path or raises the "don't know how to handle" error |
| Program.ProgramNeverUnhandled | process.py:413-419 | with `no_op` registered last, processing a torrent never raises "don't know how to handle" |
| Program.ProgramOnlyAdds | process.py:417-419 | processing a torrent never deletes anything |
| Program.RenamedRoutes | process.py:388 | renaming keeps the file's source, directory, category and route, and renaming twice is renaming once |
| Program.AtCategoryRootRoutes | process.py:401 | moving a movie to the category root keeps its source, category and route, and doing it twice is doing it once |
| Program.MovieLinkedOnce | process.py:395-414 | a large movie with a free destination is linked once, whether its directory exists already or is created; the linked record is handled again, yields nothing, and the recursion stops |
| Program.MovieFirstPass | process.py:395-402 | the first visit of a large movie with a free destination, whose directory exists or can be made, moves it to the category root, links it and yields it |
| Program.MovieSecondPass | process.py:211-214 | a linked movie visited again finds its destination present and yields nothing |
| Program.EpisodeFirstPass | process.py:383-392 | the first visit of a named episode whose directory exists or can be made links it under its new name and yields it |
| Program.EpisodeSecondPass | process.py:211-214 | a renamed episode visited again finds its destination present and yields nothing |
| Program.EpisodeLinkedOnce | process.py:383-414 | a named episode with a free destination is linked once, whether its season directory exists already or is created, and the recursion stops after the second visit |
| Framework.RegisterAsWritten | post_processor/framework.py:13-28 | the package's `handler` succeeds only on an empty registry, because unpacking a stored 4-tuple into three names raises |
| Framework.HandleFileAsWritten | post_processor/framework.py:31-40 | the package's `handle_file` raises "don't know how to handle" only on an empty registry, and otherwise fails unpacking the first entry |
| Framework.SecondRegistrationFails | post_processor/framework.py:23-24 | a second, new (pattern, category) pair is refused as written, but accepted by the three-field registry |
| Framework.RegisteredHandlerNeverRuns | post_processor/framework.py:32-37 | a registered catch-all handler never runs as written, but runs under the three-field dispatch |

## Left out

- Generators are modelled eagerly: a handler's whole output is computed
  before any yielded file is dispatched. This differs from the source in
  two ways:
  - After an exception. Say a.rar lists m1.mkv and m2.mkv, and handling
    m1.mkv raises because its link fails. The source never extracts
    m2.mkv, because `unrar` is suspended at its `yield` (process.py:343).
    The model has already extracted both.
  - When a yielded file extracts another member. Say a.rar lists b.rar and
    then x.mkv, extracting x.mkv from a.rar fails, and b.rar holds x.mkv.
    In the source, b.rar is handled before a.rar's loop reaches x.mkv, so
    the existence check (process.py:336) finds x.mkv and it is handled a
    second time. The model visits x.mkv once.
- Archives.ExtractMembers assumes that a successful `unrar x` creates
  exactly the member's path joined to the archive's directory, and that
  its outcome depends only on the archive, member and directory. The source
  never checks that the file exists after extracting (process.py:337-343).
  Archives.ExtractMembersAgain and Archives.ExtractMembersYieldsAvailable
  rely on the second assumption.
- Logging, and the `__repr__` of `File`.
- `get_environment_variables`, `main`, the transmission client and
  `TorrentAdapter`'s attribute forwarding are left out. A torrent is its
  download directory plus its file names in iteration order.
- The YAML file behind `SeriesIDs` is the id map in the `World`. Reading and
  writing it on every lookup is not modelled; the map is carried across
  calls instead.
- `os.makedirs` is a yes/no parameter. The model records only the created
  directory, not its missing parents.
- `subprocess` is replaced by the `ArchiveTool` parameter, and the command
  lines it would run are not modelled. The integer size a member line
  reports is read but never used.
- The `except RuntimeError` around `validate_episode_filename` in
  `name_via_tvdb` can never fire, because that function raises
  `IdentificationError`. The model treats a failed validation as
  `IdentificationError`, which the source raises anyway.
- The `tvdb_api` library is modelled only as a show search, an episode
  lookup and the error kinds `name_via_tvdb` distinguishes.
- `Engine.Dispatch`: the Python recursion has no bound. The model's `fuel`
  parameter stands in for the recursion limit. Running out of fuel is the
  failure `OutOfFuel`, which has no source counterpart.
- Import order and module-level side effects of the package:
  - registration happens in the order the program decorates its handlers;
  - the `order` argument of the package's `handler` is stored but never
    used for sorting, so it is not modelled beyond being stored.
- The package's config module (its `SOURCE_BASE` and `DESTINATION_BASE`) is
  not part of this model. The library base is process.py's constant.
- Program.EpisodeLinkedOnce assumes the show database names the renamed
  file the same way a second time. The source cannot guarantee this,
  because it asks the database again.
- Patterns: the three registered regular expressions and the episode
  pattern are hand-coded for these fixed patterns only. There is no
  general regular-expression engine.
- Episodes.EpisodeFilenameMatches and Episodes.EpisodeFilenameRoundTrip
  are proved only under these conditions:
  - the series name has no newline;
  - the episode name has no newline, because `.` does not cross one;
  - the episode name has no 's' or 'S' directly followed by a digit,
    because the greedy `.*` would move the match to that later position;
  - the extension has no dot, because the extension group is what follows
    the last dot.
  The episode name may contain dots.
- Episodes.NamedIsReidentifiable has the same restriction on the names the
  database returns.
- `str.title()` and `strip()` are modelled on ASCII letters and ASCII
  whitespace only.

## Findings

| source | as written | input that shows it | evidently intended | confidence | as-written member | corrected member |
|---|---|---|---|---|---|---|
| post_processor/framework.py:23-32 | `handler` stores 4-tuples, but both the duplicate check and `handle_file` unpack each entry into three names | registering a second handler, or handling any file once one handler is registered, raises `ValueError` | entries unpacked as they are stored, so several handlers register and dispatch as in process.py | high, not executed | Framework.SecondRegistrationFails | Program.ProgramRegistryBuilds |
| process.py:399 | `os.stat(path) > 100000000` compares the stat record itself with the number; Python 2 orders every such object above every number | a zero-byte sample file in a Movies directory is linked into the library | compare the file's size (`st_size`) with the threshold, as the comment says | high, not executed | Handlers.SampleLinkedAsWritten | Handlers.MoviesHandler |
