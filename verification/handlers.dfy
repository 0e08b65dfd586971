/** The file handlers of post_processor/handlers.py (copied in process.py):
    `tv_series_episodes` renames an episode after the show database and
    links it into the library, `movies` links a large enough movie to the
    top of the Movies directory, `no_op` does nothing. Both video handlers
    are wrapped by `link`. The outside world they touch is a parameter. */
module Handlers {

  import opened Wrappers
  import opened Errors
  import opened Files
  import opened Engine
  import opened Episodes
  import opened Linking
  import opened Archives

  /** Everything a handler asks the outside world: the `unrar` tool, the
      show database, `makedirs`/`link`, and the size `os.stat` reports
      (`None` when `os.stat` raises). */
  datatype Env = Env(tool: ArchiveTool, db: ShowDatabase, disk: Disk, size: string -> Option<nat>)

  /** "only movie files bigger than 96Mb". */
  const MovieThreshold: nat := 100000000

  /** A handler wrapped by `link`: the wrapped handler's files go through
      the link loop; its own exception, raised after its last file, counts
      only when the loop did not stop first. */
  function Linker(disk: Disk, inner: Outcome): (r: Outcome)
    ensures inner.world.fs <= r.world.fs && r.world.ids == inner.world.ids
    ensures forall k :: 0 <= k < |r.yielded| ==>
              r.yielded[k] in inner.yielded &&
              DestinationFilename(r.yielded[k]).Success? &&
              DestinationFilename(r.yielded[k]).value !in inner.world.fs &&
              DestinationFilename(r.yielded[k]).value in r.world.fs
    ensures inner.yielded == [] ==> r == inner
    ensures r.failure.Some? ==> IsLinkFailure(r.failure.value) || r.failure == inner.failure
  {
    var l := LinkEach(disk, inner.yielded, inner.world.fs);
    Outcome(l.yielded, inner.world.(fs := l.fs), if l.failure.Some? then l.failure else inner.failure)
  }

  /** The file `tv_series_episodes` yields once the episode is named. */
  function Renamed(f: FileRecord, internal: string, filename: string): FileRecord {
    f.(internalOverride := Some(internal), filenameOverride := Some(filename))
  }

  /** The body of `tv_series_episodes` before `link`: on success the file
      gets the new internal directory and name and is yielded; an
      `IdentificationError` yields nothing. The show-id cache is kept
      whatever happens. */
  function RenameEpisode(db: ShowDatabase, f: FileRecord, w: World): (r: Outcome)
    ensures r.world.fs == w.fs
    ensures var n := NameViaTvdb(Filename(f), SourceDirectory(f), w.ids, db);
            r.world.ids == n.ids &&
            (r.yielded != [] <==> n.Named?) &&
            (n.Named? ==> r.yielded == [Renamed(f, n.internal, n.filename)] && r.failure.None?) &&
            (r.failure.Some? <==> n.NamingFailed?)
  {
    match NameViaTvdb(Filename(f), SourceDirectory(f), w.ids, db)
    case Named(internal, filename, ids) => Outcome([Renamed(f, internal, filename)], w.(ids := ids), None)
    case Unidentified(ids) => Outcome([], w.(ids := ids), None)
    case NamingFailed(e, ids) => Outcome([], w.(ids := ids), Some(e))
  }

  /** `tv_series_episodes(fyle)`: at most one file, the renamed one, and
      only when its new destination did not exist and does now. */
  function TvSeriesEpisodes(env: Env, f: FileRecord, w: World): (r: Outcome)
    ensures w.fs <= r.world.fs
    ensures |r.yielded| <= 1
    ensures var n := NameViaTvdb(Filename(f), SourceDirectory(f), w.ids, env.db);
            r.world.ids == n.ids &&
            (!n.Named? ==> r.yielded == [] && r.world.fs == w.fs) &&
            (r.yielded != [] ==> n.Named? && r.yielded == [Renamed(f, n.internal, n.filename)])
    ensures r.yielded != [] ==>
              DestinationFilename(r.yielded[0]).Success? &&
              DestinationFilename(r.yielded[0]).value !in w.fs &&
              DestinationFilename(r.yielded[0]).value in r.world.fs
    ensures r.failure.Some? ==> IsLinkFailure(r.failure.value) || r.failure.value.LookupError?
  {
    Linker(env.disk, RenameEpisode(env.db, f, w))
  }

  /** The file `movies` yields: put at the top of the Movies directory. */
  function AtCategoryRoot(f: FileRecord): FileRecord {
    f.(internalOverride := Some(""))
  }

  /** The body of `movies` before `link`, with the size test the comment
      describes: a file larger than the threshold is yielded with an empty
      internal directory; `os.stat` failing is an error. */
  function PickMovie(env: Env, f: FileRecord, w: World): (r: Outcome)
    ensures r.world == w
    ensures env.size(SourceFilename(f)).None? <==> r.failure.Some?
    ensures r.failure.Some? ==> r.failure.value == StatFailed(SourceFilename(f))
    ensures r.yielded != [] <==> env.size(SourceFilename(f)).Some? && env.size(SourceFilename(f)).value > MovieThreshold
    ensures r.yielded != [] ==> r.yielded == [AtCategoryRoot(f)]
  {
    match env.size(SourceFilename(f))
    case None => Outcome([], w, Some(StatFailed(SourceFilename(f))))
    case Some(n) => if n > MovieThreshold then Outcome([AtCategoryRoot(f)], w, None) else Outcome([], w, None)
  }

  /** `movies(fyle)`. */
  function MoviesHandler(env: Env, f: FileRecord, w: World): (r: Outcome)
    ensures w.fs <= r.world.fs && r.world.ids == w.ids
    ensures r.yielded != [] ==>
              r.yielded == [AtCategoryRoot(f)] &&
              env.size(SourceFilename(f)).Some? && env.size(SourceFilename(f)).value > MovieThreshold &&
              DestinationFilename(AtCategoryRoot(f)).Success? &&
              DestinationFilename(AtCategoryRoot(f)).value !in w.fs &&
              DestinationFilename(AtCategoryRoot(f)).value in r.world.fs
    ensures env.size(SourceFilename(f)).Some? && env.size(SourceFilename(f)).value <= MovieThreshold ==>
              r == Outcome([], w, None)
    ensures r.failure.Some? ==> IsLinkFailure(r.failure.value) || r.failure.value.StatFailed?
  {
    Linker(env.disk, PickMovie(env, f, w))
  }

  /** The body of `movies` as written: `os.stat(...)` returns a stat
      record, and Python 2 orders any such object above every number, so
      the comparison with 100000000 holds for every file `os.stat` can
      read, whatever its size. */
  function PickMovieAsWritten(env: Env, f: FileRecord, w: World): (r: Outcome)
    ensures r.world == w
    ensures r.failure.Some? <==> env.size(SourceFilename(f)).None?
    ensures r.yielded != [] <==> env.size(SourceFilename(f)).Some?
  {
    match env.size(SourceFilename(f))
    case None => Outcome([], w, Some(StatFailed(SourceFilename(f))))
    case Some(_) => Outcome([AtCategoryRoot(f)], w, None)
  }

  /** `movies(fyle)` as written. */
  function MoviesHandlerAsWritten(env: Env, f: FileRecord, w: World): Outcome {
    Linker(env.disk, PickMovieAsWritten(env, f, w))
  }

  /** `no_op(fyle)`: nothing yielded, nothing changed. */
  function NoOp(f: FileRecord, w: World): (r: Outcome)
    ensures r.yielded == [] && r.world == w && r.failure.None?
  {
    Outcome([], w, None)
  }

  /** The yielded movie lands directly in the Movies directory of the
      library, under its own base name. */
  lemma MovieDestination(f: FileRecord)
    requires Category(f) == Movies && f.filenameOverride.None?
    ensures DestinationFilename(AtCategoryRoot(f)) ==
              Success(DestinationBase + "/" + Movies + "/" + Paths.Basename(SourceFilename(f)))
  {
    var g := AtCategoryRoot(f);
    var name := Paths.Basename(SourceFilename(f));
    assert Filename(g) == name;
    assert name == "" || name[0] != '/';
    assert Paths.IsSegment(Movies) by {
      assert forall k :: 0 <= k < |Movies| ==> Movies[k] != '/';
    }
    DestinationLayout(g, "");
    assert Category(g) == Movies;
    assert DestinationBase + "/" + Movies + "/" + "" + name == DestinationBase + "/" + Movies + "/" + name;
  }

  /** The size test as written lets a movie of any size through: a zero-byte
      sample in a Movies directory is linked into the library, where the
      intended test turns it away. */
  lemma SampleLinkedAsWritten(env: Env, f: FileRecord, w: World)
    requires env.size(SourceFilename(f)) == Some(0)
    requires DestinationFilename(AtCategoryRoot(f)).Success?
    requires DestinationFilename(AtCategoryRoot(f)).value !in w.fs
    requires env.disk.makedirs(DestinationDirectory(AtCategoryRoot(f)).value) || DestinationDirectory(AtCategoryRoot(f)).value in w.fs
    requires env.disk.link(SourceFilename(f), DestinationFilename(AtCategoryRoot(f)).value)
    ensures MoviesHandlerAsWritten(env, f, w).yielded == [AtCategoryRoot(f)]
    ensures MoviesHandler(env, f, w) == Outcome([], w, None)
  {
    LinkOne(env.disk, AtCategoryRoot(f), w.fs);
  }
}
