/** The program of process.py: the four handlers registered in source order
    (`unrar`, `tv_series_episodes`, `movies`, `no_op`) and what dispatch does
    with that registry. */
module Program {

  import opened Wrappers
  import opened Errors
  import opened Patterns
  import opened Files
  import opened Engine
  import opened Episodes
  import opened Linking
  import opened Archives
  import opened Handlers

  function UnrarHandler(env: Env): Handler {
    (f: FileRecord, w: World) => Unrar(env.tool, f, w)
  }

  function TvHandler(env: Env): Handler {
    (f: FileRecord, w: World) => TvSeriesEpisodes(env, f, w)
  }

  function MoviesEntryHandler(env: Env): Handler {
    (f: FileRecord, w: World) => MoviesHandler(env, f, w)
  }

  function NoOpHandler(): Handler {
    (f: FileRecord, w: World) => NoOp(f, w)
  }

  /** The `@handler` decorations of process.py, applied in source order;
      each one asserts that its (pattern, category) pair is new. */
  function ProgramRegistry(env: Env): Result<Registry, Failure> {
    var r1 :- Register([], ArchivePattern, None, UnrarHandler(env));
    var r2 :- Register(r1, VideoPattern, Some(TVSeries), TvHandler(env));
    var r3 :- Register(r2, VideoPattern, Some(Movies), MoviesEntryHandler(env));
    Register(r3, AnyPattern, None, NoOpHandler())
  }

  /** The registry the program runs with. */
  function Program(env: Env): Registry {
    [Entry(ArchivePattern, None, UnrarHandler(env)),
     Entry(VideoPattern, Some(TVSeries), TvHandler(env)),
     Entry(VideoPattern, Some(Movies), MoviesEntryHandler(env)),
     Entry(AnyPattern, None, NoOpHandler())]
  }

  /** No registration trips the duplicate assertion (the two video entries
      share a pattern but not a category), and the entries sit in
      registration order. */
  lemma ProgramRegistryBuilds(env: Env)
    ensures ProgramRegistry(env) == Success(Program(env))
  {
    var e0 := Entry(ArchivePattern, None, UnrarHandler(env));
    var e1 := Entry(VideoPattern, Some(TVSeries), TvHandler(env));
    var e2 := Entry(VideoPattern, Some(Movies), MoviesEntryHandler(env));
    var e3 := Entry(AnyPattern, None, NoOpHandler());
    assert Register([], ArchivePattern, None, UnrarHandler(env)) == Success([e0]);
    assert !IsRegistered([e0], VideoPattern, Some(TVSeries)) by {
      assert forall k :: 0 <= k < 1 ==> [e0][k] == e0;
    }
    assert [e0] + [e1] == [e0, e1];
    assert Register([e0], VideoPattern, Some(TVSeries), TvHandler(env)) == Success([e0, e1]);
    assert !IsRegistered([e0, e1], VideoPattern, Some(Movies)) by {
      assert forall k :: 0 <= k < 2 ==> [e0, e1][k] == e0 || [e0, e1][k] == e1;
    }
    assert [e0, e1] + [e2] == [e0, e1, e2];
    assert Register([e0, e1], VideoPattern, Some(Movies), MoviesEntryHandler(env)) == Success([e0, e1, e2]);
    assert !IsRegistered([e0, e1, e2], AnyPattern, None) by {
      assert forall k :: 0 <= k < 3 ==> [e0, e1, e2][k].pattern != AnyPattern;
    }
    assert [e0, e1, e2] + [e3] == [e0, e1, e2, e3];
    assert Register([e0, e1, e2], AnyPattern, None, NoOpHandler()) == Success([e0, e1, e2, e3]);
  }

  /** Which entry handles a file, written out: archives first, then videos
      by category, and everything else falls to `no_op`. */
  function Route(f: FileRecord): nat {
    var source := SourceFilename(f);
    if Search(ArchivePattern, source) then 0
    else if Search(VideoPattern, source) && Category(f) == TVSeries then 1
    else if Search(VideoPattern, source) && Category(f) == Movies then 2
    else 3
  }

  /** First-match lookup in the program's registry is the route above: in
      particular an archive goes to `unrar` even in a video category, and
      the catch-all is reached only when nothing before it applies. */
  lemma LookupIsRoute(env: Env, f: FileRecord)
    ensures Lookup(Program(env), f) == Some(Route(f))
  {
    var reg := Program(env);
    var i := Route(f);
    assert Applies(reg[i], f);
    assert forall j :: 0 <= j < i ==> !Applies(reg[j], f);
  }

  /** What every handler of the program keeps to: it never raises the
      "don't know how to handle" error, and it never removes a path. */
  predicate WellBehaved(h: Handler, f: FileRecord, w: World) {
    !IsNoHandler(h(f, w).failure) && w.fs <= h(f, w).world.fs
  }

  lemma UnrarWellBehaved(env: Env, f: FileRecord, w: World)
    ensures WellBehaved(UnrarHandler(env), f, w)
  {
    assert UnrarHandler(env)(f, w) == Unrar(env.tool, f, w);
  }

  lemma TvWellBehaved(env: Env, f: FileRecord, w: World)
    ensures WellBehaved(TvHandler(env), f, w)
  {
    assert TvHandler(env)(f, w) == TvSeriesEpisodes(env, f, w);
  }

  lemma MoviesWellBehaved(env: Env, f: FileRecord, w: World)
    ensures WellBehaved(MoviesEntryHandler(env), f, w)
  {
    assert MoviesEntryHandler(env)(f, w) == MoviesHandler(env, f, w);
  }

  /** Every entry of the program is well behaved on every file. */
  lemma EntriesWellBehaved(env: Env, k: nat, f: FileRecord, w: World)
    requires k < |Program(env)|
    ensures WellBehaved(Program(env)[k].handler, f, w)
  {
    var reg := Program(env);
    if k == 0 {
      assert reg[k].handler == UnrarHandler(env);
      UnrarWellBehaved(env, f, w);
    } else if k == 1 {
      assert reg[k].handler == TvHandler(env);
      TvWellBehaved(env, f, w);
    } else if k == 2 {
      assert reg[k].handler == MoviesEntryHandler(env);
      MoviesWellBehaved(env, f, w);
    } else {
      assert reg[k].handler == NoOpHandler();
    }
  }

  /** No handler of the program raises the "don't know how to handle"
      error itself. */
  lemma ProgramHandlersNeverUnhandled(env: Env)
    ensures HandlersNeverUnhandled(Program(env))
  {
    var reg := Program(env);
    forall k, f: FileRecord, w: World | 0 <= k < |reg|
      ensures !IsNoHandler(reg[k].handler(f, w).failure)
    {
      EntriesWellBehaved(env, k, f, w);
    }
  }

  /** With `no_op` registered last, processing a torrent never raises the
      "don't know how to handle" error. */
  lemma ProgramNeverUnhandled(env: Env, t: Torrent, w: World, fuel: nat)
    ensures !IsNoHandler(ProcessTorrent(Program(env), t, w, fuel).failure)
  {
    ProgramHandlersNeverUnhandled(env);
    assert Program(env)[3].filter.None? && Program(env)[3].pattern == AnyPattern;
    CatchAllDispatchEach(Program(env), TorrentFiles(t), w, fuel);
  }

  /** No handler of the program removes a path. */
  lemma ProgramHandlersOnlyAdd(env: Env)
    ensures HandlersOnlyAdd(Program(env))
  {
    var reg := Program(env);
    forall k, f: FileRecord, w: World | 0 <= k < |reg|
      ensures w.fs <= reg[k].handler(f, w).world.fs
    {
      EntriesWellBehaved(env, k, f, w);
    }
  }

  /** Processing a torrent never deletes anything. */
  lemma ProgramOnlyAdds(env: Env, t: Torrent, w: World, fuel: nat)
    ensures w.fs <= ProcessTorrent(Program(env), t, w, fuel).world.fs
  {
    ProgramHandlersOnlyAdd(env);
    DispatchEachOnlyAdds(Program(env), TorrentFiles(t), w, fuel);
  }

  // ---------------------------------------------------------------------
  // The recursion of `handle_file` on a linked file ends one level down

  /** The record `movies` yields is routed like the original: neither its
      source nor its category changes. */
  lemma AtCategoryRootRoutes(f: FileRecord)
    ensures SourceFilename(AtCategoryRoot(f)) == SourceFilename(f)
    ensures Category(AtCategoryRoot(f)) == Category(f)
    ensures Route(AtCategoryRoot(f)) == Route(f)
    ensures AtCategoryRoot(AtCategoryRoot(f)) == AtCategoryRoot(f)
  {
  }

  /** The first visit of a large movie: moved to the category root, linked
      and yielded. */
  lemma MovieFirstPass(env: Env, f: FileRecord, w: World, dir: string, dest: string)
    requires env.size(SourceFilename(f)).Some? && env.size(SourceFilename(f)).value > MovieThreshold
    requires DestinationDirectory(AtCategoryRoot(f)) == Success(dir)
    requires DestinationFilename(AtCategoryRoot(f)) == Success(dest)
    requires dest !in w.fs && (env.disk.makedirs(dir) || dir in w.fs) && env.disk.link(SourceFilename(f), dest)
    ensures MoviesHandler(env, f, w) == Outcome([AtCategoryRoot(f)], w.(fs := w.fs + {dir, dest}), None)
    ensures Program(env)[2].handler(f, w) == MoviesHandler(env, f, w)
  {
    LinkOne(env.disk, AtCategoryRoot(f), w.fs);
  }

  /** A linked movie visited again: its destination is present, so nothing
      is yielded or linked. */
  lemma MovieSecondPass(env: Env, g: FileRecord, w: World)
    requires g.internalOverride == Some("")
    requires env.size(SourceFilename(g)).Some? && env.size(SourceFilename(g)).value > MovieThreshold
    requires DestinationFilename(g).Success? && DestinationFilename(g).value in w.fs
    ensures MoviesHandler(env, g, w) == Outcome([], w, None)
    ensures Program(env)[2].handler(g, w) == MoviesHandler(env, g, w)
  {
    assert AtCategoryRoot(g) == g;
    assert PickMovie(env, g, w) == Outcome([g], w, None);
    assert [g][1..] == [];
    assert LinkEach(env.disk, [g], w.fs) == Linked([], w.fs, None);
  }

  /** A movie larger than the threshold whose place in the library is free:
      `movies` links it, the linked file is handled again by `movies`, finds
      its destination present and yields nothing, and the recursion stops. */
  lemma MovieLinkedOnce(env: Env, f: FileRecord, w: World, fuel: nat, dir: string, dest: string)
    requires Route(f) == 2
    requires env.size(SourceFilename(f)).Some? && env.size(SourceFilename(f)).value > MovieThreshold
    requires DestinationDirectory(AtCategoryRoot(f)) == Success(dir)
    requires DestinationFilename(AtCategoryRoot(f)) == Success(dest)
    requires dest !in w.fs && (env.disk.makedirs(dir) || dir in w.fs) && env.disk.link(SourceFilename(f), dest)
    requires fuel >= 2
    ensures Dispatch(Program(env), f, w, fuel) ==
              Run(w.(fs := w.fs + {dir, dest}), [Visit(f, 2), Visit(AtCategoryRoot(f), 2)], None)
  {
    var reg := Program(env);
    var g := AtCategoryRoot(f);
    var w1 := w.(fs := w.fs + {dir, dest});
    LookupIsRoute(env, f);
    AtCategoryRootRoutes(f);
    LookupIsRoute(env, g);
    MovieFirstPass(env, f, w, dir, dest);
    MovieSecondPass(env, g, w1);
    DispatchOneLevel(reg, f, g, w, w1, w1, fuel);
  }

  /** The record `tv_series_episodes` yields is routed like the original,
      and renaming it to the same names again gives it back unchanged. */
  lemma RenamedRoutes(f: FileRecord, internal: string, filename: string)
    ensures SourceFilename(Renamed(f, internal, filename)) == SourceFilename(f)
    ensures SourceDirectory(Renamed(f, internal, filename)) == SourceDirectory(f)
    ensures Category(Renamed(f, internal, filename)) == Category(f)
    ensures Route(Renamed(f, internal, filename)) == Route(f)
    ensures Renamed(Renamed(f, internal, filename), internal, filename) == Renamed(f, internal, filename)
  {
  }

  /** A renamed file is handled by the same entry as the original. */
  lemma RenamedLookup(env: Env, f: FileRecord, internal: string, filename: string)
    ensures Lookup(Program(env), Renamed(f, internal, filename)) == Lookup(Program(env), f) == Some(Route(f))
  {
    LookupIsRoute(env, f);
    RenamedRoutes(f, internal, filename);
    LookupIsRoute(env, Renamed(f, internal, filename));
  }

  /** The names `name_via_tvdb` gives a file. */
  function Naming(env: Env, f: FileRecord, w: World): Episodes.Naming {
    NameViaTvdb(Filename(f), SourceDirectory(f), w.ids, env.db)
  }

  /** A new episode file name is never empty, so setting it takes effect. */
  lemma NamedFilenameNotEmpty(filename: string, directory: string, ids: map<string, int>, db: ShowDatabase)
    requires NameViaTvdb(filename, directory, ids, db).Named?
    ensures NameViaTvdb(filename, directory, ids, db).filename != ""
  {
    var info := ValidateEpisodeFilename(filename, directory).value;
    var id := GetTvdbId(info.seriesname, ids, db.search).id;
    var e := EpisodeFilename(db.seriesName(id).value, info.season, info.episode,
                             db.episodeName(id, info.season, info.episode).name, info.extension);
    assert NameViaTvdb(filename, directory, ids, db).filename == e;
    assert |e| > 0;
  }

  /** The first visit of an episode: renamed, linked and yielded. */
  lemma EpisodeFirstPass(env: Env, f: FileRecord, w: World, internal: string, filename: string, ids: map<string, int>, dir: string, dest: string)
    requires Naming(env, f, w) == Named(internal, filename, ids)
    requires DestinationDirectory(Renamed(f, internal, filename)) == Success(dir)
    requires DestinationFilename(Renamed(f, internal, filename)) == Success(dest)
    requires dest !in w.fs && (env.disk.makedirs(dir) || dir in w.fs) && env.disk.link(SourceFilename(f), dest)
    ensures TvSeriesEpisodes(env, f, w) == Outcome([Renamed(f, internal, filename)], World(w.fs + {dir, dest}, ids), None)
    ensures Program(env)[1].handler(f, w) == TvSeriesEpisodes(env, f, w)
  {
    LinkOne(env.disk, Renamed(f, internal, filename), w.fs);
  }

  /** A renamed episode visited again and named the same way: its
      destination is present, so nothing is yielded or linked. */
  lemma EpisodeSecondPass(env: Env, g: FileRecord, w: World, internal: string, filename: string, ids: map<string, int>)
    requires g.internalOverride == Some(internal) && g.filenameOverride == Some(filename) && filename != ""
    requires Naming(env, g, w) == Named(internal, filename, ids)
    requires DestinationFilename(g).Success? && DestinationFilename(g).value in w.fs
    ensures TvSeriesEpisodes(env, g, w) == Outcome([], w.(ids := ids), None)
    ensures Program(env)[1].handler(g, w) == TvSeriesEpisodes(env, g, w)
  {
    assert Renamed(g, internal, filename) == g;
    var inner := RenameEpisode(env.db, g, w);
    assert inner.yielded == [g] && inner.failure.None? && inner.world == w.(ids := ids);
    assert [g][1..] == [];
    assert LinkEach(env.disk, [g], w.fs) == Linked([], w.fs, None);
  }

  /** The renamed file is named again from its new name, in the same
      directory. */
  lemma RenamedNaming(env: Env, f: FileRecord, w: World, w1: World, internal: string, filename: string, ids: map<string, int>)
    requires Naming(env, f, w) == Named(internal, filename, ids)
    ensures filename != ""
    ensures Naming(env, Renamed(f, internal, filename), w1) == NameViaTvdb(filename, SourceDirectory(f), w1.ids, env.db)
  {
    NamedFilenameNotEmpty(Filename(f), SourceDirectory(f), w.ids, env.db);
  }

  /** An episode that the database names, whose new place in the library
      is free: `tv_series_episodes` links it under its new name; the linked
      file is handled again by `tv_series_episodes` and, as long as the
      database names it the same way a second time, finds its destination
      present and yields nothing, so the recursion stops. */
  lemma EpisodeLinkedOnce(env: Env, f: FileRecord, w: World, fuel: nat, internal: string, filename: string,
                          ids1: map<string, int>, ids2: map<string, int>, dir: string, dest: string)
    requires Route(f) == 1
    requires Naming(env, f, w) == Named(internal, filename, ids1)
    requires DestinationDirectory(Renamed(f, internal, filename)) == Success(dir)
    requires DestinationFilename(Renamed(f, internal, filename)) == Success(dest)
    requires dest !in w.fs && (env.disk.makedirs(dir) || dir in w.fs) && env.disk.link(SourceFilename(f), dest)
    requires NameViaTvdb(filename, SourceDirectory(f), ids1, env.db) == Named(internal, filename, ids2)
    requires fuel >= 2
    ensures Dispatch(Program(env), f, w, fuel) ==
              Run(World(w.fs + {dir, dest}, ids2), [Visit(f, 1), Visit(Renamed(f, internal, filename), 1)], None)
  {
    var reg := Program(env);
    var g := Renamed(f, internal, filename);
    var w1 := World(w.fs + {dir, dest}, ids1);
    RenamedLookup(env, f, internal, filename);
    EpisodeFirstPass(env, f, w, internal, filename, ids1, dir, dest);
    RenamedNaming(env, f, w, w1, internal, filename, ids1);
    EpisodeSecondPass(env, g, w1, internal, filename, ids2);
    DispatchOneLevel(reg, f, g, w, w1, w1.(ids := ids2), fuel);
  }
}
