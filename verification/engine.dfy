/** The handler registry and the dispatch loop of process.py (`handler`,
    `handle_file`, `process_files`), also found, with a defect, in
    post_processor/framework.py. A registry is the ordered list of
    (pattern, category filter, handler) entries; dispatching a file runs the
    first entry that applies to it and then dispatches, depth first and left
    to right, every file that handler yields.

    Handlers are functions from a file and the state of the world (the
    existing paths and the show-id cache) to the files they yield, the new
    state and the exception they raise, if any, after their last yield.
    Python's recursion has no bound; here a fuel argument bounds the depth of
    re-dispatch and `OutOfFuel` reports running out of it. */
module Engine {

  import opened Wrappers
  import opened Errors
  import opened Patterns
  import opened Files

  /** The state handlers read and change: the paths that exist on disk and
      the show-name to show-id cache. */
  datatype World = World(fs: set<string>, ids: map<string, int>)

  /** What one handler invocation produces. */
  datatype Outcome = Outcome(yielded: seq<FileRecord>, world: World, failure: Option<Failure>)

  type Handler = (FileRecord, World) -> Outcome

  datatype Entry = Entry(pattern: Pattern, filter: Option<string>, handler: Handler)

  type Registry = seq<Entry>

  /** `(matcher, category) in [(m, c) for m, c, h in file_handlers]`. */
  predicate IsRegistered(reg: Registry, pattern: Pattern, filter: Option<string>)
    ensures IsRegistered(reg, pattern, filter) <==>
              exists k :: 0 <= k < |reg| && reg[k].pattern == pattern && reg[k].filter == filter
  {
    if |reg| == 0 then false
    else
      assert forall k :: 1 <= k < |reg| ==> reg[k] == reg[1..][k - 1];
      (reg[0].pattern == pattern && reg[0].filter == filter) || IsRegistered(reg[1..], pattern, filter)
  }

  /** `@handler(pattern, category)`: a (pattern, category) pair already
      present is rejected by the assertion; otherwise the entry is appended,
      so registration order is lookup order. */
  function Register(reg: Registry, pattern: Pattern, filter: Option<string>, h: Handler)
    : (r: Result<Registry, Failure>)
    ensures r.Failure? <==>
              exists k :: 0 <= k < |reg| && reg[k].pattern == pattern && reg[k].filter == filter
    ensures r.Failure? ==> r.error == DuplicateHandler(pattern, filter)
    ensures r.Success? ==>
              |r.value| == |reg| + 1 && r.value[..|reg|] == reg &&
              r.value[|reg|].pattern == pattern && r.value[|reg|].filter == filter &&
              r.value[|reg|].handler == h
  {
    if IsRegistered(reg, pattern, filter) then Failure(DuplicateHandler(pattern, filter))
    else Success(reg + [Entry(pattern, filter, h)])
  }

  /** The test of `handle_file` for one entry: no category filter or the
      file's category, and the pattern found anywhere in the source path. */
  predicate Applies(e: Entry, f: FileRecord) {
    (e.filter.None? || e.filter.value == Category(f)) && Search(e.pattern, SourceFilename(f))
  }

  function LookupFrom(reg: Registry, f: FileRecord, start: nat): (r: Option<nat>)
    requires start <= |reg|
    ensures r.Some? ==> start <= r.value < |reg| && Applies(reg[r.value], f) &&
                        forall j :: start <= j < r.value ==> !Applies(reg[j], f)
    ensures r.None? ==> forall j :: start <= j < |reg| ==> !Applies(reg[j], f)
    decreases |reg| - start
  {
    if start == |reg| then None
    else if Applies(reg[start], f) then Some(start)
    else LookupFrom(reg, f, start + 1)
  }

  /** The entry `handle_file` runs: the first that applies, if any. */
  function Lookup(reg: Registry, f: FileRecord): (r: Option<nat>)
    ensures r.Some? ==> r.value < |reg| && Applies(reg[r.value], f) &&
                        forall j :: 0 <= j < r.value ==> !Applies(reg[j], f)
    ensures r.None? <==> forall j :: 0 <= j < |reg| ==> !Applies(reg[j], f)
  {
    LookupFrom(reg, f, 0)
  }

  /** One handler invocation: the file and the index of the entry run. */
  datatype Visit = Visit(file: FileRecord, entry: nat)

  /** The state after a dispatch, the handler invocations in the order they
      happened, and the exception that ended it, if any. */
  datatype Run = Run(world: World, visited: seq<Visit>, failure: Option<Failure>)

  /** `handle_file(f)`: run the first applicable entry's handler, then
      dispatch each yielded file in order; an exception stops everything. */
  function Dispatch(reg: Registry, f: FileRecord, w: World, fuel: nat): Run
    decreases fuel, 0
  {
    if fuel == 0 then Run(w, [], Some(OutOfFuel))
    else
      match Lookup(reg, f)
      case None => Run(w, [], Some(NoHandler(Category(f), SourceFilename(f))))
      case Some(i) =>
        var out := reg[i].handler(f, w);
        var sub := DispatchEach(reg, out.yielded, out.world, fuel - 1);
        Run(sub.world, [Visit(f, i)] + sub.visited, if sub.failure.Some? then sub.failure else out.failure)
  }

  /** Dispatch a sequence of files one after the other, threading the state
      and stopping at the first exception. */
  function DispatchEach(reg: Registry, files: seq<FileRecord>, w: World, fuel: nat): Run
    decreases fuel, 1, |files|
  {
    if |files| == 0 then Run(w, [], None)
    else
      var first := Dispatch(reg, files[0], w, fuel);
      if first.failure.Some? then first
      else
        var rest := DispatchEach(reg, files[1..], first.world, fuel);
        Run(rest.world, first.visited + rest.visited, rest.failure)
  }

  /** A torrent as the model sees it: its download directory and the names
      of its files in iteration order. */
  datatype Torrent = Torrent(downloadDir: string, names: seq<string>)

  /** `iter(TorrentAdapter)`: one torrent-backed record per file. */
  function TorrentFiles(t: Torrent): (r: seq<FileRecord>)
    ensures |r| == |t.names|
    ensures forall k :: 0 <= k < |r| ==>
              NoOverrides(r[k]) && SourceFilename(r[k]) == t.downloadDir + t.names[k]
  {
    seq(|t.names|, k requires 0 <= k < |t.names| => FileRecord(TorrentMember(t.downloadDir, t.names[k]), None, None, None))
  }

  /** `process_files(torrent)`. */
  function ProcessTorrent(reg: Registry, t: Torrent, w: World, fuel: nat): Run {
    DispatchEach(reg, TorrentFiles(t), w, fuel)
  }

  // ---------------------------------------------------------------------
  // Properties of the dispatch loop for any registry.

  /** Every visit ran the first entry that applies to its file. */
  predicate FirstMatchVisits(reg: Registry, visited: seq<Visit>) {
    forall k :: 0 <= k < |visited| ==> Lookup(reg, visited[k].file) == Some(visited[k].entry)
  }

  lemma {:induction false} DispatchRunsFirstMatch(reg: Registry, f: FileRecord, w: World, fuel: nat)
    ensures FirstMatchVisits(reg, Dispatch(reg, f, w, fuel).visited)
    decreases fuel, 0
  {
    if fuel > 0 && Lookup(reg, f).Some? {
      var i := Lookup(reg, f).value;
      var out := reg[i].handler(f, w);
      DispatchEachRunsFirstMatch(reg, out.yielded, out.world, fuel - 1);
    }
  }

  lemma {:induction false} DispatchEachRunsFirstMatch(reg: Registry, files: seq<FileRecord>, w: World, fuel: nat)
    ensures FirstMatchVisits(reg, DispatchEach(reg, files, w, fuel).visited)
    decreases fuel, 1, |files|
  {
    if |files| > 0 {
      DispatchRunsFirstMatch(reg, files[0], w, fuel);
      var first := Dispatch(reg, files[0], w, fuel);
      if first.failure.None? {
        DispatchEachRunsFirstMatch(reg, files[1..], first.world, fuel);
      }
    }
  }

  /** An entry with no category filter and the pattern '.*' applies to
      every file. */
  predicate HasCatchAll(reg: Registry) {
    exists k :: 0 <= k < |reg| && reg[k].filter.None? && reg[k].pattern == AnyPattern
  }

  predicate IsNoHandler(failure: Option<Failure>) {
    failure.Some? && failure.value.NoHandler?
  }

  /** No handler raises the "don't know how to handle" error itself. */
  ghost predicate HandlersNeverUnhandled(reg: Registry) {
    forall k, f: FileRecord, w: World :: 0 <= k < |reg| ==> !IsNoHandler(reg[k].handler(f, w).failure)
  }

  /** With a catch-all entry registered, `handle_file` never reaches its
      RuntimeError, however deep the recursion goes. */
  lemma {:induction false} CatchAllDispatch(reg: Registry, f: FileRecord, w: World, fuel: nat)
    requires HasCatchAll(reg) && HandlersNeverUnhandled(reg)
    ensures !IsNoHandler(Dispatch(reg, f, w, fuel).failure)
    decreases fuel, 0
  {
    if fuel > 0 {
      var k :| 0 <= k < |reg| && reg[k].filter.None? && reg[k].pattern == AnyPattern;
      assert Applies(reg[k], f);
      var i := Lookup(reg, f).value;
      var out := reg[i].handler(f, w);
      CatchAllDispatchEach(reg, out.yielded, out.world, fuel - 1);
    }
  }

  lemma {:induction false} CatchAllDispatchEach(reg: Registry, files: seq<FileRecord>, w: World, fuel: nat)
    requires HasCatchAll(reg) && HandlersNeverUnhandled(reg)
    ensures !IsNoHandler(DispatchEach(reg, files, w, fuel).failure)
    decreases fuel, 1, |files|
  {
    if |files| > 0 {
      CatchAllDispatch(reg, files[0], w, fuel);
      var first := Dispatch(reg, files[0], w, fuel);
      if first.failure.None? {
        CatchAllDispatchEach(reg, files[1..], first.world, fuel);
      }
    }
  }

  /** Fuel is only a bound: a dispatch that did not run out of it gives the
      same result with any larger amount. */
  lemma {:induction false} DispatchFuelMonotone(reg: Registry, f: FileRecord, w: World, fuel: nat, more: nat)
    requires Dispatch(reg, f, w, fuel).failure != Some(OutOfFuel)
    requires more >= fuel
    ensures Dispatch(reg, f, w, more) == Dispatch(reg, f, w, fuel)
    decreases fuel, 0
  {
    if Lookup(reg, f).Some? {
      var i := Lookup(reg, f).value;
      var out := reg[i].handler(f, w);
      var sub := DispatchEach(reg, out.yielded, out.world, fuel - 1);
      assert sub.failure != Some(OutOfFuel);
      DispatchEachFuelMonotone(reg, out.yielded, out.world, fuel - 1, more - 1);
    }
  }

  lemma {:induction false} DispatchEachFuelMonotone(reg: Registry, files: seq<FileRecord>, w: World, fuel: nat, more: nat)
    requires DispatchEach(reg, files, w, fuel).failure != Some(OutOfFuel)
    requires more >= fuel
    ensures DispatchEach(reg, files, w, more) == DispatchEach(reg, files, w, fuel)
    decreases fuel, 1, |files|
  {
    if |files| > 0 {
      var first := Dispatch(reg, files[0], w, fuel);
      DispatchFuelMonotone(reg, files[0], w, fuel, more);
      if first.failure.None? {
        DispatchEachFuelMonotone(reg, files[1..], first.world, fuel, more);
      }
    }
  }

  /** No handler ever removes a path. */
  ghost predicate HandlersOnlyAdd(reg: Registry) {
    forall k, f: FileRecord, w: World :: 0 <= k < |reg| ==> w.fs <= reg[k].handler(f, w).world.fs
  }

  /** Dispatch only ever adds paths to the filesystem. */
  lemma {:induction false} DispatchOnlyAdds(reg: Registry, f: FileRecord, w: World, fuel: nat)
    requires HandlersOnlyAdd(reg)
    ensures w.fs <= Dispatch(reg, f, w, fuel).world.fs
    decreases fuel, 0
  {
    if fuel > 0 && Lookup(reg, f).Some? {
      var i := Lookup(reg, f).value;
      var out := reg[i].handler(f, w);
      DispatchEachOnlyAdds(reg, out.yielded, out.world, fuel - 1);
    }
  }

  lemma {:induction false} DispatchEachOnlyAdds(reg: Registry, files: seq<FileRecord>, w: World, fuel: nat)
    requires HandlersOnlyAdd(reg)
    ensures w.fs <= DispatchEach(reg, files, w, fuel).world.fs
    decreases fuel, 1, |files|
  {
    if |files| > 0 {
      DispatchOnlyAdds(reg, files[0], w, fuel);
      var first := Dispatch(reg, files[0], w, fuel);
      if first.failure.None? {
        DispatchEachOnlyAdds(reg, files[1..], first.world, fuel);
      }
    }
  }

  /** Dispatching `xs + ys` dispatches all of `xs` (with everything it
      spawns) before the first of `ys` is touched. */
  lemma {:induction false} DispatchEachAppend(reg: Registry, xs: seq<FileRecord>, ys: seq<FileRecord>, w: World, fuel: nat)
    ensures var a := DispatchEach(reg, xs, w, fuel);
            DispatchEach(reg, xs + ys, w, fuel) ==
              if a.failure.Some? then a
              else
                var b := DispatchEach(reg, ys, a.world, fuel);
                Run(b.world, a.visited + b.visited, b.failure)
    decreases |xs|
  {
    if |xs| == 0 {
      assert xs + ys == ys;
    } else {
      assert (xs + ys)[0] == xs[0];
      assert (xs + ys)[1..] == xs[1..] + ys;
      var first := Dispatch(reg, xs[0], w, fuel);
      if first.failure.None? {
        DispatchEachAppend(reg, xs[1..], ys, first.world, fuel);
        var a := DispatchEach(reg, xs[1..], first.world, fuel);
        if a.failure.None? {
          var b := DispatchEach(reg, ys, a.world, fuel);
          assert first.visited + (a.visited + b.visited) == (first.visited + a.visited) + b.visited;
        }
      }
    }
  }

  /** A handler that yields one file, whose own handler yields nothing:
      two visits, and the state the second handler leaves. */
  lemma DispatchOneLevel(reg: Registry, f: FileRecord, g: FileRecord, w: World, w1: World, w2: World, fuel: nat)
    requires fuel >= 2
    requires Lookup(reg, f).Some? && reg[Lookup(reg, f).value].handler(f, w) == Outcome([g], w1, None)
    requires Lookup(reg, g).Some? && reg[Lookup(reg, g).value].handler(g, w1) == Outcome([], w2, None)
    ensures Dispatch(reg, f, w, fuel) ==
              Run(w2, [Visit(f, Lookup(reg, f).value), Visit(g, Lookup(reg, g).value)], None)
  {
    var i, j := Lookup(reg, f).value, Lookup(reg, g).value;
    assert DispatchEach(reg, [], w2, fuel - 2) == Run(w2, [], None);
    assert Dispatch(reg, g, w1, fuel - 1) == Run(w2, [Visit(g, j)], None);
    assert [g][1..] == [];
    assert DispatchEach(reg, [g], w1, fuel - 1) == Run(w2, [Visit(g, j)], None);
  }

  /** `process_files` handles the torrent's files in iteration order: the
      first file completely, then the rest. */
  lemma ProcessTorrentInOrder(reg: Registry, t: Torrent, w: World, fuel: nat)
    requires |t.names| > 0
    ensures var first := Dispatch(reg, TorrentFiles(t)[0], w, fuel);
            ProcessTorrent(reg, t, w, fuel) ==
              if first.failure.Some? then first
              else
                var rest := ProcessTorrent(reg, Torrent(t.downloadDir, t.names[1..]), first.world, fuel);
                Run(rest.world, first.visited + rest.visited, rest.failure)
  {
    var files := TorrentFiles(t);
    assert files[1..] == TorrentFiles(Torrent(t.downloadDir, t.names[1..]));
  }
}
