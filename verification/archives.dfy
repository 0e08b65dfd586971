/** The archive handler `unrar` and its helper `rar_contents`, identical in
    process.py and post_processor/archives.py. The `unrar` tool is a
    parameter: whether `unrar t` accepts an archive, the text `unrar l`
    prints (or its failure), and whether `unrar x` extracts a member. */
module Archives {

  import opened Wrappers
  import opened Text
  import opened Paths
  import opened Patterns
  import opened Errors
  import opened Files
  import opened Engine
  import opened Listings

  datatype ArchiveTool = ArchiveTool(
    test: string -> bool,                          // `unrar t archive` exits with 0
    list: string -> Option<string>,                // output of `unrar l archive`; None for a non-zero exit
    extract: (string, string, string) -> bool)     // `unrar x archive member directory` exits with 0

  // ---------------------------------------------------------------------
  // rar_contents

  /** What `rar_contents` produces before it stops: the members of the
      table lines read so far and the error that stopped it, if any. */
  datatype Listing = Listing(members: seq<Member>, failure: Option<Failure>)

  /** Take parse results in order, stopping at the first failure. */
  function Collect(results: seq<Result<Member, Failure>>): (r: Listing)
    ensures |r.members| <= |results|
    ensures r.failure.None? ==> |r.members| == |results|
    ensures forall k :: 0 <= k < |r.members| ==> results[k] == Success(r.members[k])
    ensures r.failure.Some? ==> |r.members| < |results| && results[|r.members|] == Failure(r.failure.value)
  {
    if |results| == 0 then Listing([], None)
    else if results[0].Failure? then Listing([], Some(results[0].error))
    else
      var rest := Collect(results[1..]);
      assert forall k :: 1 <= k < |results| ==> results[k] == results[1..][k - 1];
      Listing([results[0].value] + rest.members, rest.failure)
  }

  /** Parse table lines in order, stopping at the first that does not parse
      (the generator raises there, after yielding the members before it). */
  function ParseMembers(lines: seq<string>): (r: Listing)
    ensures |r.members| <= |lines|
    ensures r.failure.None? ==> |r.members| == |lines|
    ensures forall k :: 0 <= k < |r.members| ==> ParseListingLine(lines[k]) == Success(r.members[k])
    ensures r.failure.Some? ==> |r.members| < |lines| && ParseListingLine(lines[|r.members|]) == Failure(r.failure.value)
  {
    Collect(seq(|lines|, k requires 0 <= k < |lines| => ParseListingLine(lines[k])))
  }

  /** `rar_contents(archive)` given the output of `unrar l`; a failing tool
      run ends the generator with no members. */
  function RarContents(output: Option<string>): (r: Listing)
    ensures output.None? ==> r == Listing([], None)
    ensures output.Some? ==> r == ParseMembers(TableReference(SplitLines(output.value)))
  {
    match output
    case None => Listing([], None)
    case Some(text) =>
      TableLinesMatchReference(SplitLines(text));
      ParseMembers(TableLines(SplitLines(text), false))
  }

  // ---------------------------------------------------------------------
  // unrar

  /** What the member loop of `unrar` leaves behind. */
  datatype Extraction = Extraction(yielded: seq<FileRecord>, fs: set<string>, failure: Option<Failure>)

  /** The member loop of `unrar`: each member's path is its name joined to
      the archive's directory; a path already present is yielded as is, a
      missing one is extracted and yielded, and a failed extraction skips
      the member. `File(source_filename='')` fails its assertion, which
      nobody catches. */
  function ExtractMembers(tool: ArchiveTool, archive: string, directory: string, members: seq<Member>, fs: set<string>)
    : (r: Extraction)
    ensures fs <= r.fs
    ensures |r.yielded| <= |members|
    ensures forall k :: 0 <= k < |r.yielded| ==>
              r.yielded[k].source.Literal? && NoOverrides(r.yielded[k]) &&
              SourceFilename(r.yielded[k]) in r.fs
    ensures r.failure.Some? ==> r.failure.value == EmptySourceFilename
    ensures r.failure.None? <==> forall k :: 0 <= k < |members| ==> Join2(directory, members[k].name) != ""
    ensures forall p :: p in r.fs && p !in fs ==> exists k :: 0 <= k < |members| && p == Join2(directory, members[k].name)
    decreases |members|
  {
    if |members| == 0 then Extraction([], fs, None)
    else
      var name := members[0].name;
      var path := Join2(directory, name);
      match NewFile(Literal(path))
      case Failure(e) => Extraction([], fs, Some(e))
      case Success(sub) =>
        assert forall k :: 1 <= k < |members| ==> members[k] == members[1..][k - 1];
        if path in fs then
          var rest := ExtractMembers(tool, archive, directory, members[1..], fs);
          Extraction([sub] + rest.yielded, rest.fs, rest.failure)
        else if tool.extract(archive, name, directory) then
          var rest := ExtractMembers(tool, archive, directory, members[1..], fs + {path});
          Extraction([sub] + rest.yielded, rest.fs, rest.failure)
        else
          ExtractMembers(tool, archive, directory, members[1..], fs)
  }

  /** The record `unrar` yields for a member: its path under the archive's
      directory, with no overrides. */
  function MemberFile(directory: string, m: Member): (r: FileRecord)
    ensures r.source == Literal(Join2(directory, m.name)) && NoOverrides(r)
  {
    FileRecord(Literal(Join2(directory, m.name)), None, None, None)
  }

  /** The paths of the members before `n` whose extraction succeeds. */
  function ExtractedPaths(tool: ArchiveTool, archive: string, directory: string, members: seq<Member>, n: nat): set<string>
    requires n <= |members|
  {
    set j | 0 <= j < n && tool.extract(archive, members[j].name, directory) :: Join2(directory, members[j].name)
  }

  /** Reference description of the member loop, without its filesystem
      threading: member `k` is yielded when its path existed beforehand or
      the extraction of some member up to `k` with that same path succeeds
      (an earlier one makes the path exist by the time `k` is reached). */
  predicate Available(tool: ArchiveTool, archive: string, directory: string, members: seq<Member>, fs: set<string>, k: nat)
    requires k < |members|
  {
    var p := Join2(directory, members[k].name);
    p in fs || p in ExtractedPaths(tool, archive, directory, members, k + 1)
  }

  /** The records of the available members from `k` on, in listing order. */
  function AvailableFrom(tool: ArchiveTool, archive: string, directory: string, members: seq<Member>, fs: set<string>, k: nat)
    : seq<FileRecord>
    requires k <= |members|
    decreases |members| - k
  {
    if k == |members| then []
    else
      (if Available(tool, archive, directory, members, fs, k) then [MemberFile(directory, members[k])] else []) +
      AvailableFrom(tool, archive, directory, members, fs, k + 1)
  }

  lemma ExtractedPathsSnoc(tool: ArchiveTool, archive: string, directory: string, members: seq<Member>, k: nat)
    requires k < |members|
    ensures ExtractedPaths(tool, archive, directory, members, k + 1) ==
            ExtractedPaths(tool, archive, directory, members, k) +
            (if tool.extract(archive, members[k].name, directory) then {Join2(directory, members[k].name)} else {})
  {
  }

  /** The member loop from member `k` on, started on the filesystem the
      reference description gives for that point, yields the available
      members and creates exactly the extracted paths. */
  lemma {:induction false} ExtractMembersFrom(tool: ArchiveTool, archive: string, directory: string, members: seq<Member>,
                                              fs: set<string>, k: nat, cur: set<string>)
    requires k <= |members|
    requires cur == fs + ExtractedPaths(tool, archive, directory, members, k)
    ensures var r := ExtractMembers(tool, archive, directory, members[k..], cur);
            r.failure.None? ==>
              r.yielded == AvailableFrom(tool, archive, directory, members, fs, k) &&
              r.fs == fs + ExtractedPaths(tool, archive, directory, members, |members|)
    decreases |members| - k
  {
    if k < |members| {
      var m := members[k];
      var path := Join2(directory, m.name);
      assert members[k..][0] == m && members[k..][1..] == members[k + 1..];
      ExtractedPathsSnoc(tool, archive, directory, members, k);
      if path != "" {
        if path in cur {
          ExtractMembersFrom(tool, archive, directory, members, fs, k + 1, cur);
        } else if tool.extract(archive, m.name, directory) {
          ExtractMembersFrom(tool, archive, directory, members, fs, k + 1, cur + {path});
        } else {
          ExtractMembersFrom(tool, archive, directory, members, fs, k + 1, cur);
        }
      }
    } else {
      assert members[k..] == [];
    }
  }

  /** What the member loop yields and creates: without an empty path, it
      yields the records of the available members in listing order, and the
      filesystem gains exactly the paths whose extraction succeeds. */
  lemma ExtractMembersYieldsAvailable(tool: ArchiveTool, archive: string, directory: string, members: seq<Member>, fs: set<string>)
    ensures var r := ExtractMembers(tool, archive, directory, members, fs);
            r.failure.None? ==>
              r.yielded == AvailableFrom(tool, archive, directory, members, fs, 0) &&
              r.fs == fs + ExtractedPaths(tool, archive, directory, members, |members|)
  {
    assert members[0..] == members;
    ExtractMembersFrom(tool, archive, directory, members, fs, 0, fs);
  }

  /** `unrar(fyle)`: split volumes and archives that fail the test yield
      nothing; otherwise every listed member that is present or could be
      extracted is yielded in listing order. */
  function Unrar(tool: ArchiveTool, f: FileRecord, w: World): (r: Outcome)
    ensures w.fs <= r.world.fs && r.world.ids == w.ids
    ensures IsSplitVolume(SourceFilename(f)) || !tool.test(SourceFilename(f)) ==> r == Outcome([], w, None)
    ensures tool.list(SourceFilename(f)).None? ==> r == Outcome([], w, None)
    ensures forall k :: 0 <= k < |r.yielded| ==> SourceFilename(r.yielded[k]) in r.world.fs
    ensures r.failure.Some? ==> r.failure.value.EmptySourceFilename? || r.failure.value.UnparsableListingLine?
  {
    var archive := SourceFilename(f);
    if IsSplitVolume(archive) || !tool.test(archive) then Outcome([], w, None)
    else
      var listing := RarContents(tool.list(archive));
      var ex := ExtractMembers(tool, archive, SourceDirectory(f), listing.members, w.fs);
      Outcome(ex.yielded, w.(fs := ex.fs), if ex.failure.Some? then ex.failure else listing.failure)
  }

  /** An archive that passes the test yields what its listing makes
      available: the records of the listed members that exist or extract,
      in listing order, and then the listing's own error, if any. */
  lemma UnrarYieldsListed(tool: ArchiveTool, f: FileRecord, w: World)
    ensures var archive, directory := SourceFilename(f), SourceDirectory(f);
            var listing := RarContents(tool.list(archive));
            var r := Unrar(tool, f, w);
            !IsSplitVolume(archive) && tool.test(archive) &&
            (forall k :: 0 <= k < |listing.members| ==> Join2(directory, listing.members[k].name) != "") ==>
              r.yielded == AvailableFrom(tool, archive, directory, listing.members, w.fs, 0) &&
              r.world.fs == w.fs + ExtractedPaths(tool, archive, directory, listing.members, |listing.members|) &&
              r.failure == listing.failure
  {
    var archive, directory := SourceFilename(f), SourceDirectory(f);
    ExtractMembersYieldsAvailable(tool, archive, directory, RarContents(tool.list(archive)).members, w.fs);
  }

  /** Once every member path exists, `unrar` extracts nothing and changes
      nothing: running it a second time is harmless. */
  lemma {:induction false} ExtractMembersPresent(tool: ArchiveTool, archive: string, directory: string, members: seq<Member>, fs: set<string>)
    requires forall k :: 0 <= k < |members| ==> Join2(directory, members[k].name) in fs
    ensures ExtractMembers(tool, archive, directory, members, fs).fs == fs
    ensures ExtractMembers(tool, archive, directory, members, fs).failure.None? ==>
              |ExtractMembers(tool, archive, directory, members, fs).yielded| == |members| &&
              forall k :: 0 <= k < |members| ==>
                ExtractMembers(tool, archive, directory, members, fs).yielded[k] == MemberFile(directory, members[k])
    decreases |members|
  {
    if |members| > 0 {
      assert forall k :: 1 <= k < |members| ==> members[k] == members[1..][k - 1];
      ExtractMembersPresent(tool, archive, directory, members[1..], fs);
    }
  }

  /** Running the member loop again on any filesystem that contains the
      first run's result changes nothing: every member is either present or
      failed to extract the first time and fails again. */
  lemma {:induction false} ExtractMembersAgain(tool: ArchiveTool, archive: string, directory: string, members: seq<Member>, fs: set<string>, later: set<string>)
    requires ExtractMembers(tool, archive, directory, members, fs).fs <= later
    ensures ExtractMembers(tool, archive, directory, members, later).fs == later
    decreases |members|
  {
    if |members| > 0 {
      var name := members[0].name;
      var path := Join2(directory, name);
      if NewFile(Literal(path)).Success? {
        var fs1 := if path !in fs && tool.extract(archive, name, directory) then fs + {path} else fs;
        assert ExtractMembers(tool, archive, directory, members, fs).fs ==
               ExtractMembers(tool, archive, directory, members[1..], fs1).fs;
        ExtractMembersAgain(tool, archive, directory, members[1..], fs1, later);
      }
    }
  }

  /** A second run of the member loop leaves the filesystem as the first
      left it. */
  lemma ExtractMembersIdempotent(tool: ArchiveTool, archive: string, directory: string, members: seq<Member>, fs: set<string>)
    ensures var first := ExtractMembers(tool, archive, directory, members, fs);
            ExtractMembers(tool, archive, directory, members, first.fs).fs == first.fs
  {
    ExtractMembersAgain(tool, archive, directory, members, fs, ExtractMembers(tool, archive, directory, members, fs).fs);
  }
}
