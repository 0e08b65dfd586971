/** `ensure_directory` and the `link` decorator of
    post_processor/filesystem.py (copied in process.py). The disk is a set of
    existing paths; `os.makedirs` and `os.link` are parameters that say
    whether the call succeeds. */
module Linking {

  import opened Wrappers
  import opened Errors
  import opened Files

  datatype Disk = Disk(
    makedirs: string -> bool,             // `os.makedirs(path)` returns without raising
    link: (string, string) -> bool)       // `os.link(source, destination)` returns without raising

  /** `ensure_directory(path)`: a successful `makedirs` creates the path; a
      failing one is forgiven when the path exists anyway. */
  function EnsureDirectory(disk: Disk, path: string, fs: set<string>): (r: Result<set<string>, Failure>)
    ensures r.Success? <==> disk.makedirs(path) || path in fs
    ensures r.Success? ==> path in r.value && fs <= r.value && r.value - fs <= {path}
    ensures r.Failure? ==> r.error == DirectoryNotCreated(path)
  {
    if disk.makedirs(path) then Success(fs + {path})
    else if path in fs then Success(fs)
    else Failure(DirectoryNotCreated(path))
  }

  /** What the `link` wrapper passes on: the files it yielded, the disk
      afterwards, and the exception that stopped it, if any. */
  datatype Linked = Linked(yielded: seq<FileRecord>, fs: set<string>, failure: Option<Failure>)

  /** The failures `link` can raise itself. */
  predicate IsLinkFailure(e: Failure) {
    e.UnsplittablePath? || e.DirectoryNotCreated? || e.LinkFailed?
  }

  /** The loop of `linker` over the wrapped handler's files: a file whose
      destination exists is skipped; otherwise its directory is ensured, it
      is linked there and it is yielded. */
  function LinkEach(disk: Disk, files: seq<FileRecord>, fs: set<string>): (r: Linked)
    ensures fs <= r.fs
    ensures |r.yielded| <= |files|
    ensures forall k :: 0 <= k < |r.yielded| ==>
              r.yielded[k] in files &&
              DestinationFilename(r.yielded[k]).Success? &&
              DestinationFilename(r.yielded[k]).value !in fs &&
              DestinationFilename(r.yielded[k]).value in r.fs
    ensures r.failure.None? ==> forall k :: 0 <= k < |files| ==>
              DestinationFilename(files[k]).Success? && DestinationFilename(files[k]).value in r.fs
    ensures r.failure.Some? ==> IsLinkFailure(r.failure.value)
    decreases |files|
  {
    if |files| == 0 then Linked([], fs, None)
    else
      var f := files[0];
      match DestinationFilename(f)
      case Failure(e) => Linked([], fs, Some(e))
      case Success(dest) =>
        if dest in fs then
          var rest := LinkEach(disk, files[1..], fs);
          assert forall k :: 1 <= k < |files| ==> files[k] == files[1..][k - 1];
          Linked(rest.yielded, rest.fs, rest.failure)
        else
          var dir := DestinationDirectory(f).value;
          match EnsureDirectory(disk, dir, fs)
          case Failure(e) => Linked([], fs, Some(e))
          case Success(fs1) =>
            if !disk.link(SourceFilename(f), dest) then Linked([], fs1, Some(LinkFailed(SourceFilename(f), dest)))
            else
              var rest := LinkEach(disk, files[1..], fs1 + {dest});
              assert forall k :: 1 <= k < |files| ==> files[k] == files[1..][k - 1];
              Linked([f] + rest.yielded, rest.fs, rest.failure)
  }

  /** A second pass of `link` over the same files, on any disk that holds
      what the first pass left, yields nothing and changes nothing: every
      destination exists by then. */
  lemma {:induction false} LinkEachAgain(disk: Disk, files: seq<FileRecord>, fs: set<string>, later: set<string>)
    requires LinkEach(disk, files, fs).failure.None?
    requires LinkEach(disk, files, fs).fs <= later
    ensures LinkEach(disk, files, later) == Linked([], later, None)
    decreases |files|
  {
    if |files| > 0 {
      var first := LinkEach(disk, files, fs);
      assert DestinationFilename(files[0]).Success? && DestinationFilename(files[0]).value in first.fs;
      var rest := files[1..];
      assert forall k :: 0 <= k < |rest| ==> rest[k] == files[k + 1];
      var dest := DestinationFilename(files[0]).value;
      if dest in fs {
        LinkEachAgain(disk, rest, fs, later);
      } else {
        var fs1 := EnsureDirectory(disk, DestinationDirectory(files[0]).value, fs).value;
        LinkEachAgain(disk, rest, fs1 + {dest}, later);
      }
    }
  }

  /** One file whose destination is missing, when its directory exists or
      can be made and the link can be made: it is yielded, and its directory
      and destination exist afterwards. */
  lemma LinkOne(disk: Disk, f: FileRecord, fs: set<string>)
    requires DestinationFilename(f).Success? && DestinationFilename(f).value !in fs
    requires disk.makedirs(DestinationDirectory(f).value) || DestinationDirectory(f).value in fs
    requires disk.link(SourceFilename(f), DestinationFilename(f).value)
    ensures LinkEach(disk, [f], fs) ==
              Linked([f], fs + {DestinationDirectory(f).value, DestinationFilename(f).value}, None)
  {
    assert [f][1..] == [];
  }
}
