/** The `File` record of post_processor/filesystem.py (copied in process.py):
    where a file comes from, which category and library sub-directory it
    belongs to, and where it is linked to. Every attribute is derived from the
    source path unless an override was set, and the overrides differ in what
    counts as "set": `category` and `filename` only when truthy (a non-empty
    string), `internal_directory` whenever it is not `None`. */
module Files {

  import opened Wrappers
  import opened Text
  import opened Paths
  import opened Errors

  const Movies: string := "Movies"
  const TVSeries: string := "TVSeries"
  const Other: string := "Other"

  /** `File.categories`, scanned in this order. */
  const Categories: seq<string> := [Movies, TVSeries, Other]
  const DefaultCategory: string := Other

  /** `File.destination_base` in process.py. */
  const DestinationBase: string := "/home/user/g_drive"

  /** Where a file's bytes are: a member of a torrent (its download directory
      and its name inside the torrent) or a literal path. */
  datatype Source =
    | TorrentMember(downloadDir: string, name: string)
    | Literal(path: string)

  datatype FileRecord = FileRecord(
    source: Source,
    categoryOverride: Option<string>,
    internalOverride: Option<string>,
    filenameOverride: Option<string>)

  /** `File(...)`: the constructor asserts that a literal source path is
      truthy; a torrent member always passes the assertion. */
  function NewFile(source: Source): (r: Result<FileRecord, Failure>)
    ensures r.Failure? <==> source.Literal? && source.path == ""
    ensures r.Failure? ==> r.error == EmptySourceFilename
    ensures r.Success? ==> r.value.source == source && NoOverrides(r.value)
  {
    if source.Literal? && source.path == "" then Failure(EmptySourceFilename)
    else Success(FileRecord(source, None, None, None))
  }

  predicate NoOverrides(f: FileRecord) {
    f.categoryOverride.None? && f.internalOverride.None? && f.filenameOverride.None?
  }

  /** `source_filename`: a torrent member's path is the download directory
      and the member name run together, with no separator put in between. */
  function SourceFilename(f: FileRecord): (r: string)
    ensures f.source.TorrentMember? ==>
              |r| == |f.source.downloadDir| + |f.source.name| &&
              r[..|f.source.downloadDir|] == f.source.downloadDir &&
              r[|f.source.downloadDir|..] == f.source.name
  {
    match f.source
    case TorrentMember(dir, name) => dir + name
    case Literal(path) => path
  }

  /** `source_directory`: the dirname with every trailing '/' removed. */
  function SourceDirectory(f: FileRecord): string {
    RStripSlash(Dirname(SourceFilename(f)))
  }

  /** The first of `cats` that occurs among `parts`. */
  function FirstPresent(cats: seq<string>, parts: seq<string>): (r: Option<string>)
    ensures r.None? <==> forall k :: 0 <= k < |cats| ==> cats[k] !in parts
    ensures r.Some? ==> exists k :: 0 <= k < |cats| && cats[k] == r.value && cats[k] in parts &&
                          forall j :: 0 <= j < k ==> cats[j] !in parts
  {
    if |cats| == 0 then None
    else if cats[0] in parts then Some(cats[0])
    else
      var r := FirstPresent(cats[1..], parts);
      assert forall k :: 1 <= k < |cats| ==> cats[k] == cats[1..][k - 1];
      r
  }

  /** The category a directory's path segments imply, with no override. */
  function DerivedCategory(parts: seq<string>): string {
    match FirstPresent(Categories, parts)
    case Some(c) => c
    case None => DefaultCategory
  }

  /** The list scan amounts to a fixed priority: Movies, then TVSeries, then
      Other; a directory holding both Movies and TVSeries is a Movies one. */
  lemma DerivedCategoryPriority(parts: seq<string>)
    ensures DerivedCategory(parts) ==
              if Movies in parts then Movies
              else if TVSeries in parts then TVSeries
              else Other
  {
    var r := FirstPresent(Categories, parts);
    if r.Some? {
      var k :| 0 <= k < |Categories| && Categories[k] == r.value && Categories[k] in parts &&
               forall j :: 0 <= j < k ==> Categories[j] !in parts;
      if k >= 1 {
        assert Categories[0] !in parts;
      }
      if k == 2 {
        assert Categories[1] !in parts;
      }
    } else {
      assert Categories[0] !in parts && Categories[1] !in parts;
    }
  }

  /** `category`: a truthy override, else derived from the source directory. */
  function Category(f: FileRecord): string {
    if f.categoryOverride.Some? && f.categoryOverride.value != "" then f.categoryOverride.value
    else DerivedCategory(PathParts(SourceDirectory(f)))
  }

  /** `parts.index(c)`. */
  function IndexOf(parts: seq<string>, c: string): (i: nat)
    requires c in parts
    ensures i < |parts| && parts[i] == c
    ensures forall j :: 0 <= j < i ==> parts[j] != c
  {
    if parts[0] == c then 0 else 1 + IndexOf(parts[1..], c)
  }

  /** `_right_of_category(path)`. When the category is a segment, both sides
      of its first occurrence are joined; `os.path.join()` of nothing raises,
      so the category must be neither first nor last. When it is not a
      segment, `_split_on_category` returns the whole re-joined path as one
      string, which is then unpacked into two names: that succeeds only for a
      string of exactly two characters, and yields its second character. */
  function RightOfCategory(path: string, category: string): Result<string, Failure> {
    var parts := PathParts(path);
    if category in parts then
      var i := IndexOf(parts, category);
      if i == 0 || i == |parts| - 1 then Failure(UnsplittablePath(path))
      else Success(JoinAll(parts[i + 1], parts[i + 2..]))
    else
      var whole := JoinAll(parts[0], parts[1..]);
      if |whole| == 2 then Success(whole[1..]) else Failure(UnsplittablePath(path))
  }

  /** `internal_directory`: an override that is not `None`, even '', else
      the part of the source directory after the category segment. */
  function InternalDirectory(f: FileRecord): Result<string, Failure> {
    if f.internalOverride.Some? then Success(f.internalOverride.value)
    else RightOfCategory(SourceDirectory(f), Category(f))
  }

  /** `filename`: a truthy override, else the basename of the source. */
  function Filename(f: FileRecord): string {
    if f.filenameOverride.Some? && f.filenameOverride.value != "" then f.filenameOverride.value
    else Basename(SourceFilename(f))
  }

  /** `destination_directory`: join(base, category, internal_directory). */
  function DestinationDirectory(f: FileRecord): Result<string, Failure> {
    var internal :- InternalDirectory(f);
    Success(JoinAll(DestinationBase, [Category(f), internal]))
  }

  /** `destination_filename`: join(destination_directory, filename). */
  function DestinationFilename(f: FileRecord): Result<string, Failure> {
    var dir :- DestinationDirectory(f);
    Success(Join2(dir, Filename(f)))
  }

  /** `__copy__`: the same source, none of the overrides. */
  function Copy(f: FileRecord): (r: FileRecord)
    ensures r.source == f.source && SourceFilename(r) == SourceFilename(f)
    ensures NoOverrides(r)
    ensures NoOverrides(f) ==> r == f
  {
    FileRecord(f.source, None, None, None)
  }

  /** `dissect_base_directory(path)`: '/' and the segments strictly between
      the root and the last one, and the last segment when it names Movies or
      TVSeries, Other otherwise. The last segment is dropped either way. */
  function DissectBaseDirectory(path: string): (string, string) {
    DissectParts(PathParts(path))
  }

  function DissectParts(parts: seq<string>): (string, string)
    requires |parts| >= 1
  {
    var last := parts[|parts| - 1];
    var middle := if |parts| >= 2 then parts[1..|parts| - 1] else [];
    ("/" + Join(middle, "/"), if last == Movies || last == TVSeries then last else Other)
  }

  /** A set `category` or `filename` override counts only when it is truthy,
      so '' falls back to derivation, while an `internal_directory` of '' is
      authoritative. */
  lemma OverrideTruthiness(f: FileRecord)
    ensures Category(f.(categoryOverride := Some(""))) == Category(f.(categoryOverride := None))
    ensures Filename(f.(filenameOverride := Some(""))) == Filename(f.(filenameOverride := None))
    ensures InternalDirectory(f.(internalOverride := Some(""))) == Success("")
    ensures forall c :: c != "" ==> Category(f.(categoryOverride := Some(c))) == c
  {
  }

  /** The directory and base name of a well-formed path, as `source_directory`
      and the default `filename` see them. */
  lemma SourcePartsOfRender(absolute: bool, segs: seq<string>)
    requires ValidSegments(segs) && |segs| > 0
    ensures var n := |segs|;
            var p := Render(absolute, segs);
            Basename(p) == segs[n - 1] &&
            RStripSlash(Dirname(p)) == if n == 1 then "" else Render(absolute, segs[..n - 1])
  {
    var n := |segs|;
    var init := segs[..n - 1];
    assert init + [segs[n - 1]] == segs;
    SplitRenderSnoc(absolute, init, segs[n - 1]);
    var h := Render(absolute, init);
    if n == 1 {
      assert h == Root(absolute);
      if absolute {
        assert TrailingSlashStart(h, 1) == 0;
      }
    } else {
      RenderShape(absolute, init);
      assert h[..|h|] == h;
    }
  }

  /** Neither '/' nor '' is a category name, so looking for one among the
      parts of a well-formed path is looking among its segments. */
  lemma SegmentInParts(absolute: bool, segs: seq<string>, c: string)
    requires ValidSegments(segs) && IsSegment(c)
    ensures PathParts(Render(absolute, segs)) == [Root(absolute)] + segs
    ensures c in PathParts(Render(absolute, segs)) <==> c in segs
    ensures c in segs ==> IndexOf([Root(absolute)] + segs, c) == IndexOf(segs, c) + 1
  {
    PathPartsOfRender(absolute, segs);
    if absolute {
      assert Root(absolute)[0] == '/';
    }
    assert c != Root(absolute);
    if c in segs {
      var parts := [Root(absolute)] + segs;
      assert parts[1..] == segs;
    }
  }

  /** The derived category of a well-formed directory. */
  lemma DerivedCategoryOfRender(absolute: bool, segs: seq<string>)
    requires ValidSegments(segs)
    ensures DerivedCategory(PathParts(Render(absolute, segs))) ==
              if Movies in segs then Movies
              else if TVSeries in segs then TVSeries
              else Other
  {
    assert HasNo(Movies, '/') && HasNo(TVSeries, '/');
    SegmentInParts(absolute, segs, Movies);
    SegmentInParts(absolute, segs, TVSeries);
    DerivedCategoryPriority(PathParts(Render(absolute, segs)));
  }

  /** The derived `internal_directory` of a well-formed directory: the
      segments strictly after the first occurrence of the category, joined
      by '/'; undefined when the category is the last segment; and, when the
      category is absent, defined only for a two-character path. */
  lemma RightOfCategoryOfRender(absolute: bool, segs: seq<string>, cat: string)
    requires ValidSegments(segs) && IsSegment(cat)
    ensures var r := RightOfCategory(Render(absolute, segs), cat);
            if cat in segs then
              var k := IndexOf(segs, cat);
              if k == |segs| - 1 then r.Failure? else r == Success(Join(segs[k + 1..], "/"))
            else
              r.Success? <==> |Render(absolute, segs)| == 2
  {
    SegmentInParts(absolute, segs, cat);
    var parts := [Root(absolute)] + segs;
    if cat in segs {
      var k := IndexOf(segs, cat);
      if k < |segs| - 1 {
        var rest := segs[k + 1..];
        assert ValidSegments(rest) by {
          forall j | 0 <= j < |rest|
            ensures IsSegment(rest[j])
          {
            assert rest[j] == segs[k + 1 + j];
          }
        }
        JoinPartsOfSegments(rest);
        assert parts[k + 2] == rest[0] && parts[k + 3..] == rest[1..];
      }
    } else {
      assert parts[1..] == segs;
      JoinAllRender(absolute, segs);
    }
  }

  /** The joins of `destination_filename` on plain strings. */
  lemma DestinationJoins(c: string, internal: string, name: string)
    requires IsSegment(c)
    requires internal == "" || (internal[0] != '/' && internal[|internal| - 1] != '/')
    requires name == "" || name[0] != '/'
    ensures Join2(JoinAll(DestinationBase, [c, internal]), name) ==
              DestinationBase + "/" + c + "/" + (if internal == "" then "" else internal + "/") + name
  {
    var base := DestinationBase;
    assert [c, internal][..1] == [c];
    assert JoinAll(base, [c]) == Join2(base, c);
    var a := base + "/" + c;
    assert Join2(base, c) == a;
    assert JoinAll(base, [c, internal]) == Join2(a, internal);
    if internal == "" {
      assert Join2(a, internal) == a + "/";
      assert Join2(a + "/", name) == a + "/" + name;
    } else {
      assert Join2(a, internal) == a + "/" + internal;
    }
  }

  /** Where `destination_filename` puts a file: under the base, then the
      category, then the internal directory unless it is '', then the
      filename. */
  lemma DestinationLayout(f: FileRecord, internal: string)
    requires IsSegment(Category(f))
    requires InternalDirectory(f) == Success(internal)
    requires internal == "" || (internal[0] != '/' && internal[|internal| - 1] != '/')
    requires Filename(f) == "" || Filename(f)[0] != '/'
    ensures DestinationFilename(f) ==
              Success(DestinationBase + "/" + Category(f) + "/" +
                      (if internal == "" then "" else internal + "/") + Filename(f))
  {
    DestinationJoins(Category(f), internal, Filename(f));
  }

  /** `dissect_base_directory` of a well-formed absolute path. */
  lemma DissectOfRender(segs: seq<string>)
    requires ValidSegments(segs) && |segs| > 0
    ensures var last := segs[|segs| - 1];
            DissectBaseDirectory(Render(true, segs)) ==
              (Render(true, segs[..|segs| - 1]), if last == Movies || last == TVSeries then last else Other)
  {
    PathPartsOfRender(true, segs);
    DissectOfParts(segs);
  }

  lemma DissectOfParts(segs: seq<string>)
    requires |segs| > 0
    ensures var last := segs[|segs| - 1];
            DissectParts([Root(true)] + segs) ==
              (Render(true, segs[..|segs| - 1]), if last == Movies || last == TVSeries then last else Other)
  {
    var parts := [Root(true)] + segs;
    assert parts[1..|parts| - 1] == segs[..|segs| - 1];
    assert parts[|parts| - 1] == segs[|segs| - 1];
  }
}
