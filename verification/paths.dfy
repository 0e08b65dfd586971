/** POSIX path manipulation as the program uses it: `os.path.split`,
    `dirname`, `basename`, `join` (posixpath), `str.rstrip('/')` and the
    recursive `path_parts` of post_processor/filesystem.py. Paths are
    strings; a well-formed path is a root ('/' or '') followed by
    non-empty, slash-free segments joined by '/', which `Render` builds. */
module Paths {

  import opened Wrappers
  import opened Text

  /** A path component: non-empty and free of '/'. */
  predicate IsSegment(s: string) {
    |s| > 0 && HasNo(s, '/')
  }

  predicate ValidSegments(segs: seq<string>) {
    forall k :: 0 <= k < |segs| ==> IsSegment(segs[k])
  }

  /** Where the run of slashes that ends at position `n` begins. */
  function TrailingSlashStart(h: string, n: nat): (r: nat)
    requires n <= |h|
    ensures r <= n
    ensures forall k :: r <= k < n ==> h[k] == '/'
    ensures r > 0 ==> h[r - 1] != '/'
  {
    if n > 0 && h[n - 1] == '/' then TrailingSlashStart(h, n - 1) else n
  }

  /** `h.rstrip('/')`. */
  function RStripSlash(h: string): string {
    h[..TrailingSlashStart(h, |h|)]
  }

  /** Every character of `s` from `lo` up to `hi` is a '/'. */
  predicate Slashes(s: string, lo: int, hi: int) {
    forall k :: lo <= k < hi && 0 <= k < |s| ==> s[k] == '/'
  }

  /** `os.path.split(p)`: the tail after the last '/', and the head before
      it with its trailing slashes removed, unless the head consists of
      slashes only (then stripping would leave nothing and the head is kept
      as it is). */
  function Split(p: string): (r: (string, string))
    ensures HasNo(r.1, '/')
    ensures |r.0| + |r.1| <= |p|
    ensures r.1 == "" ==> p == "" || p[|p| - 1] == '/'
  {
    var i := LastIndexBefore(p, '/', |p|) + 1;
    var head := p[..i];
    var stripped := RStripSlash(head);
    (if stripped != "" then stripped else head, p[i..])
  }

  /** What `Split` computes, stated without its algorithm: the tail is the
      suffix after the last '/' (all of `p` when there is none), and the head
      is the prefix before it less a run of trailing slashes, kept whole only
      when it consists of slashes alone. These facts fix both halves. */
  lemma SplitShape(p: string)
    ensures Split(p).1 == p[|p| - |Split(p).1|..]
    ensures |Split(p).1| < |p| ==> p[|p| - |Split(p).1| - 1] == '/'
    ensures Split(p).0 == p[..|Split(p).0|]
    ensures Slashes(p, |Split(p).0|, |p| - |Split(p).1|)
    ensures Split(p).0 == "" ==> |Split(p).1| == |p|
    ensures Split(p).0 != "" && Split(p).0[|Split(p).0| - 1] == '/' ==>
              |Split(p).0| + |Split(p).1| == |p| && Slashes(Split(p).0, 0, |Split(p).0|)
  {
    var i := LastIndexBefore(p, '/', |p|) + 1;
    var h := p[..i];
    var t := TrailingSlashStart(h, |h|);
    assert RStripSlash(h) == p[..t];
    if t == 0 {
      assert Split(p) == (h, p[i..]);
    } else {
      assert Split(p) == (p[..t], p[i..]);
      assert p[..t][t - 1] == h[t - 1];
    }
  }

  /** `os.path.dirname(p)`. */
  function Dirname(p: string): string {
    Split(p).0
  }

  /** `os.path.basename(p)`. */
  function Basename(p: string): string {
    Split(p).1
  }

  /** `path_parts(p)`: the residual head of repeated splitting, then every
      non-empty tail in left-to-right order. Each recursive call is on the
      strictly shorter head. */
  function PathParts(p: string): (r: seq<string>)
    ensures |r| >= 1
    ensures forall k :: 1 <= k < |r| ==> IsSegment(r[k])
    decreases |p|
  {
    var sp := Split(p);
    if sp.1 != "" then
      assert IsSegment(sp.1);
      PathParts(sp.0) + [sp.1]
    else [sp.0]
  }

  /** `os.path.join(a, b)` for two components (posixpath): an absolute `b`
      replaces what came before; otherwise a '/' is inserted unless `a` is
      empty or already ends with one. */
  function Join2(a: string, b: string): string {
    if |b| > 0 && b[0] == '/' then b
    else if a == "" || a[|a| - 1] == '/' then a + b
    else a + "/" + b
  }

  /** `os.path.join(first, *rest)`. */
  function JoinAll(first: string, rest: seq<string>): string
    decreases |rest|
  {
    if |rest| == 0 then first
    else Join2(JoinAll(first, rest[..|rest| - 1]), rest[|rest| - 1])
  }

  /** `os.path.join(*parts)`: with no argument at all Python 2 raises
      `TypeError`, modelled as `None`. */
  function JoinParts(parts: seq<string>): (r: Option<string>)
    ensures r.None? <==> |parts| == 0
  {
    if |parts| == 0 then None else Some(JoinAll(parts[0], parts[1..]))
  }

  function Root(absolute: bool): string {
    if absolute then "/" else ""
  }

  /** The well-formed path with the given root and segments. */
  function Render(absolute: bool, segs: seq<string>): string {
    Root(absolute) + Join(segs, "/")
  }

  lemma RenderSnoc(absolute: bool, segs: seq<string>, s: string)
    ensures Render(absolute, segs + [s]) ==
            if segs == [] then Root(absolute) + s else Render(absolute, segs) + "/" + s
  {
    var all := segs + [s];
    if segs != [] {
      assert all[..|all| - 1] == segs;
    }
  }

  /** A rendered path with at least one segment ends in its last segment, so
      neither ends in '/' nor consists of slashes only. */
  lemma {:induction false} RenderShape(absolute: bool, segs: seq<string>)
    requires ValidSegments(segs) && |segs| > 0
    ensures var p := Render(absolute, segs);
            |p| > 0 && p[|p| - 1] != '/' 
  {
    var n := |segs|;
    var init, last := segs[..n - 1], segs[n - 1];
    assert init + [last] == segs;
    RenderSnoc(absolute, init, last);
    var front := if init == [] then Root(absolute) else Render(absolute, init) + "/";
    assert Render(absolute, segs) == front + last;
    assert (front + last)[|front| + |last| - 1] == last[|last| - 1];
  }

  lemma SplitOfSegment(s: string)
    requires IsSegment(s)
    ensures Split(s) == ("", s)
  {
    assert LastIndexBefore(s, '/', |s|) == -1;
  }

  lemma LastSlashOfSnoc(x: string, s: string)
    requires IsSegment(s)
    ensures LastIndexBefore(x + "/" + s, '/', |x| + 1 + |s|) == |x|
  {
    var p := x + "/" + s;
    var r := LastIndexBefore(p, '/', |p|);
    assert p[|x|] == '/';
  }

  lemma StripOfSlashSuffix(x: string)
    requires x == "" || x[|x| - 1] != '/'
    ensures RStripSlash(x + "/") == x
  {
    var head := x + "/";
    assert TrailingSlashStart(head, |head|) == TrailingSlashStart(head, |x|);
    if x != "" {
      assert head[|x| - 1] == x[|x| - 1];
    }
    assert head[..|x|] == x;
  }

  lemma SplitAfterSlash(x: string, s: string)
    requires IsSegment(s)
    requires x == "" || x[|x| - 1] != '/'
    ensures Split(x + "/" + s) == (if x == "" then "/" else x, s)
  {
    var p := x + "/" + s;
    LastSlashOfSnoc(x, s);
    StripOfSlashSuffix(x);
    assert p[..|x| + 1] == x + "/";
    assert p[|x| + 1..] == s;
  }

  /** Splitting a rendered path with at least one segment separates the
      last segment from the rendering of the others. */
  lemma SplitRenderSnoc(absolute: bool, init: seq<string>, s: string)
    requires ValidSegments(init) && IsSegment(s)
    ensures Split(Render(absolute, init + [s])) == (Render(absolute, init), s)
  {
    RenderSnoc(absolute, init, s);
    if init == [] {
      if absolute {
        SplitAfterSlash("", s);
        assert Render(absolute, init) == "/";
        assert Render(absolute, init + [s]) == "" + "/" + s;
      } else {
        assert Render(absolute, init) == "";
        assert Render(absolute, init + [s]) == s;
        SplitOfSegment(s);
      }
    } else {
      RenderShape(absolute, init);
      SplitAfterSlash(Render(absolute, init), s);
    }
  }

  lemma PathPartsSnoc(absolute: bool, init: seq<string>, s: string)
    requires ValidSegments(init) && IsSegment(s)
    ensures PathParts(Render(absolute, init + [s])) == PathParts(Render(absolute, init)) + [s]
  {
    SplitRenderSnoc(absolute, init, s);
  }

  lemma PathPartsOfRoot(absolute: bool)
    ensures PathParts(Root(absolute)) == [Root(absolute)]
  {
    if absolute {
      assert LastIndexBefore("/", '/', 1) == 0;
      assert TrailingSlashStart("/", 1) == 0;
      assert "/"[..1] == "/" && "/"[1..] == "" && "/"[..0] == "";
      assert Split("/") == ("/", "");
    } else {
      assert Split("") == ("", "");
    }
  }

  lemma PathPartsStep(absolute: bool, init: seq<string>, s: string, segs: seq<string>)
    requires ValidSegments(init) && IsSegment(s) && segs == init + [s]
    requires PathParts(Render(absolute, init)) == [Root(absolute)] + init
    ensures PathParts(Render(absolute, segs)) == [Root(absolute)] + segs
  {
    PathPartsSnoc(absolute, init, s);
    ConsSnoc(Root(absolute), init, s, segs);
  }

  lemma ConsSnoc<T>(x: T, init: seq<T>, s: T, segs: seq<T>)
    requires segs == init + [s]
    ensures [x] + init + [s] == [x] + segs
  {
  }

  /** `path_parts` of a well-formed path gives back its root and its
      segments: '/' for an absolute path, '' for a relative one. */
  lemma {:induction false} PathPartsOfRender(absolute: bool, segs: seq<string>)
    requires ValidSegments(segs)
    ensures PathParts(Render(absolute, segs)) == [Root(absolute)] + segs
    decreases |segs|
  {
    var n := |segs|;
    if n == 0 {
      assert Render(absolute, segs) == Root(absolute);
      PathPartsOfRoot(absolute);
    } else {
      var init, s := segs[..n - 1], segs[n - 1];
      assert init + [s] == segs;
      assert ValidSegments(init) by {
        forall k | 0 <= k < |init| ensures IsSegment(init[k]) {
          assert init[k] == segs[k];
        }
      }
      PathPartsOfRender(absolute, init);
      PathPartsStep(absolute, init, s, segs);
    }
  }

  /** Folding `os.path.join` over a root and segments renders the path. */
  lemma {:induction false} JoinAllRender(absolute: bool, segs: seq<string>)
    requires ValidSegments(segs)
    ensures JoinAll(Root(absolute), segs) == Render(absolute, segs)
    decreases |segs|
  {
    var n := |segs|;
    if n > 0 {
      var init, s := segs[..n - 1], segs[n - 1];
      assert init + [s] == segs;
      JoinAllRender(absolute, init);
      RenderSnoc(absolute, init, s);
      if init != [] {
        RenderShape(absolute, init);
      }
    }
  }

  /** `os.path.join(*segs)` of one or more segments joins them with '/'. */
  lemma {:induction false} JoinPartsOfSegments(segs: seq<string>)
    requires ValidSegments(segs) && |segs| > 0
    ensures JoinParts(segs) == Some(Join(segs, "/"))
    decreases |segs|
  {
    var n := |segs|;
    if n > 1 {
      var init := segs[..n - 1];
      JoinPartsOfSegments(init);
      assert init[1..] == segs[1..][..n - 2];
      RenderShape(false, init);
      assert Render(false, init) == Join(init, "/");
    }
  }
}
