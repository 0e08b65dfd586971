/** The listing `unrar l` prints, as `rar_contents` reads it: the member
    table between two banner lines, and the size and name on each member
    line. */
module Listings {

  import opened Wrappers
  import opened Text
  import opened Errors

  /** The line that opens and closes the member table of `unrar l`. */
  const Banner: string := "----------- ---------  ---------- -----  ----"

  predicate IsBanner(line: string) {
    StartsWith(line, Banner)
  }

  // ---------------------------------------------------------------------
  // Which lines of the listing are member lines

  /** The `for line in output.split('\n')` loop of `rar_contents` as a state
      machine: a banner line flips `inside` and is skipped; other lines are
      kept while inside the table. */
  function TableLines(lines: seq<string>, inside: bool): seq<string> {
    if |lines| == 0 then []
    else if IsBanner(lines[0]) then TableLines(lines[1..], !inside)
    else if inside then [lines[0]] + TableLines(lines[1..], inside)
    else TableLines(lines[1..], inside)
  }

  function BannerCount(lines: seq<string>): nat {
    if |lines| == 0 then 0
    else (if IsBanner(lines[0]) then 1 else 0) + BannerCount(lines[1..])
  }

  /** Reference description: a line belongs to the table when it is not a
      banner and an odd number of banners precede it. */
  function TableReference(lines: seq<string>): (r: seq<string>)
    ensures forall k :: 0 <= k < |r| ==> !IsBanner(r[k])
  {
    if |lines| == 0 then []
    else
      var init, last := lines[..|lines| - 1], lines[|lines| - 1];
      if !IsBanner(last) && BannerCount(init) % 2 == 1 then TableReference(init) + [last]
      else TableReference(init)
  }

  lemma {:induction false} TableLinesSnoc(xs: seq<string>, x: string, inside: bool)
    ensures TableLines(xs + [x], inside) ==
            TableLines(xs, inside) + (if !IsBanner(x) && inside != (BannerCount(xs) % 2 == 1) then [x] else [])
    decreases |xs|
  {
    if |xs| == 0 {
      assert xs + [x] == [x];
    } else {
      assert (xs + [x])[1..] == xs[1..] + [x];
      assert (xs + [x])[0] == xs[0];
      if IsBanner(xs[0]) {
        TableLinesSnoc(xs[1..], x, !inside);
      } else {
        TableLinesSnoc(xs[1..], x, inside);
      }
    }
  }

  /** The loop keeps exactly the lines the reference description selects. */
  lemma {:induction false} TableLinesMatchReference(lines: seq<string>)
    ensures TableLines(lines, false) == TableReference(lines)
    decreases |lines|
  {
    if |lines| > 0 {
      var init, last := lines[..|lines| - 1], lines[|lines| - 1];
      assert init + [last] == lines;
      TableLinesSnoc(init, last, false);
      TableLinesMatchReference(init);
    }
  }

  // ---------------------------------------------------------------------
  // Parsing one member line

  /** Where the match of
      `re.search(r'[^\s]+\s+([^\s]+)\s+[^\s]+\s+[^\s]+\s+(.*)', line)`
      puts its groups: the search succeeds at the first non-space character
      exactly when four whitespace-separated tokens follow it and whitespace
      follows the fourth; the first group is the second token and the
      second group starts after the whitespace that follows the fourth. */
  function GroupBounds(line: string): (r: Option<(nat, nat, nat)>)
    ensures r.Some? ==> r.value.0 < r.value.1 < r.value.2 <= |line|
  {
    var a := SkipSpace(line, 0);
    var b := SkipNonSpace(line, a);
    var c := SkipSpace(line, b);
    var d := SkipNonSpace(line, c);
    var e := SkipSpace(line, d);
    var f := SkipNonSpace(line, e);
    var g := SkipSpace(line, f);
    var h := SkipNonSpace(line, g);
    var i := SkipSpace(line, h);
    if a < b && b < c && c < d && d < e && e < f && f < g && g < h && h < i
    then Some((c, d, i))
    else None
  }

  /** The two groups of that search, when it succeeds. */
  function ListingGroups(line: string): Option<(string, string)> {
    match GroupBounds(line)
    case None => None
    case Some((c, d, i)) => Some((line[c..d], line[i..]))
  }

  datatype Member = Member(name: string, size: int)

  /** One member line: the stripped name and `int(size)`. A line the
      pattern does not match (`AttributeError` on `None.groups()`) or whose
      size is not a number (`ValueError`) is an error nobody catches. */
  function ParseListingLine(line: string): (r: Result<Member, Failure>)
    ensures r.Failure? ==> r.error == UnparsableListingLine(line)
    ensures r.Success? ==> |r.value.name| == 0 || !IsSpace(r.value.name[|r.value.name| - 1])
    ensures r.Success? ==> ListingGroups(line).Some? && ParseInt(ListingGroups(line).value.0) == Some(r.value.size)
  {
    match ListingGroups(line)
    case None => Failure(UnparsableListingLine(line))
    case Some((size, rest)) =>
      match ParseInt(size)
      case None => Failure(UnparsableListingLine(line))
      case Some(n) => Success(Member(RStrip(rest), n))
  }

  lemma SkipSpaceTo(s: string, i: nat, j: nat)
    requires i <= j <= |s|
    requires forall k :: i <= k < j ==> IsSpace(s[k])
    requires j == |s| || !IsSpace(s[j])
    ensures SkipSpace(s, i) == j
    decreases j - i
  {
    if i < j {
      SkipSpaceTo(s, i + 1, j);
    }
  }

  lemma SkipNonSpaceTo(s: string, i: nat, j: nat)
    requires i <= j <= |s|
    requires forall k :: i <= k < j ==> !IsSpace(s[k])
    requires j == |s| || IsSpace(s[j])
    ensures SkipNonSpace(s, i) == j
    decreases j - i
  {
    if i < j {
      SkipNonSpaceTo(s, i + 1, j);
    }
  }

  /** A token: non-empty, without whitespace. */
  predicate IsToken(t: string) {
    |t| > 0 && NoSpace(t)
  }

  /** From `j`, a token ends at `e` and the whitespace after it at `f`. */
  predicate TokenSpan(s: string, j: nat, e: nat, f: nat) {
    j <= |s| && SkipNonSpace(s, j) == e && e <= |s| && SkipSpace(s, e) == f
  }

  /** Whitespace, possibly none. */
  predicate AllSpace(w: string) {
    forall k :: 0 <= k < |w| ==> IsSpace(w[k])
  }

  /** A run of whitespace that separates two columns: at least one blank. */
  predicate IsGap(w: string) {
    |w| > 0 && AllSpace(w)
  }

  /** How the four leading columns of a member line are padded: blanks
      before the first column, the gap after each of the four, and blanks
      after the name. `unrar` aligns its columns, so the gaps vary. */
  datatype Padding = Padding(lead: string, gap1: string, gap2: string, gap3: string, gap4: string, trail: string)

  predicate ValidPadding(pad: Padding) {
    AllSpace(pad.lead) && IsGap(pad.gap1) && IsGap(pad.gap2) && IsGap(pad.gap3) &&
    IsGap(pad.gap4) && AllSpace(pad.trail)
  }

  /** The four tokens of a line run from `p1` to `e1`, ..., from `p4` to
      `e4`, the first after the leading blanks, each followed by whitespace
      up to the next start and the last up to `p5`. This is the shape the
      member-line pattern demands. */
  predicate FieldsAt(line: string, p1: nat, e1: nat, p2: nat, e2: nat, p3: nat, e3: nat, p4: nat, e4: nat, p5: nat) {
    p1 < e1 < p2 < e2 < p3 < e3 < p4 < e4 < p5 &&
    SkipSpace(line, 0) == p1 &&
    TokenSpan(line, p1, e1, p2) && TokenSpan(line, p2, e2, p3) &&
    TokenSpan(line, p3, e3, p4) && TokenSpan(line, p4, e4, p5)
  }

  /** Where the groups are in a line of that shape. */
  lemma BoundsAt(line: string, p1: nat, e1: nat, p2: nat, e2: nat, p3: nat, e3: nat, p4: nat, e4: nat, p5: nat)
    requires FieldsAt(line, p1, e1, p2, e2, p3, e3, p4, e4, p5)
    ensures GroupBounds(line) == Some((p2, e2, p5))
  {
  }

  /** Conversely, a search that succeeds found a line of that shape. */
  lemma GroupBoundsFields(line: string)
    ensures GroupBounds(line).Some? ==>
              exists p1, e1, e3, p3, e4, p4 :: FieldsAt(line, p1, e1, GroupBounds(line).value.0, GroupBounds(line).value.1,
                                                        p3, e3, p4, e4, GroupBounds(line).value.2)
  {
    if GroupBounds(line).Some? {
      var a := SkipSpace(line, 0);
      var b := SkipNonSpace(line, a);
      var c := SkipSpace(line, b);
      var d := SkipNonSpace(line, c);
      var e := SkipSpace(line, d);
      var f := SkipNonSpace(line, e);
      var g := SkipSpace(line, f);
      var h := SkipNonSpace(line, g);
      var i := SkipSpace(line, h);
      assert FieldsAt(line, a, b, c, d, e, f, g, h, i);
    }
  }

  /** A line without four tokens each followed by whitespace (fewer columns,
      or nothing after the fourth) is an error. */
  lemma UnmatchedLineFails(line: string)
    requires forall p1, e1, p2, e2, p3, e3, p4, e4, p5 :: !FieldsAt(line, p1, e1, p2, e2, p3, e3, p4, e4, p5)
    ensures ParseListingLine(line) == Failure(UnparsableListingLine(line))
  {
    GroupBoundsFields(line);
  }

  /** A line of the member shape whose second column is not a number (what
      `int` rejects) is an error, like a line that does not match. */
  lemma NonNumericSizeFails(line: string, p1: nat, e1: nat, p2: nat, e2: nat, p3: nat, e3: nat, p4: nat, e4: nat, p5: nat)
    requires FieldsAt(line, p1, e1, p2, e2, p3, e3, p4, e4, p5)
    requires ParseInt(line[p2..e2]).None?
    ensures ParseListingLine(line) == Failure(UnparsableListingLine(line))
  {
    BoundsAt(line, p1, e1, p2, e2, p3, e3, p4, e4, p5);
  }

  /** A line of the member shape whose second column is a number gives that
      number as the size and the rest of the line after the fourth column,
      stripped, as the name. */
  lemma NumericSizeParses(line: string, p1: nat, e1: nat, p2: nat, e2: nat, p3: nat, e3: nat, p4: nat, e4: nat, p5: nat, n: int)
    requires FieldsAt(line, p1, e1, p2, e2, p3, e3, p4, e4, p5)
    requires ParseInt(line[p2..e2]) == Some(n)
    ensures ParseListingLine(line) == Success(Member(RStrip(line[p5..]), n))
  {
    BoundsAt(line, p1, e1, p2, e2, p3, e3, p4, e4, p5);
  }

  /** The groups are the slices at the bounds. */
  lemma GroupsAt(line: string, c: nat, d: nat, i: nat, g1: string, g2: string)
    requires GroupBounds(line) == Some((c, d, i))
    requires c <= d <= i <= |line| && line[c..d] == g1 && line[i..] == g2
    ensures ListingGroups(line) == Some((g1, g2))
  {
  }

  /** A token at `p..e` followed by a gap up to `q`, where a non-space or
      the end of the line follows. */
  lemma SliceSpan(line: string, p: nat, e: nat, q: nat)
    requires p <= e <= q <= |line|
    requires IsToken(line[p..e]) && IsGap(line[e..q]) && (q == |line| || !IsSpace(line[q]))
    ensures TokenSpan(line, p, e, q)
  {
    forall k | p <= k < e ensures !IsSpace(line[k]) {
      assert line[k] == line[p..e][k - p];
    }
    forall k | e <= k < q ensures IsSpace(line[k]) {
      assert line[k] == line[e..q][k - e];
    }
    SkipNonSpaceTo(line, p, e);
    SkipSpaceTo(line, e, q);
  }

  /** A member line as `unrar l` prints it: attributes, size, date, time
      and name, padded into columns. */
  function ListingLine(pad: Padding, attributes: string, size: nat, date: string, time: string, name: string): string {
    pad.lead + attributes + pad.gap1 + NatToString(size) + pad.gap2 + date + pad.gap3 + time + pad.gap4 + (name + pad.trail)
  }

  /** Where the first parts of a member line sit. */
  lemma ListingLineFront(line: string, pad: Padding, t1: string, t2: string, t3: string, t4: string, rest: string,
                         p1: nat, e1: nat, p2: nat, e2: nat, p3: nat, e3: nat, p4: nat, e4: nat, p5: nat)
    requires line == pad.lead + t1 + pad.gap1 + t2 + pad.gap2 + t3 + pad.gap3 + t4 + pad.gap4 + rest
    requires p1 == |pad.lead| && e1 == p1 + |t1| && p2 == e1 + |pad.gap1| && e2 == p2 + |t2| && p3 == e2 + |pad.gap2|
    requires e3 == p3 + |t3| && p4 == e3 + |pad.gap3| && e4 == p4 + |t4| && p5 == e4 + |pad.gap4|
    ensures p5 + |rest| == |line|
    ensures line[..p1] == pad.lead && line[p1..e1] == t1 && line[e1..p2] == pad.gap1
    ensures line[p2..e2] == t2 && line[e2..p3] == pad.gap2
  {
  }

  /** Where the last parts of a member line sit. */
  lemma ListingLineBack(line: string, pad: Padding, t1: string, t2: string, t3: string, t4: string, rest: string,
                        p1: nat, e1: nat, p2: nat, e2: nat, p3: nat, e3: nat, p4: nat, e4: nat, p5: nat)
    requires line == pad.lead + t1 + pad.gap1 + t2 + pad.gap2 + t3 + pad.gap3 + t4 + pad.gap4 + rest
    requires p1 == |pad.lead| && e1 == p1 + |t1| && p2 == e1 + |pad.gap1| && e2 == p2 + |t2| && p3 == e2 + |pad.gap2|
    requires e3 == p3 + |t3| && p4 == e3 + |pad.gap3| && e4 == p4 + |t4| && p5 == e4 + |pad.gap4|
    ensures p5 + |rest| == |line|
    ensures line[p3..e3] == t3 && line[e3..p4] == pad.gap3 && line[p4..e4] == t4
    ensures line[e4..p5] == pad.gap4 && line[p5..] == rest
  {
  }

  /** A padded line of four tokens and a rest that starts with a non-space
      has the shape the pattern demands. */
  lemma PaddedFields(line: string, pad: Padding, t1: string, t2: string, t3: string, t4: string, rest: string,
                     p1: nat, e1: nat, p2: nat, e2: nat, p3: nat, e3: nat, p4: nat, e4: nat, p5: nat)
    requires ValidPadding(pad) && IsToken(t1) && IsToken(t2) && IsToken(t3) && IsToken(t4)
    requires |rest| > 0 && !IsSpace(rest[0])
    requires p1 == |pad.lead| && e1 == p1 + |t1| && p2 == e1 + |pad.gap1| && e2 == p2 + |t2| && p3 == e2 + |pad.gap2|
    requires e3 == p3 + |t3| && p4 == e3 + |pad.gap3| && e4 == p4 + |t4| && p5 == e4 + |pad.gap4|
    requires p5 + |rest| == |line|
    requires line[..p1] == pad.lead && line[p1..e1] == t1 && line[e1..p2] == pad.gap1
    requires line[p2..e2] == t2 && line[e2..p3] == pad.gap2 && line[p3..e3] == t3
    requires line[e3..p4] == pad.gap3 && line[p4..e4] == t4 && line[e4..p5] == pad.gap4 && line[p5..] == rest
    ensures FieldsAt(line, p1, e1, p2, e2, p3, e3, p4, e4, p5)
  {
    assert line[p1] == t1[0] && line[p2] == t2[0] && line[p3] == t3[0];
    assert line[p4] == t4[0] && line[p5] == rest[0];
    assert SkipSpace(line, 0) == p1 by {
      forall k | 0 <= k < p1 ensures IsSpace(line[k]) {
        assert line[k] == line[..p1][k];
      }
      SkipSpaceTo(line, 0, p1);
    }
    SliceSpan(line, p1, e1, p2);
    SliceSpan(line, p2, e2, p3);
    SliceSpan(line, p3, e3, p4);
    SliceSpan(line, p4, e4, p5);
  }

  /** Blanks after a name that does not end in one are exactly what
      `rstrip` removes. */
  lemma RStripTrail(name: string, trail: string)
    requires |name| > 0 && !IsSpace(name[|name| - 1]) && AllSpace(trail)
    ensures RStrip(name + trail) == name
  {
    var s := name + trail;
    var r := RStrip(s);
    assert s[|name| - 1] == name[|name| - 1];
    assert |r| == |name|;
    assert s[..|name|] == name;
  }

  /** Reading a member line, whatever its padding, gives back the size and
      the name. */
  lemma ListingLineRoundTrip(pad: Padding, attributes: string, size: nat, date: string, time: string, name: string)
    requires ValidPadding(pad)
    requires IsToken(attributes) && IsToken(date) && IsToken(time)
    requires |name| > 0 && !IsSpace(name[0]) && !IsSpace(name[|name| - 1])
    ensures ParseListingLine(ListingLine(pad, attributes, size, date, time, name)) == Success(Member(name, size))
  {
    var sz := NatToString(size);
    assert IsToken(sz) by {
      forall k | 0 <= k < |sz| ensures !IsSpace(sz[k]) {
        assert IsDigit(sz[k]);
      }
    }
    var line := ListingLine(pad, attributes, size, date, time, name);
    var rest := name + pad.trail;
    var p1 := |pad.lead|;
    var e1 := p1 + |attributes|;
    var p2 := e1 + |pad.gap1|;
    var e2 := p2 + |sz|;
    var p3 := e2 + |pad.gap2|;
    var e3 := p3 + |date|;
    var p4 := e3 + |pad.gap3|;
    var e4 := p4 + |time|;
    var p5 := e4 + |pad.gap4|;
    ListingLineFront(line, pad, attributes, sz, date, time, rest, p1, e1, p2, e2, p3, e3, p4, e4, p5);
    ListingLineBack(line, pad, attributes, sz, date, time, rest, p1, e1, p2, e2, p3, e3, p4, e4, p5);
    assert rest[0] == name[0];
    PaddedFields(line, pad, attributes, sz, date, time, rest, p1, e1, p2, e2, p3, e3, p4, e4, p5);
    BoundsAt(line, p1, e1, p2, e2, p3, e3, p4, e4, p5);
    GroupsAt(line, p2, e2, p5, sz, rest);
    NatToStringRoundTrip(size);
    RStripTrail(name, pad.trail);
  }

}
