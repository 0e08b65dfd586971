/** Episode identification (`validate_episode_filename`,
    `normalise_show_name`, `get_tvdb_id`, `name_via_tvdb`), identical in
    process.py and post_processor/tv.py.

    The episode pattern
      ^(?P<seriesname>.*)s(?P<season>\d+)e(?P<episode>\d+)(?P<episodename>.*)\.(?P<extension>[^.]+)$
    (case-insensitive) is characterised by indices: the match uses the
    rightmost 's' that is followed by a digit run, an 'e' and another digit
    run, with the last '.' of the string at or after the second run and at
    least one character after that dot. `.` does not match a newline, so no
    newline may occur before the 's' or between the episode number and the
    last dot.

    The show database (tvdb_api) is a parameter: the model never talks to
    the network. */
module Episodes {

  import opened Wrappers
  import opened Text
  import opened Errors

  predicate IsSeasonMark(c: char) {
    c == 's' || c == 'S'
  }

  predicate IsEpisodeMark(c: char) {
    c == 'e' || c == 'E'
  }

  /** End of the maximal run of digits that starts at `i`. */
  function DigitRunEnd(h: string, i: nat): (j: nat)
    requires i <= |h|
    ensures i <= j <= |h|
    ensures AllDigits(h[i..j])
    ensures j < |h| ==> !IsDigit(h[j])
    decreases |h| - i
  {
    if i < |h| && IsDigit(h[i]) then DigitRunEnd(h, i + 1) else i
  }

  /** Index of the last '.', or -1. */
  function LastDot(h: string): int {
    LastIndexBefore(h, '.', |h|)
  }

  /** The pattern matches with its 's' at position `i`. Greedy digit runs
      lose nothing here: a shorter run would put a digit where the 'e' (or
      the rest) has to be. */
  predicate EpisodeMatchAt(h: string, i: nat) {
    i < |h| && IsSeasonMark(h[i]) && HasNo(h[..i], '\n') &&
    var j := DigitRunEnd(h, i + 1);
    j > i + 1 && j < |h| && IsEpisodeMark(h[j]) &&
    var k := DigitRunEnd(h, j + 1);
    var d := LastDot(h);
    k > j + 1 && k <= d < |h| - 1 && HasNo(h[k..d], '\n')
  }

  /** The named groups the match returns (the episode name is not used). */
  datatype Groups = Groups(seriesname: string, season: string, episode: string, extension: string)

  function GroupsAt(h: string, i: nat): (g: Groups)
    requires EpisodeMatchAt(h, i)
    ensures |g.season| > 0 && AllDigits(g.season)
    ensures |g.episode| > 0 && AllDigits(g.episode)
    ensures |g.extension| > 0 && HasNo(g.extension, '.')
    ensures g.seriesname == h[..i] && HasNo(g.seriesname, '\n')
  {
    var j := DigitRunEnd(h, i + 1);
    var k := DigitRunEnd(h, j + 1);
    Groups(h[..i], h[i + 1..j], h[j + 1..k], h[LastDot(h) + 1..])
  }

  /** The greatest match position below `n`: `.*` is greedy, so the regex
      engine tries the rightmost 's' first and backtracks leftwards. */
  function RightmostMatch(h: string, n: nat): (r: Option<nat>)
    requires n <= |h|
    ensures r.Some? ==> r.value < n && EpisodeMatchAt(h, r.value) &&
                        forall i :: r.value < i < n ==> !EpisodeMatchAt(h, i)
    ensures r.None? ==> forall i :: 0 <= i < n ==> !EpisodeMatchAt(h, i)
  {
    if n == 0 then None
    else if EpisodeMatchAt(h, n - 1) then Some(n - 1)
    else RightmostMatch(h, n - 1)
  }

  /** `regex.search(hint)` and its groups. */
  function MatchEpisode(h: string): (r: Option<Groups>)
    ensures r.None? <==> forall i :: 0 <= i < |h| ==> !EpisodeMatchAt(h, i)
    ensures r.Some? ==> exists i :: 0 <= i < |h| && EpisodeMatchAt(h, i) && r.value == GroupsAt(h, i) &&
                                    forall i' :: i < i' < |h| ==> !EpisodeMatchAt(h, i')
  {
    match RightmostMatch(h, |h|)
    case None => None
    case Some(i) => Some(GroupsAt(h, i))
  }

  // ---------------------------------------------------------------------
  // normalise_show_name

  /** The characters of the class `[.\-_]`. */
  predicate IsSeparator(c: char) {
    c == '.' || c == '-' || c == '_'
  }

  predicate NoSeparator(s: string) {
    forall k :: 0 <= k < |s| ==> !IsSeparator(s[k])
  }

  /** `re.sub(r'[.\-_]+', ' ', s)`: each maximal run of separators becomes
      one space. */
  function Collapse(s: string): (r: string)
    ensures |r| <= |s|
    ensures NoSeparator(r)
    ensures NoSeparator(s) ==> r == s
    ensures |s| > 0 && !IsSeparator(s[|s| - 1]) ==> |r| > 0 && r[|r| - 1] == s[|s| - 1]
  {
    if |s| == 0 then ""
    else
      var init := Collapse(s[..|s| - 1]);
      var c := s[|s| - 1];
      if !IsSeparator(c) then init + [c]
      else if |s| > 1 && IsSeparator(s[|s| - 2]) then init
      else init + " "
  }

  /** Where the run of separators that starts at `i` ends. */
  function SeparatorRunEnd(s: string, i: nat): (j: nat)
    requires i <= |s|
    ensures i <= j <= |s|
    ensures forall k :: i <= k < j ==> IsSeparator(s[k])
    ensures j < |s| ==> !IsSeparator(s[j])
    decreases |s| - i
  {
    if i == |s| || !IsSeparator(s[i]) then i else SeparatorRunEnd(s, i + 1)
  }

  /** The same substitution read the way the regular-expression engine scans:
      left to right, a separator starts a match that takes the whole run and
      emits one space, and any other character is copied. */
  function Substitute(s: string): (r: string)
    decreases |s|
  {
    if |s| == 0 then ""
    else if IsSeparator(s[0]) then " " + Substitute(s[SeparatorRunEnd(s, 0)..])
    else [s[0]] + Substitute(s[1..])
  }

  lemma {:induction false} SeparatorRunEndSnoc(s: string, c: char, i: nat)
    requires i <= |s|
    ensures SeparatorRunEnd(s + [c], i) ==
            if SeparatorRunEnd(s, i) < |s| then SeparatorRunEnd(s, i)
            else if IsSeparator(c) then |s| + 1 else |s|
    decreases |s| - i
  {
    var t := s + [c];
    if i < |s| {
      assert t[i] == s[i];
      if IsSeparator(s[i]) {
        SeparatorRunEndSnoc(s, c, i + 1);
      }
    }
  }

  /** Appending one character to the input of `Substitute` appends to its
      output exactly what `Collapse` appends. */
  lemma {:induction false} SubstituteSnoc(s: string, c: char)
    ensures Substitute(s + [c]) ==
            if !IsSeparator(c) then Substitute(s) + [c]
            else if |s| > 0 && IsSeparator(s[|s| - 1]) then Substitute(s)
            else Substitute(s) + " "
    decreases |s|
  {
    var t := s + [c];
    if |s| == 0 {
      assert t == [c];
      if IsSeparator(c) {
        assert SeparatorRunEnd(t, 0) == 1;
        assert t[1..] == "";
      } else {
        assert t[1..] == "";
      }
    } else if !IsSeparator(s[0]) {
      assert t[0] == s[0];
      assert t[1..] == s[1..] + [c];
      SubstituteSnoc(s[1..], c);
      if |s| > 1 {
        assert s[1..][|s| - 2] == s[|s| - 1];
      }
    } else {
      assert t[0] == s[0];
      var j := SeparatorRunEnd(s, 0);
      SeparatorRunEndSnoc(s, c, 0);
      if j < |s| {
        assert t[j..] == s[j..] + [c];
        SubstituteSnoc(s[j..], c);
        assert s[j..][|s| - j - 1] == s[|s| - 1];
      } else {
        assert s[j..] == "";
        if IsSeparator(c) {
          assert t[|s| + 1..] == "";
        } else {
          assert t[|s|..] == [c];
          assert Substitute([c]) == [c] + Substitute([c][1..]);
          assert [c][1..] == "";
        }
      }
    }
  }

  /** `Collapse`, which builds its result from the end, agrees with the
      left-to-right reading of the substitution on every input. */
  lemma {:induction false} CollapseIsSubstitute(s: string)
    ensures Collapse(s) == Substitute(s)
    decreases |s|
  {
    if |s| > 0 {
      var init := s[..|s| - 1];
      CollapseIsSubstitute(init);
      SubstituteSnoc(init, s[|s| - 1]);
      assert init + [s[|s| - 1]] == s;
      if |s| > 1 {
        assert init[|init| - 1] == s[|s| - 2];
      }
    }
  }

  /** `str.title()` on ASCII: a letter is upper-cased when the character
      before it is not a letter, lower-cased otherwise; everything else is
      kept. */
  function Title(s: string): (r: string)
    ensures |r| == |s|
    ensures forall k :: 0 <= k < |s| ==> (IsLetter(r[k]) <==> IsLetter(s[k]))
    ensures forall k :: 0 <= k < |s| && !IsLetter(s[k]) ==> r[k] == s[k]
    ensures forall k :: 0 <= k < |s| && IsLetter(s[k]) ==>
              if k > 0 && IsLetter(s[k - 1]) then IsLower(r[k]) else IsUpper(r[k])
    // only the case of a letter changes, never which letter it is
    ensures forall k :: 0 <= k < |s| ==> ToLower(r[k]) == ToLower(s[k])
  {
    seq(|s|, k requires 0 <= k < |s| => if k > 0 && IsLetter(s[k - 1]) then ToLower(s[k]) else ToUpper(s[k]))
  }

  /** `normalise_show_name(s)`. */
  function Normalise(s: string): (r: string)
    ensures NoSeparator(r)
    ensures |r| > 0 ==> !IsSpace(r[0]) && !IsSpace(r[|r| - 1])
  {
    var stripped := Strip(Collapse(s));
    StripKeepsNoSeparator(Collapse(s));
    TitleKeepsNoSeparator(stripped);
    Title(stripped)
  }

  lemma StripKeepsNoSeparator(s: string)
    requires NoSeparator(s)
    ensures NoSeparator(Strip(s))
  {
    var r := Strip(s);
    forall k | 0 <= k < |r| ensures !IsSeparator(r[k]) {
      assert r[k] in r;
    }
  }

  lemma TitleKeepsNoSeparator(s: string)
    requires NoSeparator(s)
    ensures NoSeparator(Title(s))
  {
  }

  lemma TitleIdempotent(s: string)
    ensures Title(Title(s)) == Title(s)
  {
    var t := Title(s);
    var tt := Title(t);
    forall k | 0 <= k < |s| ensures tt[k] == t[k] {
      if IsLetter(s[k]) {
        if k > 0 && IsLetter(s[k - 1]) {
          assert IsLetter(t[k - 1]);
        }
      }
    }
  }

  /** Normalising a normalised name changes nothing. */
  lemma NormaliseIdempotent(s: string)
    ensures Normalise(Normalise(s)) == Normalise(s)
  {
    var n := Normalise(s);
    assert Collapse(n) == n;
    assert Strip(n) == n;
    TitleIdempotent(Strip(Collapse(s)));
  }

  // ---------------------------------------------------------------------
  // validate_episode_filename

  datatype EpisodeInfo = EpisodeInfo(seriesname: string, season: nat, episode: nat, extension: string)

  function InfoOf(g: Groups): EpisodeInfo
    requires AllDigits(g.season) && AllDigits(g.episode)
  {
    EpisodeInfo(Normalise(g.seriesname), DigitsValue(g.season), DigitsValue(g.episode), g.extension)
  }

  /** `validate_episode_filename(filename, containing_directory)`: the file
      name is tried first, then the directory; no match at all is the
      `IdentificationError`, modelled as `None`. */
  function ValidateEpisodeFilename(filename: string, directory: string): (r: Option<EpisodeInfo>)
    ensures MatchEpisode(filename).Some? ==> r == Some(InfoOf(MatchEpisode(filename).value))
    ensures MatchEpisode(filename).None? && MatchEpisode(directory).Some? ==>
              r == Some(InfoOf(MatchEpisode(directory).value))
    ensures r.None? <==> MatchEpisode(filename).None? && MatchEpisode(directory).None?
    ensures r.Some? ==> |r.value.extension| > 0 && HasNo(r.value.extension, '.') && NoSeparator(r.value.seriesname)
  {
    match MatchEpisode(filename)
    case Some(g) => Some(InfoOf(g))
    case None =>
      match MatchEpisode(directory)
      case Some(g) => Some(InfoOf(g))
      case None => None
  }

  /** The file name `name_via_tvdb` builds:
      '{seriesname} - S{season:02d}E{episode:02d} - {episodename}.{extension}'. */
  function EpisodeFilename(series: string, season: nat, episode: nat, episodeName: string, extension: string): string {
    series + " - S" + Pad2(season) + "E" + Pad2(episode) + " - " + episodeName + "." + extension
  }

  /** The internal directory `name_via_tvdb` builds: '{seriesname}/Season {season}'. */
  function SeasonDirectory(series: string, season: nat): string {
    series + "/Season " + NatToString(season)
  }

  /** No 's' or 'S' in `x` is directly followed by a digit, so no match of
      the pattern can start inside `x`. */
  predicate NoMarkBeforeDigit(x: string) {
    forall q :: 0 <= q < |x| - 1 ==> !(IsSeasonMark(x[q]) && IsDigit(x[q + 1]))
  }

  /** What an episode name and extension must avoid for a built file name
      to be matched at the 'S' it was built with: the episode name must not
      hold a later match nor a newline (which `.` does not cross), and the
      extension must be the part after the last dot. */
  predicate PlainTail(episodeName: string, extension: string) {
    HasNo(episodeName, '\n') && NoMarkBeforeDigit(episodeName) &&
    |extension| > 0 && HasNo(extension, '.')
  }

  /** Where the parts of a built file name sit: the 'S' at `i`, the season
      digits up to the 'E' at `j`, the episode digits up to `k`, the tail up
      to the dot at `d`, and the extension after it. */
  lemma EpisodeFilenameSlices(h: string, pre: string, a: string, b: string, tail: string, extension: string,
                              i: nat, i1: nat, j: nat, j1: nat, k: nat, d: nat, d1: nat)
    requires h == pre + "S" + a + "E" + b + tail + "." + extension
    requires i == |pre| && i1 == i + 1 && j == i1 + |a| && j1 == j + 1 && k == j1 + |b| && d == k + |tail| && d1 == d + 1
    ensures d1 + |extension| == |h|
    ensures h[..i] == pre && h[i] == 'S' && h[i1..j] == a && h[j] == 'E'
    ensures h[j1..k] == b && h[k..d] == tail && h[d] == '.' && h[d1..] == extension
  {
  }

  /** The last dot of a string is the one after which no dot follows. */
  lemma LastDotAt(h: string, d: nat, d1: nat)
    requires d1 == d + 1 && d1 <= |h| && h[d] == '.' && HasNo(h[d1..], '.')
    ensures LastDot(h) == d
  {
    assert forall q :: d < q < |h| ==> h[q] == h[d1..][q - d1];
  }

  /** A string laid out as a built file name matches at `i`, with the
      groups at the expected places. */
  lemma MatchFromSlices(h: string, pre: string, a: string, b: string, tail: string, extension: string,
                        i: nat, i1: nat, j: nat, j1: nat, k: nat, d: nat, d1: nat)
    requires i1 == i + 1 && j == i1 + |a| && j1 == j + 1 && k == j1 + |b| && d == k + |tail| && d1 == d + 1
    requires d1 + |extension| == |h|
    requires h[..i] == pre && h[i] == 'S' && h[i1..j] == a && h[j] == 'E'
    requires h[j1..k] == b && h[k..d] == tail && h[d] == '.' && h[d1..] == extension
    requires HasNo(pre, '\n') && |a| > 0 && AllDigits(a) && |b| > 0 && AllDigits(b)
    requires |tail| > 0 && !IsDigit(tail[0]) && HasNo(tail, '\n')
    requires |extension| > 0 && HasNo(extension, '.')
    ensures EpisodeMatchAt(h, i) && GroupsAt(h, i) == Groups(pre, a, b, extension)
  {
    DigitRunOf(h, i1, j);
    assert h[k] == tail[0];
    DigitRunOf(h, j1, k);
    LastDotAt(h, d, d1);
  }

  /** A match needs a digit right after its 's' and ends before the last
      dot. */
  lemma MatchNeedsDigit(h: string, q: nat)
    ensures EpisodeMatchAt(h, q) ==>
              q + 1 < |h| && IsSeasonMark(h[q]) && IsDigit(h[q + 1]) && q < LastDot(h)
  {
    if EpisodeMatchAt(h, q) {
      var j := DigitRunEnd(h, q + 1);
      assert h[q + 1] == h[q + 1..j][0];
    }
  }

  /** No match starts right of the 'S' at `i` in a string laid out as a
      built file name. */
  lemma NoMatchAfter(h: string, a: string, b: string, tail: string, extension: string,
                     i: nat, i1: nat, j: nat, j1: nat, k: nat, d: nat, d1: nat)
    requires i1 == i + 1 && j == i1 + |a| && j1 == j + 1 && k == j1 + |b| && d == k + |tail| && d1 == d + 1
    requires d1 + |extension| == |h|
    requires h[i1..j] == a && h[j] == 'E' && h[j1..k] == b && h[k..d] == tail && h[d] == '.' && h[d1..] == extension
    requires AllDigits(a) && AllDigits(b) && NoMarkBeforeDigit(tail) && LastDot(h) == d
    ensures forall q :: i < q < |h| ==> !EpisodeMatchAt(h, q)
  {
    forall q | i < q < |h| ensures !EpisodeMatchAt(h, q) {
      MatchNeedsDigit(h, q);
      if q < j {
        assert h[q] == a[q - i1];
      } else if q == j {
      } else if q < k {
        assert h[q] == b[q - j1];
      } else if q < d {
        assert h[q] == tail[q - k];
        if q + 1 < d {
          assert h[q + 1] == tail[q + 1 - k];
        }
      }
    }
  }

  /** The file name `name_via_tvdb` builds, regrouped around its 'S'. */
  lemma EpisodeFilenameShape(series: string, a: string, b: string, episodeName: string, extension: string)
    ensures series + " - S" + a + "E" + b + " - " + episodeName + "." + extension ==
            (series + " - ") + "S" + a + "E" + b + (" - " + episodeName) + "." + extension
  {
  }

  /** The separator before the episode name cannot start a match. */
  lemma NoMarkBeforeDigitAfterGap(x: string)
    requires NoMarkBeforeDigit(x)
    ensures NoMarkBeforeDigit(" - " + x)
  {
    var y := " - " + x;
    forall q | 0 <= q < |y| - 1 ensures !(IsSeasonMark(y[q]) && IsDigit(y[q + 1])) {
      if q >= 3 {
        assert y[q] == x[q - 3] && y[q + 1] == x[q - 2];
      }
    }
  }

  /** A concatenation avoids a character both parts avoid. */
  lemma HasNoConcat(x: string, y: string, c: char)
    requires HasNo(x, c) && HasNo(y, c)
    ensures HasNo(x + y, c)
  {
    assert forall q :: |x| <= q < |x + y| ==> (x + y)[q] == y[q - |x|];
  }

  /** A built file name is matched at the 'S' right after the series name,
      with the padded numbers and the extension as groups. */
  lemma EpisodeFilenameMatches(series: string, season: nat, episode: nat, episodeName: string, extension: string)
    requires HasNo(series, '\n')
    requires PlainTail(episodeName, extension)
    ensures MatchEpisode(EpisodeFilename(series, season, episode, episodeName, extension)) ==
            Some(Groups(series + " - ", Pad2(season), Pad2(episode), extension))
  {
    var h := EpisodeFilename(series, season, episode, episodeName, extension);
    var pre, a, b, tail := series + " - ", Pad2(season), Pad2(episode), " - " + episodeName;
    EpisodeFilenameShape(series, a, b, episodeName, extension);
    assert HasNo(" - ", '\n');
    HasNoConcat(series, " - ", '\n');
    HasNoConcat(" - ", episodeName, '\n');
    NoMarkBeforeDigitAfterGap(episodeName);
    var i := |pre|;
    var i1 := i + 1;
    var j := i1 + |a|;
    var j1 := j + 1;
    var k := j1 + |b|;
    var d := k + |tail|;
    var d1 := d + 1;
    EpisodeFilenameSlices(h, pre, a, b, tail, extension, i, i1, j, j1, k, d, d1);
    MatchFromSlices(h, pre, a, b, tail, extension, i, i1, j, j1, k, d, d1);
    LastDotAt(h, d, d1);
    NoMatchAfter(h, a, b, tail, extension, i, i1, j, j1, k, d, d1);
    RightmostFrom(h, i, |h|);
  }

  lemma DigitRunOf(h: string, i: nat, j: nat)
    requires i <= j <= |h| && AllDigits(h[i..j]) && (j == |h| || !IsDigit(h[j]))
    ensures DigitRunEnd(h, i) == j
    decreases j - i
  {
    if i < j {
      assert h[i] == h[i..j][0];
      assert h[i + 1..j] == h[i..j][1..];
      DigitRunOf(h, i + 1, j);
    }
  }

  /** Nothing right of `i` starts a match, so the search stops at `i`. */
  lemma {:induction false} RightmostFrom(h: string, i: nat, n: nat)
    requires i < n <= |h| && EpisodeMatchAt(h, i)
    requires forall q :: i < q < |h| ==> !EpisodeMatchAt(h, q)
    ensures RightmostMatch(h, n) == Some(i)
    decreases n
  {
    if n - 1 > i {
      RightmostFrom(h, i, n - 1);
    }
  }

  /** Re-identifying a file name `name_via_tvdb` built gives back its season,
      episode and extension. */
  lemma EpisodeFilenameRoundTrip(series: string, season: nat, episode: nat, episodeName: string, extension: string, directory: string)
    requires HasNo(series, '\n')
    requires PlainTail(episodeName, extension)
    ensures var r := ValidateEpisodeFilename(EpisodeFilename(series, season, episode, episodeName, extension), directory);
            r == Some(EpisodeInfo(Normalise(series + " - "), season, episode, extension))
  {
    EpisodeFilenameMatches(series, season, episode, episodeName, extension);
    Pad2RoundTrip(season);
    Pad2RoundTrip(episode);
  }

  // ---------------------------------------------------------------------
  // get_tvdb_id and name_via_tvdb

  /** `tvdb_api.Tvdb()[name]`: the show's id, `tvdb_shownotfound`, or any
      other error of the library. */
  datatype ShowSearch = ShowFound(id: int) | ShowNotFound | ShowSearchFailed

  /** `show[season][episode]`: the episode's name, `tvdb_episodenotfound`,
      or `tvdb_seasonnotfound` (which nobody catches). */
  datatype EpisodeSearch = EpisodeFound(name: string) | EpisodeNotFound | SeasonNotFound

  /** The show database as seen from the program. `seriesName(id)` is
      `tvdb_api.Tvdb()[id].data['seriesname']`, `None` for a `tvdb_error`. */
  datatype ShowDatabase = ShowDatabase(
    search: string -> ShowSearch,
    seriesName: int -> Option<string>,
    episodeName: (int, nat, nat) -> EpisodeSearch)

  /** Outcome of `get_tvdb_id`: the id and the cache afterwards, the
      `IdentificationError` for an unknown show, or an uncaught error. */
  datatype IdLookup = Known(id: int, ids: map<string, int>) | Unknown | IdFailed(failure: Failure)

  /** `get_tvdb_id(seriesname)` against the cache `ids` (the YAML file, read
      on entry and written back on exit). */
  function GetTvdbId(name: string, ids: map<string, int>, search: string -> ShowSearch): (r: IdLookup)
    ensures name in ids ==> r == Known(ids[name], ids)
    ensures name !in ids ==> (r.Known? <==> search(name).ShowFound?)
    ensures name !in ids && r.Known? ==> r.id == search(name).id
    ensures r.Known? ==> r.ids == ids[name := r.id]
    ensures r.Unknown? <==> name !in ids && search(name).ShowNotFound?
    ensures r.IdFailed? ==> r.failure == LookupError(name)
  {
    if name in ids then Known(ids[name], ids)
    else
      match search(name)
      case ShowFound(id) => Known(id, ids[name := id])
      case ShowNotFound => Unknown
      case ShowSearchFailed => IdFailed(LookupError(name))
  }

  /** A name once looked up is answered from the cache from then on, whatever
      the database would say; existing entries are never changed. */
  lemma CacheHitAfterLookup(name: string, ids: map<string, int>, search: string -> ShowSearch, later: string -> ShowSearch)
    requires GetTvdbId(name, ids, search).Known?
    ensures var r := GetTvdbId(name, ids, search);
            GetTvdbId(name, r.ids, later) == Known(r.id, r.ids) &&
            (forall n :: n in ids ==> n in r.ids && r.ids[n] == ids[n])
  {
  }

  /** Outcome of `name_via_tvdb`: the new internal directory and file name,
      the `IdentificationError` the rename handler swallows, or an error it
      does not catch. The show-id cache is carried along in every case. */
  datatype Naming =
    | Named(internal: string, filename: string, ids: map<string, int>)
    | Unidentified(ids: map<string, int>)
    | NamingFailed(failure: Failure, ids: map<string, int>)

  /** `name_via_tvdb` once the episode details are known: the id lookup,
      the show's name and the episode's name, and the two new names. */
  function NameEpisode(info: EpisodeInfo, ids: map<string, int>, db: ShowDatabase): (r: Naming)
    ensures forall n :: n in ids ==> n in r.ids && r.ids[n] == ids[n]
    ensures GetTvdbId(info.seriesname, ids, db.search).Unknown? ==> r == Unidentified(ids)
    ensures r.NamingFailed? ==> r.failure == LookupError(info.seriesname)
    ensures GetTvdbId(info.seriesname, ids, db.search).IdFailed? ==> r.NamingFailed?
    ensures var lookup := GetTvdbId(info.seriesname, ids, db.search);
            (lookup.Known? && db.seriesName(lookup.id).Some? &&
             db.episodeName(lookup.id, info.season, info.episode).EpisodeFound?) ==> r.Named?
    ensures var lookup := GetTvdbId(info.seriesname, ids, db.search);
            (lookup.Known? && (db.seriesName(lookup.id).None? ||
                               db.episodeName(lookup.id, info.season, info.episode).EpisodeNotFound?)) ==>
              r == Unidentified(lookup.ids)
    ensures var lookup := GetTvdbId(info.seriesname, ids, db.search);
            (lookup.Known? && db.seriesName(lookup.id).Some? &&
             db.episodeName(lookup.id, info.season, info.episode).SeasonNotFound?) ==>
              r == NamingFailed(LookupError(info.seriesname), lookup.ids)
    ensures r.Named? ==>
              var lookup := GetTvdbId(info.seriesname, ids, db.search);
              lookup.Known? && r.ids == lookup.ids &&
              db.seriesName(lookup.id).Some? &&
              db.episodeName(lookup.id, info.season, info.episode).EpisodeFound? &&
              r.internal == SeasonDirectory(db.seriesName(lookup.id).value, info.season) &&
              r.filename == EpisodeFilename(db.seriesName(lookup.id).value, info.season, info.episode,
                                            db.episodeName(lookup.id, info.season, info.episode).name, info.extension)
  {
    match GetTvdbId(info.seriesname, ids, db.search)
    case Unknown => Unidentified(ids)
    case IdFailed(e) => NamingFailed(e, ids)
    case Known(id, ids') =>
      match db.seriesName(id)
      case None => Unidentified(ids')
      case Some(series) =>
        match db.episodeName(id, info.season, info.episode)
        case EpisodeNotFound => Unidentified(ids')
        case SeasonNotFound => NamingFailed(LookupError(info.seriesname), ids')
        case EpisodeFound(episodeName) =>
          Named(SeasonDirectory(series, info.season),
                EpisodeFilename(series, info.season, info.episode, episodeName, info.extension), ids')
  }

  /** `name_via_tvdb(fyle)`, given the file's name and source directory. A
      name that does not parse is the `IdentificationError` as well. */
  function NameViaTvdb(filename: string, directory: string, ids: map<string, int>, db: ShowDatabase): (r: Naming)
    ensures ValidateEpisodeFilename(filename, directory).None? ==> r == Unidentified(ids)
    ensures ValidateEpisodeFilename(filename, directory).Some? ==>
              r == NameEpisode(ValidateEpisodeFilename(filename, directory).value, ids, db)
    ensures forall n :: n in ids ==> n in r.ids && r.ids[n] == ids[n]
    ensures r.NamingFailed? ==> r.failure.LookupError?
  {
    match ValidateEpisodeFilename(filename, directory)
    case None => Unidentified(ids)
    case Some(info) => NameEpisode(info, ids, db)
  }

  /** A renamed episode can be identified again from its new name: the
      season, episode and extension survive, and the show name is the
      database's own name, normalised. */
  lemma NamedIsReidentifiable(filename: string, directory: string, ids: map<string, int>, db: ShowDatabase, otherDirectory: string)
    requires NameViaTvdb(filename, directory, ids, db).Named?
    requires var info := ValidateEpisodeFilename(filename, directory).value;
             var id := GetTvdbId(info.seriesname, ids, db.search).id;
             HasNo(db.seriesName(id).value, '\n') &&
             PlainTail(db.episodeName(id, info.season, info.episode).name, info.extension)
    ensures var info := ValidateEpisodeFilename(filename, directory).value;
            var id := GetTvdbId(info.seriesname, ids, db.search).id;
            var again := ValidateEpisodeFilename(NameViaTvdb(filename, directory, ids, db).filename, otherDirectory);
            again == Some(EpisodeInfo(Normalise(db.seriesName(id).value + " - "), info.season, info.episode, info.extension))
  {
    var info := ValidateEpisodeFilename(filename, directory).value;
    var id := GetTvdbId(info.seriesname, ids, db.search).id;
    EpisodeFilenameRoundTrip(db.seriesName(id).value, info.season, info.episode,
                             db.episodeName(id, info.season, info.episode).name, info.extension, otherDirectory);
  }
}
