/** The fixed regular expressions of the program, hand-coded as string
    predicates. All registered patterns are compiled with `re.IGNORECASE`
    and used with `search`, so they may match anywhere in the source path;
    in each, the alternation binds looser than the anchors and the escapes,
    so only the last alternative is tied to the end of the path. */
module Patterns {

  import opened Text

  /** The patterns the program registers with `handler`. */
  datatype Pattern =
    | ArchivePattern   // r'\.([rR][aA][rR])|([rR]\d\d)$'
    | VideoPattern     // r'\.(mkv)|(avi)|(mp4)$'
    | AnyPattern       // r'.*'

  /** `lit` (lower case) occurs at position `i` of `s`, ignoring case. */
  predicate MatchesAt(s: string, i: nat, lit: string)
    requires i + |lit| <= |s|
  {
    forall k :: 0 <= k < |lit| ==> ToLower(s[i + k]) == lit[k]
  }

  predicate Contains(s: string, lit: string) {
    exists i: nat :: i + |lit| <= |s| && MatchesAt(s, i, lit)
  }

  /** `lit` (ignoring case) ends at position `n`. */
  predicate EndsAt(s: string, n: nat, lit: string)
    requires n <= |s|
  {
    |lit| <= n && MatchesAt(s, n - |lit|, lit)
  }

  /** Whether `$` may match at position `n`: at the very end, or right
      before a newline that closes the string. */
  predicate DollarAt(s: string, n: nat) {
    n == |s| || (n + 1 == |s| && s[n] == '\n')
  }

  /** `lit$`, ignoring case. */
  predicate EndsWith(s: string, lit: string) {
    EndsAt(s, |s|, lit) || (|s| > 0 && DollarAt(s, |s| - 1) && EndsAt(s, |s| - 1, lit))
  }

  /** `[rR]\d\d` ending at position `n`. */
  predicate VolumeNumberAt(s: string, n: nat)
    requires n <= |s|
  {
    n >= 3 && ToLower(s[n - 3]) == 'r' && IsDigit(s[n - 2]) && IsDigit(s[n - 1])
  }

  /** `[rR]\d\d$`. */
  predicate EndsWithVolumeNumber(s: string) {
    VolumeNumberAt(s, |s|) || (|s| > 0 && DollarAt(s, |s| - 1) && VolumeNumberAt(s, |s| - 1))
  }

  /** `re.search(pattern, s, re.IGNORECASE)` is truthy. */
  predicate Search(p: Pattern, s: string) {
    match p
    case ArchivePattern => Contains(s, ".rar") || EndsWithVolumeNumber(s)
    case VideoPattern => Contains(s, ".mkv") || Contains(s, "avi") || EndsWith(s, "mp4")
    case AnyPattern => true
  }

  /** `re.search(r'\.[Rr]\d\d$', s)`: a split-volume name such as
      'x.r00' (case-sensitive, but the class admits both cases of 'r'). */
  predicate IsSplitVolume(s: string) {
    (|s| >= 4 && s[|s| - 4] == '.' && VolumeNumberAt(s, |s|)) ||
    (|s| >= 5 && DollarAt(s, |s| - 1) && s[|s| - 5] == '.' && VolumeNumberAt(s, |s| - 1))
  }

  /** Every split volume is routed by the archive pattern. */
  lemma SplitVolumeIsArchive(s: string)
    requires IsSplitVolume(s)
    ensures Search(ArchivePattern, s)
  {
  }

  /** The video pattern matches 'avi' anywhere, so a name like
      'David.txt' is a video, and '.mkv' anywhere, even before another
      extension. */
  lemma VideoPatternQuirks()
    ensures Search(VideoPattern, "David.txt")
    ensures Search(VideoPattern, "Show.S01E01.MKV.nfo")
  {
    assert MatchesAt("David.txt", 1, "avi");
    assert MatchesAt("Show.S01E01.MKV.nfo", 11, ".mkv");
  }

  /** The archive pattern's second alternative needs no dot: any name that
      ends in 'r' and two digits is routed to the archive handler. */
  lemma ArchivePatternQuirk()
    ensures Search(ArchivePattern, "Chapter01")
    ensures !IsSplitVolume("Chapter01")
  {
  }

  /** `$` also matches before a final newline, so a name ending in a
      newline after the volume number is still a split volume. */
  lemma DollarBeforeNewline()
    ensures IsSplitVolume("a.r01\n") && !IsSplitVolume("a.r01\n\n")
    ensures Search(VideoPattern, "a.MP4\n")
  {
  }
}
