/** The guard `Semver.latest` applies to a tag: Ruby's unanchored
    `match?(/\d+\.\d+\.\d+/)`, i.e. whether some substring of the tag is three
    non-empty runs of ASCII digits separated by single dots. */
module TagPattern {
  import opened RubyInteger
  import opened RubySplit

  /** `s[a..d]` is a match of the pattern, with its two dots at `b` and `c`. */
  ghost predicate MatchAt(s: string, a: int, b: int, c: int, d: int) {
    0 <= a < b && b + 1 < c && c + 1 < d <= |s| &&
    AllDigits(s[a..b]) && s[b] == '.' &&
    AllDigits(s[b + 1..c]) && s[c] == '.' &&
    AllDigits(s[c + 1..d])
  }

  /** The meaning of the regular expression: some substring matches it. */
  ghost predicate HasVersionSubstring(s: string) {
    exists a, b, c, d :: MatchAt(s, a, b, c, d)
  }

  /** Index just past the run of digits that starts at `i`. */
  function DigitRunEnd(s: string, i: nat): (j: nat)
    requires i <= |s|
    ensures i <= j <= |s| && AllDigits(s[i..j])
    ensures j == |s| || !IsDigit(s[j])
    ensures i < |s| && IsDigit(s[i]) ==> i < j
  {
    var d := LeadingDigits(s[i..]);
    assert s[i..i + |d|] == d;
    i + |d|
  }

  /** A match starts at `i`. Digits and dots never overlap, so each `\d+` can
      be taken as the whole digit run and no backtracking is needed. */
  predicate MatchStartsAt(s: string, i: nat) {
    i < |s| && IsDigit(s[i]) &&
    var b := DigitRunEnd(s, i);
    b + 1 < |s| && s[b] == '.' && IsDigit(s[b + 1]) &&
    var c := DigitRunEnd(s, b + 1);
    c + 1 < |s| && s[c] == '.' && IsDigit(s[c + 1])
  }

  /** `s.match?(/\d+\.\d+\.\d+/)`, decided by scanning for a start position. */
  function MatchesVersionPattern(s: string): (b: bool)
    ensures b <==> HasVersionSubstring(s)
  {
    MatcherCorrect(s);
    exists i :: 0 <= i < |s| && MatchStartsAt(s, i)
  }

  /** A maximal run of digits from `i` to `j` is what `DigitRunEnd` finds. */
  lemma {:induction false} RunEndsAt(s: string, i: nat, j: nat)
    requires i <= j <= |s| && AllDigits(s[i..j])
    requires j == |s| || !IsDigit(s[j])
    ensures DigitRunEnd(s, i) == j
  {
    assert s[i..] == s[i..j] + s[j..];
    LeadingDigitsStopsAt(s[i..j], s[j..]);
  }

  /** A start position the scan accepts is the start of a match. */
  lemma {:induction false} ScannedIsMatch(s: string, i: nat)
    requires MatchStartsAt(s, i)
    ensures MatchAt(s, i, DigitRunEnd(s, i), DigitRunEnd(s, DigitRunEnd(s, i) + 1), DigitRunEnd(s, DigitRunEnd(s, i) + 1) + 2)
  {
    var c := DigitRunEnd(s, DigitRunEnd(s, i) + 1);
    assert AllDigits(s[c + 1..c + 2]) by {
      assert s[c + 1..c + 2] == [s[c + 1]];
    }
  }

  /** The scan accepts the start of every match. */
  lemma {:induction false} MatchIsScanned(s: string, a: int, b: int, c: int, d: int)
    requires MatchAt(s, a, b, c, d)
    ensures MatchStartsAt(s, a)
  {
    assert s[a..b][0] == s[a];
    RunEndsAt(s, a, b);
    assert s[b + 1..c][0] == s[b + 1];
    RunEndsAt(s, b + 1, c);
    assert s[c + 1..d][0] == s[c + 1];
  }

  /** The scan agrees with the regular expression's meaning, in both directions. */
  lemma {:induction false} MatcherCorrect(s: string)
    ensures (exists i :: 0 <= i < |s| && MatchStartsAt(s, i)) <==> HasVersionSubstring(s)
  {
    if i :| 0 <= i < |s| && MatchStartsAt(s, i) {
      ScannedIsMatch(s, i);
    }
    if HasVersionSubstring(s) {
      var a, b, c, d :| MatchAt(s, a, b, c, d);
      MatchIsScanned(s, a, b, c, d);
    }
  }

  /** A tag that contains a match splits into at least three fields: the
      digits after the match's second dot start a non-empty field that is
      not dropped as trailing, and two dots come before it. */
  lemma {:induction false} MatchGivesThreeFields(s: string)
    requires HasVersionSubstring(s)
    ensures |RubySplitDot(s)| >= 3
  {
    var a, b, c, d :| MatchAt(s, a, b, c, d);
    ThreeFieldsAt(s, b, c);
  }

  /** Two dots followed by a character that is not a dot give three fields. */
  lemma {:induction false} ThreeFieldsAt(s: string, b: nat, c: nat)
    requires b < c && c + 1 < |s| && s[b] == '.' && s[c] == '.' && s[c + 1] != '.'
    ensures |RubySplitDot(s)| >= 3
  {
    var x, y, z := s[..b], s[b + 1..c], s[c + 1..];
    assert s == x + "." + (y + "." + z);
    SplitAllAtDot(x, y + "." + z);
    SplitAllAtDot(y, z);
    var k := |SplitAll(x)| + |SplitAll(y)|;
    assert SplitAll(s) == SplitAll(x) + SplitAll(y) + SplitAll(z);
    assert SplitAll(s)[k] == SplitAll(z)[0];
    FirstFieldNonEmpty(z);
    NonEmptyFieldKept(s, k);
  }
}
