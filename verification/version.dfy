/** The `Semver` class of scripts/deploy.rb as an immutable value: parsing
    from text, the three bumps (which return a new value where the script
    mutates the receiver), rendering, and the choice of the current version
    from the latest tag. */
module Version {
  import opened Results
  import opened RubyInteger
  import opened RubySplit
  import opened TagPattern

  /** A version triple. Components are unbounded integers and may be negative:
      `to_i` of a field such as "-1" yields one. */
  datatype Semver = Semver(major: int, minor: int, patch: int)

  /** The two `raise` sites of the script. */
  datatype Error = InvalidVersionFormat | InvalidComponent

  /** The text each `raise` passes. */
  function Message(e: Error): string {
    match e
    case InvalidVersionFormat => "Invalid version format"
    case InvalidComponent => "Invalid component"
  }

  /** The default argument of `Semver.new`. */
  const DefaultVersionText: string := "0.0.0"

  /** `Semver.new(version:)`: split on dots, convert the first three fields
      with `to_i`, and raise when fewer than three fields are left. Field
      contents never cause a failure and fields past the third are ignored;
      in terms of the raw fields between dots, parsing fails exactly when no
      field from the third on is non-empty. */
  function Parse(version: string): (r: Result<Semver, Error>)
    ensures r.Failure? <==> forall k :: 2 <= k < |SplitAll(version)| ==> SplitAll(version)[k] == ""
    ensures r.Failure? ==> r.error == InvalidVersionFormat
    ensures r.Success? ==>
      (|SplitAll(version)| >= 3 &&
       r.value == Semver(RubyToI(SplitAll(version)[0]), RubyToI(SplitAll(version)[1]), RubyToI(SplitAll(version)[2])))
  {
    var fields := RubySplitDot(version);
    if |fields| < 3 then Failure(InvalidVersionFormat)
    else
      assert SplitAll(version)[|fields| - 1] != "";
      Success(Semver(RubyToI(fields[0]), RubyToI(fields[1]), RubyToI(fields[2])))
  }

  /** `Semver#to_s`: the components' `Integer#to_s` texts joined by dots. */
  function Render(v: Semver): (r: string)
    ensures r == JoinDot([IntToString(v.major), IntToString(v.minor), IntToString(v.patch)])
  {
    var fs := [IntToString(v.major), IntToString(v.minor), IntToString(v.patch)];
    assert fs[1..][1..] == [fs[2]];
    assert JoinDot(fs[1..]) == fs[1] + "." + fs[2];
    fs[0] + "." + fs[1] + "." + fs[2]
  }

  /** Strict lexicographic order on (major, minor, patch). */
  predicate Precedes(a: Semver, b: Semver) {
    a.major < b.major ||
    (a.major == b.major && (a.minor < b.minor || (a.minor == b.minor && a.patch < b.patch)))
  }

  predicate AtMost(a: Semver, b: Semver) {
    a == b || Precedes(a, b)
  }

  /** `bump_major`: the least version with a greater major and non-negative
      minor and patch. */
  function BumpMajor(v: Semver): (r: Semver)
    ensures Precedes(v, r)
    ensures r.major > v.major && r.minor >= 0 && r.patch >= 0
    ensures forall w: Semver :: w.major > v.major && w.minor >= 0 && w.patch >= 0 ==> AtMost(r, w)
  {
    Semver(v.major + 1, 0, 0)
  }

  /** `bump_minor`: the least version with the same major, a greater minor and
      a non-negative patch. */
  function BumpMinor(v: Semver): (r: Semver)
    ensures Precedes(v, r)
    ensures r.major == v.major && r.minor > v.minor && r.patch >= 0
    ensures forall w: Semver :: w.major == v.major && w.minor > v.minor && w.patch >= 0 ==> AtMost(r, w)
  {
    Semver(v.major, v.minor + 1, 0)
  }

  /** `bump_patch`: the immediate successor; major and minor are kept. */
  function BumpPatch(v: Semver): (r: Semver)
    ensures Precedes(v, r)
    ensures r.major == v.major && r.minor == v.minor
    ensures forall w: Semver :: Precedes(v, w) ==> AtMost(r, w)
  {
    Semver(v.major, v.minor, v.patch + 1)
  }

  /** `Semver.latest`, given the already stripped output of the tag query. The
      pattern is only a guard: the whole tag is parsed, not the matched part.
      It never raises, because a tag with a match has at least three fields. */
  function Latest(tag: string): (r: Result<Semver, Error>)
    ensures r.Success?
    ensures !HasVersionSubstring(tag) ==> r.value == Semver(0, 0, 0)
    ensures HasVersionSubstring(tag) ==> r == Parse(tag)
  {
    if MatchesVersionPattern(tag) then
      MatchGivesThreeFields(tag);
      Parse(tag)
    else
      DefaultParses();
      Parse(DefaultVersionText)
  }

  /** The default text is what `to_s` renders for 0.0.0, so it parses. */
  lemma DefaultParses()
    ensures Parse(DefaultVersionText) == Success(Semver(0, 0, 0))
  {
    var zero := Semver(0, 0, 0);
    assert Render(zero) == DefaultVersionText;
    ParsesRendered(DefaultVersionText, zero);
  }

  lemma {:induction false} ParsesRendered(s: string, v: Semver)
    requires s == Render(v)
    ensures Parse(s) == Success(v)
  {
    RenderRoundTrip(v);
  }

  /** Parsing what `to_s` rendered gives the version back, for every version,
      negative components included. */
  lemma {:induction false} RenderRoundTrip(v: Semver)
    ensures Parse(Render(v)) == Success(v)
  {
    var fs := [IntToString(v.major), IntToString(v.minor), IntToString(v.patch)];
    forall k | 0 <= k < 3
      ensures '.' !in fs[k]
    {
      NumeralHasNoDot(if k == 0 then v.major else if k == 1 then v.minor else v.patch);
    }
    SplitJoinRoundTrip(fs);
    ToIReadsRendered(v.major, "");
    ToIReadsRendered(v.minor, "");
    ToIReadsRendered(v.patch, "");
    assert fs[0] + "" == fs[0] && fs[1] + "" == fs[1] && fs[2] + "" == fs[2];
  }

  lemma {:induction false} NumeralHasNoDot(i: int)
    ensures '.' !in IntToString(i)
  {
    var m := NatToString(if i < 0 then -i else i);
    assert forall k :: 0 <= k < |m| ==> m[k] != '.';
  }

  /** Three canonical decimal numerals joined by dots parse to a version
      whose rendering is the same text. */
  lemma {:induction false} CanonicalRoundTrip(x: string, y: string, z: string)
    requires IsNumeral(x) && IsNumeral(y) && IsNumeral(z)
    ensures Parse(x + "." + y + "." + z).Success?
    ensures Render(Parse(x + "." + y + "." + z).value) == x + "." + y + "." + z
  {
    NumeralRoundTrip(x);
    NumeralRoundTrip(y);
    NumeralRoundTrip(z);
    var v := Semver(DigitsValue(x), DigitsValue(y), DigitsValue(z));
    assert Render(v) == x + "." + y + "." + z;
    RenderRoundTrip(v);
  }

  lemma {:induction false} SplitThree(x: string, y: string, z: string, rest: string)
    requires '.' !in x && '.' !in y && '.' !in z
    ensures SplitAll(x + "." + y + "." + z) == [x, y, z]
    ensures SplitAll(x + "." + y + "." + z + "." + rest) == [x, y, z] + SplitAll(rest)
  {
    assert SplitAll(x) == [x] && SplitAll(y) == [y] && SplitAll(z) == [z];
    SplitAllAtDot(x, y);
    SplitAllAtDot(x + "." + y, z);
    SplitAllAtDot(x + "." + y + "." + z, rest);
  }

  /** Three dot-free fields, the last not empty, parse to their `to_i`
      values, whatever their text. */
  lemma {:induction false} ParseThreeFields(s: string, x: string, y: string, z: string)
    requires '.' !in x && '.' !in y && '.' !in z && z != []
    requires s == x + "." + y + "." + z
    ensures Parse(s) == Success(Semver(RubyToI(x), RubyToI(y), RubyToI(z)))
  {
    SplitThree(x, y, z, "");
    var raw := SplitAll(s);
    assert raw == [x, y, z];
    assert raw[2] != "";
    assert Parse(s).Success?;
  }

  /** Whatever follows a non-empty third field and a dot is ignored. */
  lemma {:induction false} ParseIgnoresRest(x: string, y: string, z: string, rest: string)
    requires '.' !in x && '.' !in y && '.' !in z && z != []
    ensures Parse(x + "." + y + "." + z + "." + rest) == Parse(x + "." + y + "." + z)
  {
    SplitThree(x, y, z, rest);
    var raw := SplitAll(x + "." + y + "." + z + "." + rest);
    assert raw[0] == x && raw[1] == y && raw[2] == z;
  }

  /** Two dot-free fields are too few, with or without a trailing dot. */
  lemma {:induction false} ParseTwoFieldsFails(x: string, y: string)
    requires '.' !in x && '.' !in y
    ensures Parse(x + "." + y) == Failure(InvalidVersionFormat)
    ensures Parse(x + "." + y + ".") == Failure(InvalidVersionFormat)
  {
    SplitAllAtDot(x, y);
    assert SplitAll(x) == [x] && SplitAll(y) == [y];
    SplitDotIgnoresTrailingDot(x + "." + y);
  }

  /** A rendered version with non-negative components contains a match. */
  lemma {:induction false} RenderedHasMatch(p: string, v: Semver)
    requires v.major >= 0 && v.minor >= 0 && v.patch >= 0
    ensures HasVersionSubstring(p + Render(v))
  {
    var x, y, z := NatToString(v.major), NatToString(v.minor), NatToString(v.patch);
    assert Render(v) == x + "." + y + "." + z;
    assert p + Render(v) == p + x + "." + y + "." + z;
    DottedDigitsMatch(p, x, y, z);
  }

  /** Three digit runs joined by dots are a match, whatever comes before. */
  lemma {:induction false} DottedDigitsMatch(p: string, x: string, y: string, z: string)
    requires |x| > 0 && |y| > 0 && |z| > 0
    requires AllDigits(x) && AllDigits(y) && AllDigits(z)
    ensures HasVersionSubstring(p + x + "." + y + "." + z)
  {
    var s := p + x + "." + y + "." + z;
    var b := |p| + |x|;
    var c := b + 1 + |y|;
    assert s[|p|..b] == x;
    assert s[b + 1..c] == y;
    assert s[c + 1..] == z;
    assert MatchAt(s, |p|, b, c, |s|);
  }

  /** A tag that is a rendered version with non-negative components selects
      that version. */
  lemma {:induction false} LatestOfRendered(v: Semver)
    requires v.major >= 0 && v.minor >= 0 && v.patch >= 0
    ensures Latest(Render(v)) == Success(v)
  {
    RenderedHasMatch("", v);
    assert "" + Render(v) == Render(v);
    RenderRoundTrip(v);
  }

  /** A tag made of a prefix that does not start a number, followed by a
      rendered version, is parsed whole: the prefix and the version's major
      form one field, which `to_i` reads as 0. */
  lemma {:induction false} LatestReadsPrefixIntoMajor(p: string, v: Semver)
    requires v.major >= 0 && v.minor >= 0 && v.patch >= 0
    requires p != [] && '.' !in p && !IsSpace(p[0]) && !IsDigit(p[0]) && p[0] != '-' && p[0] != '+'
    ensures Latest(p + Render(v)) == Success(Semver(0, v.minor, v.patch))
  {
    RenderedHasMatch(p, v);
    ParsePrefixed(p, v);
  }

  lemma {:induction false} ParsePrefixed(p: string, v: Semver)
    requires p != [] && '.' !in p && !IsSpace(p[0]) && !IsDigit(p[0]) && p[0] != '-' && p[0] != '+'
    ensures Parse(p + Render(v)) == Success(Semver(0, v.minor, v.patch))
  {
    var x, y, z := IntToString(v.major), IntToString(v.minor), IntToString(v.patch);
    NumeralHasNoDot(v.major);
    NumeralHasNoDot(v.minor);
    NumeralHasNoDot(v.patch);
    assert '.' !in p + x;
    assert Render(v) == x + "." + y + "." + z;
    assert p + Render(v) == (p + x) + "." + y + "." + z;
    ParseThreeFields(p + Render(v), p + x, y, z);
    assert (p + x)[0] == p[0];
    ToIReadsRendered(v.minor, "");
    ToIReadsRendered(v.patch, "");
    assert y + "" == y && z + "" == z;
  }
}
