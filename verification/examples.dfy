/** The behaviour of the script on concrete inputs, each an instance of a
    general property: how `split('.')` and `to_i` treat odd fields, which
    tags give which current version, and one whole patch release. */
module Examples {
  import opened Results
  import opened RubyInteger
  import opened RubySplit
  import opened TagPattern
  import opened Version
  import opened Deploy

  /** Empty fields at the front and in between are kept. */
  lemma SplitKeepsInnerEmpty()
    ensures RubySplitDot("1..2") == ["1", "", "2"]
    ensures RubySplitDot(".1.2") == ["", "1", "2"]
  {
    assert JoinDot(["1", "", "2"]) == "1..2";
    SplitDotOfJoin(["1", "", "2"]);
    assert JoinDot(["", "1", "2"]) == ".1.2";
    SplitDotOfJoin(["", "1", "2"]);
  }

  /** Text made only of dots has no fields. */
  lemma SplitOfDotsOnly()
    ensures RubySplitDot("...") == []
  {
    assert "..." == ".." + "." && ".." == "." + "." && "." == "" + ".";
    SplitDotIgnoresTrailingDot("..");
    SplitDotIgnoresTrailingDot(".");
    SplitDotIgnoresTrailingDot("");
    assert SplitAll("") == [""];
  }

  /** `to_i` keeps a minus sign and stops at the first character that cannot
      continue the number. */
  lemma ToIExamples()
    ensures RubyToI("-1") == -1
    ensures RubyToI("3-rc1") == 3
  {
    assert "-1" == "-" + "1" + "";
    ToIOfNegativeRun("1", "");
    assert "3-rc1" == "3" + "-rc1";
    ToIOfDigitRun("3", "-rc1");
  }

  /** Too few fields raise, and a trailing dot does not make a field. */
  lemma ParseTooFewFields()
    ensures Parse("1.2") == Failure(InvalidVersionFormat)
    ensures Parse("1.2.") == Failure(InvalidVersionFormat)
    ensures Message(Parse("1.2").error) == "Invalid version format"
  {
    assert "1.2" == "1" + "." + "2";
    assert "1.2." == "1" + "." + "2" + ".";
    ParseTwoFieldsFails("1", "2");
  }

  lemma ToIOne()
    ensures RubyToI("1") == 1
  {
    ToIOfDigitText('1');
  }

  lemma ToITwo()
    ensures RubyToI("2") == 2
  {
    ToIOfDigitText('2');
  }

  lemma ToIOfWord()
    ensures RubyToI("x") == 0
  {
    assert SpaceRunLength("x") == 0 && "x"[0..] == "x";
    assert LeadingDigits("x") == [];
    assert ReadSigned("x") == 0;
  }

  /** A non-numeric field reads as 0 rather than raising. */
  lemma ParseNonNumericField()
    ensures Parse("1.2.x") == Success(Semver(1, 2, 0))
  {
    assert "1.2.x" == "1" + "." + "2" + "." + "x";
    ParseThreeFields("1.2.x", "1", "2", "x");
    ToIOne();
    ToITwo();
    ToIOfWord();
  }

  /** Fields past the third are ignored. */
  lemma ParseExtraField()
    ensures Parse("1.2.3.4") == Success(Semver(1, 2, 3))
  {
    assert "1.2.3.4" == "1" + "." + "2" + "." + "3" + "." + "4";
    assert "1.2.3" == "1" + "." + "2" + "." + "3";
    ParseIgnoresRest("1", "2", "3", "4");
    assert Render(Semver(1, 2, 3)) == "1.2.3";
    ParsesRendered("1.2.3", Semver(1, 2, 3));
  }

  lemma RenderedTags()
    ensures Render(Semver(1, 4, 2)) == "1.4.2"
    ensures "v" + Render(Semver(1, 2, 3)) == "v1.2.3"
    ensures "release-" + Render(Semver(2, 4, 1)) == "release-2.4.1"
  {
  }

  /** A plain tag selects the version it names. */
  lemma LatestPlainTag()
    ensures Latest("1.4.2") == Success(Semver(1, 4, 2))
  {
    RenderedTags();
    LatestOfRendered(Semver(1, 4, 2));
  }

  /** A tag with a match is parsed whole: a prefix before the matched part
      is read into the major field instead of being skipped. */
  lemma LatestPrefixedTag()
    ensures Latest("v1.2.3") == Success(Semver(0, 2, 3))
  {
    RenderedTags();
    LatestReadsPrefixIntoMajor("v", Semver(1, 2, 3));
  }

  lemma LatestReleaseTag()
    ensures Latest("release-2.4.1") == Success(Semver(0, 4, 1))
  {
    RenderedTags();
    LatestReadsPrefixIntoMajor("release-", Semver(2, 4, 1));
  }

  /** Without a match, including when there is no tag at all, the default
      0.0.0 is used. */
  lemma LatestWithoutMatch()
    ensures Latest("v1.2") == Success(Semver(0, 0, 0))
    ensures Latest("") == Success(Semver(0, 0, 0))
  {
    assert "v1.2" == "v1" + "." + "2";
    ParseTwoFieldsFails("v1", "2");
    if HasVersionSubstring("v1.2") {
      MatchGivesThreeFields("v1.2");
    }
  }

  /** A patch release from tag 1.4.2 is version 1.4.3, rendered "1.4.3". */
  lemma PatchRelease()
    ensures NextVersion("1.4.2", "patch") == Success(Semver(1, 4, 3))
  {
    LatestPlainTag();
    assert ComponentName(Patch) == "patch";
  }

  lemma RenderPatchRelease()
    ensures Render(Semver(1, 4, 3)) == "1.4.3"
  {
  }

  /** An unknown component is refused, whatever the tag. */
  lemma {:induction false} UnknownComponent(tag: string)
    ensures NextVersion(tag, "build") == Failure(InvalidComponent)
    ensures Message(NextVersion(tag, "build").error) == "Invalid component"
  {
    var name := "build";
    assert name[0] == 'b';
    assert forall c :: ComponentName(c)[0] != 'b';
    assert forall c :: ComponentName(c) != name;
  }
}
