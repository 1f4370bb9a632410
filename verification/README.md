# Semver core of the xcodes release script

A Dafny model of the version logic in `scripts/deploy.rb`, the script that
bumps the project's version and prepares a Homebrew formula update. The
model covers:

- the `Semver` class: construction from text (`split('.')` followed by
  `to_i` on each field, and a raise when fewer than three fields remain),
  `bump_major`, `bump_minor`, `bump_patch`, `to_s`, and `Semver.latest`;
- the `case component` dispatch that turns the `--component` option into
  one bump or raises "Invalid component";
- the lookup of the formula's tap among the installed taps (`find` by name).

Ruby's in-place mutation is modelled by pure functions that return the new
`Semver`, and `raise` is modelled by a `Result` value. Ruby's `Integer` is
arbitrary-precision, so Dafny's `int` models it exactly and nothing wraps.

The library behaviour the parser depends on is modelled explicitly:

- `RubySplit.RubySplitDot` is `String#split('.')`: cut at every dot, drop the
  trailing empty fields, keep empty fields at the front and in between.
- `RubyInteger.RubyToI` is `String#to_i`: skip leading whitespace, read an
  optional sign and the longest run of ASCII digits, and return 0 when there
  is none. It never fails.
- `RubyInteger.IntToString` is `Integer#to_s`.
- `TagPattern.MatchesVersionPattern` is the unanchored `match?(/\d+\.\d+\.\d+/)`.

Files, one module each: `results.dfy` (Option and Result), `ruby_integer.dfy`,
`ruby_split.dfy`, `tag_pattern.dfy`, `version.dfy` (the `Semver` class),
`deploy.dfy` (dispatch and tap lookup), `examples.dfy` (concrete inputs).

The model follows the code, which behaves differently from an idealised semantic-version parser:

- A field that is not a number is not rejected: `to_i` reads it as 0, so
  `"1.2.x"` parses to 1.2.0 instead of failing.
- `latest` uses the pattern only as a guard and then parses the whole tag,
  not the matched part. So `"v1.2.3"` gives 0.2.3 and `"release-2.4.1"`
  gives 0.4.1, not 1.2.3 and 2.4.1.
- More than three fields are accepted and the extra ones are ignored, so `"1.2.3.4"` parses to 1.2.3.
- Components can be negative: `"-1.2.3"` parses to (-1, 2, 3).

## Model

| member | source | states |
|---|---|---|
| RubyInteger.RubyToI | scripts/deploy.rb:43 | `to_i` is 0 for empty text and for text whose first character is not whitespace, a sign or a digit; it is non-negative when the text starts with a digit |
| RubyInteger.ToIOfSignedRun | scripts/deploy.rb:43 | `to_i` of leading whitespace, no sign or one `+` or `-`, a digit run and text that does not continue the run is the run's value, negated exactly when the sign is `-` |
| RubyInteger.ToIWithoutDigits | scripts/deploy.rb:43 | `to_i` is 0 when no digit follows the leading whitespace and the optional sign, as for `"-x"`, `" +"` or `"v1"` |
| RubyInteger.ToIReadsRendered | scripts/deploy.rb:43 | `to_i` of the text `Integer#to_s` writes for any integer, negative ones included, followed by any text that does not start with a digit, is that integer |
| RubyInteger.ToIOfDigitRun | scripts/deploy.rb:43 | `to_i` of a digit run followed by non-digit text is the run's value, so the text after the number is ignored |
| RubyInteger.ToIOfNegativeRun | scripts/deploy.rb:43 | `to_i` of a minus sign, a digit run and non-digit text is the negated value of the run |
| RubyInteger.NatToString | scripts/deploy.rb:75 | the decimal text of `n` is a canonical numeral (no leading zero) that denotes `n` |
| RubyInteger.NumeralRoundTrip | scripts/deploy.rb:75 | every canonical numeral is exactly the text `to_s` writes for its value |
| RubyInteger.IntToString | scripts/deploy.rb:75 | `Integer#to_s` as used by the interpolation: the text is never empty and starts with a minus sign exactly when the integer is negative |
| RubyInteger.IntToStringDenotes | scripts/deploy.rb:75 | the text of a non-negative integer is a canonical numeral denoting it; the text of a negative one is a minus sign and the canonical numeral of its magnitude |
| RubySplit.SplitAll | scripts/deploy.rb:43 | the fields between dots contain no dot, there is at least one, and joining them with dots gives the text back |
| RubySplit.SplitJoinRoundTrip | scripts/deploy.rb:43 | cutting at dots gives back any non-empty list of dot-free fields that were joined with dots |
| RubySplit.SplitAllAtDot | scripts/deploy.rb:43 | splitting `x + "." + y` gives the fields of `x` followed by the fields of `y` |
| RubySplit.RubySplitDot | scripts/deploy.rb:43 | `split('.')` is the list of raw fields up to the last non-empty one; every raw field after it is empty |
| RubySplit.SplitDotOfJoin | scripts/deploy.rb:43 | `split('.')` gives back dot-free fields whose last field is not empty, keeping empty fields at the front and in between |
| RubySplit.SplitDotIgnoresTrailingDot | scripts/deploy.rb:43 | a trailing dot never changes the result of `split('.')` |
| TagPattern.MatchesVersionPattern | scripts/deploy.rb:67 | `match?(/\d+\.\d+\.\d+/)` holds exactly when some substring of the tag is digits, a dot, digits, a dot and digits |
| TagPattern.MatcherCorrect | scripts/deploy.rb:67 | some start position passes the scan exactly when some substring is digits, a dot, digits, a dot and digits, proved in both directions |
| TagPattern.MatchGivesThreeFields | scripts/deploy.rb:67-68 | a tag that contains such a substring splits into at least three fields |
| Version.Parse | scripts/deploy.rb:42-45 | fails with "Invalid version format" exactly when no raw field from the third on is non-empty; otherwise the components are the `to_i` of the first three raw fields, and later fields are ignored |
| Version.ParseThreeFields | scripts/deploy.rb:43-44 | three dot-free fields with a non-empty last field always parse, to the `to_i` of each field, whatever their text |
| Version.ParseIgnoresRest | scripts/deploy.rb:43 | anything after a non-empty third field and a dot does not change the parse |
| Version.ParseTwoFieldsFails | scripts/deploy.rb:43-44 | two fields are too few, with or without a trailing dot |
| Version.DefaultParses | scripts/deploy.rb:42 | the default text "0.0.0" parses to (0, 0, 0) |
| Version.Render | scripts/deploy.rb:74-76 | `to_s` is the three components' `Integer#to_s` texts joined by dots, the same join that `split('.')` undoes |
| Version.RenderRoundTrip | scripts/deploy.rb:74-76 | parsing the text of `to_s` gives the version back, for every version, negative components included |
| Version.CanonicalRoundTrip | scripts/deploy.rb:43-44 | three canonical numerals joined by dots parse to a version whose `to_s` is the same text |
| Version.BumpMajor | scripts/deploy.rb:47-52 | the result comes strictly after the input and is the least version whose major is greater and whose minor and patch are non-negative, which is (M+1, 0, 0) |
| Version.BumpMinor | scripts/deploy.rb:54-58 | the result keeps the major, comes strictly after the input, and is the least version with that major, a greater minor and a non-negative patch, which is (M, m+1, 0) |
| Version.BumpPatch | scripts/deploy.rb:60-63 | the result keeps major and minor and is the immediate successor: nothing lies strictly between the input and it |
| Version.Latest | scripts/deploy.rb:65-72 | never raises; is 0.0.0 when no substring of the tag matches the pattern; otherwise is the parse of the whole tag |
| Version.LatestOfRendered | scripts/deploy.rb:65-71 | a tag that is the text of a version with non-negative components selects that version |
| Version.LatestReadsPrefixIntoMajor | scripts/deploy.rb:66-69 | a prefix that does not start a number, put before a rendered version, joins the major field, and the major becomes 0 |
| Deploy.SelectBump | scripts/deploy.rb:80-89 | succeeds exactly for "major", "minor" and "patch" and then applies that component's bump; any other text fails with "Invalid component" |
| Deploy.NextVersion | scripts/deploy.rb:79-89 | fails exactly when the component name is invalid, whatever the tag; otherwise it is the named bump of `latest` |
| Deploy.FindTap | scripts/deploy.rb:104 | returns nothing exactly when no installed tap has the name; otherwise returns the first tap with that name |
| Examples.SplitKeepsInnerEmpty | scripts/deploy.rb:43 | `"1..2"` splits to `["1", "", "2"]` and `".1.2"` to `["", "1", "2"]` |
| Examples.SplitOfDotsOnly | scripts/deploy.rb:43 | `"..."` splits to no fields |
| Examples.ToIExamples | scripts/deploy.rb:43 | `"-1"` reads as -1 and `"3-rc1"` as 3 |
| Examples.ParseTooFewFields | scripts/deploy.rb:43-44 | `"1.2"` and `"1.2."` fail with the error whose message is "Invalid version format" |
| Examples.ParseNonNumericField | scripts/deploy.rb:43-44 | `"1.2.x"` parses to 1.2.0 |
| Examples.ParseExtraField | scripts/deploy.rb:43 | `"1.2.3.4"` parses to 1.2.3 |
| Examples.LatestPlainTag | scripts/deploy.rb:65-69 | tag `"1.4.2"` gives 1.4.2 |
| Examples.LatestPrefixedTag | scripts/deploy.rb:65-69 | tag `"v1.2.3"` gives 0.2.3 |
| Examples.LatestReleaseTag | scripts/deploy.rb:65-69 | tag `"release-2.4.1"` gives 0.4.1 |
| Examples.LatestWithoutMatch | scripts/deploy.rb:65-71 | tags `"v1.2"` and `""` give 0.0.0 |
| Examples.PatchRelease | scripts/deploy.rb:79-86 | component "patch" with tag `"1.4.2"` gives 1.4.3 |
| Examples.RenderPatchRelease | scripts/deploy.rb:74-76 | 1.4.3 renders as `"1.4.3"` |
| Examples.UnknownComponent | scripts/deploy.rb:87-88 | component "build" fails with the error whose message is "Invalid component", whatever the tag |

## Left out

- Running `git describe --abbrev=0 --tags` and stripping its output (line 66): this is an external process. `Latest` takes the stripped tag text as its argument.
- `brew info`, `brew tap` and `brew tap-info`, and the `$?.exitstatus` check (lines 93-94, 98, 102): these are external processes. `FindTap` takes the installed taps as a sequence of (name, path) records.
- `JSON.parse` of brew's output (lines 95, 103): this is a foreign library. The formula's tap is given to `FindTap` as a plain string.
- `OptionParser`, the `bundler/inline` gemfile, the help and missing-argument exits, and all `puts`/`print` output (lines 1-37, 91, 97, 99, 101, 105, 111): these are command-line and console plumbing.
- `Dir.chdir` with an empty block (lines 107-108): its only effect is on process state. The crash it would hit when no tap matches is not modelled.
- `scripts/deploy.rb` has no build, release-publishing, remote-URL or formula-bump step, so none is modelled.
- RubyInteger.RubyToI: Ruby's `to_i` also accepts single `_` separators between digits (`"1_000"` reads as 1000) and a `0d` prefix (`"0d12"` reads as 12). The model stops the number at `_` and reads `"0d12"` as 0. It handles leading whitespace (space, tab, newline, vertical tab, form feed, carriage return) and an optional `+` or `-` sign. Its own ensures give only the zero cases and the sign; the value in general is stated by `RubyInteger.ToIOfSignedRun` and `RubyInteger.ToIWithoutDigits`.
- TagPattern.MatchesVersionPattern: `\d` is taken to match only the ASCII digits 0-9, which is what Ruby's regular expressions do by default.
