/** The two decisions of the release script around `Semver`: which bump the
    `--component` option selects, applied to the version from the latest
    tag, and which installed tap is the formula's. */
module Deploy {
  import opened Results
  import opened Version

  /** The three values the `case component` statement accepts. */
  datatype Component = Major | Minor | Patch

  function ComponentName(c: Component): string {
    match c
    case Major => "major"
    case Minor => "minor"
    case Patch => "patch"
  }

  function Bump(v: Semver, c: Component): Semver {
    match c
    case Major => BumpMajor(v)
    case Minor => BumpMinor(v)
    case Patch => BumpPatch(v)
  }

  /** The `case component` statement: exactly the three component names
      select a bump, and any other text raises "Invalid component". */
  function SelectBump(component: string, v: Semver): (r: Result<Semver, Error>)
    ensures r.Success? <==> exists c :: ComponentName(c) == component
    ensures forall c :: ComponentName(c) == component ==> r == Success(Bump(v, c))
    ensures r.Failure? ==> r.error == InvalidComponent
  {
    if component == "major" then
      assert ComponentName(Major) == component;
      Success(BumpMajor(v))
    else if component == "minor" then
      assert ComponentName(Minor) == component;
      Success(BumpMinor(v))
    else if component == "patch" then
      assert ComponentName(Patch) == component;
      Success(BumpPatch(v))
    else
      assert forall c :: ComponentName(c) != component;
      Failure(InvalidComponent)
  }

  /** The next version, from the stripped output of the tag query and the
      requested component. The only failure is an invalid component: the
      current version is always found. */
  function NextVersion(tag: string, component: string): (r: Result<Semver, Error>)
    ensures r.Failure? <==> forall c :: ComponentName(c) != component
    ensures r.Failure? ==> r.error == InvalidComponent
    ensures forall c :: ComponentName(c) == component ==> r == Success(Bump(Latest(tag).value, c))
  {
    SelectBump(component, Latest(tag).value)
  }

  /** One entry of `brew tap-info --installed --json`. */
  datatype TapInfo = TapInfo(name: string, path: string)

  /** `taps[i]` is the first entry named `tapName`. */
  predicate FirstNamed(taps: seq<TapInfo>, tapName: string, i: int) {
    0 <= i < |taps| && taps[i].name == tapName &&
    forall j :: 0 <= j < i ==> taps[j].name != tapName
  }

  /** `taps_json.find { |tap| tap["name"] == formula_info_json["tap"] }`:
      the first installed tap with the formula's tap name, or `nil`. */
  method FindTap(taps: seq<TapInfo>, tapName: string) returns (found: Option<TapInfo>)
    ensures found.None? <==> forall i :: 0 <= i < |taps| ==> taps[i].name != tapName
    ensures found.Some? ==> exists i :: FirstNamed(taps, tapName, i) && taps[i] == found.value
  {
    var i := 0;
    while i < |taps|
      invariant 0 <= i <= |taps|
      invariant forall j :: 0 <= j < i ==> taps[j].name != tapName
    {
      if taps[i].name == tapName {
        assert FirstNamed(taps, tapName, i);
        return Some(taps[i]);
      }
      i := i + 1;
    }
    return None;
  }
}
