/** Ruby's `String#split('.')`: the string is cut at every literal dot, and
    then empty fields at the end are dropped while empty fields at the front
    or in between are kept. */
module RubySplit {

  /** Position of the first occurrence of `c` in `s`. */
  function IndexOf(s: string, c: char): (i: nat)
    requires c in s
    ensures i < |s| && s[i] == c && c !in s[..i]
  {
    if s[0] == c then 0
    else
      var j := IndexOf(s[1..], c);
      assert s[..j + 1] == [s[0]] + s[1..][..j];
      j + 1
  }

  /** The fields joined back with dots between them. */
  function JoinDot(fields: seq<string>): string {
    if |fields| == 0 then ""
    else if |fields| == 1 then fields[0]
    else fields[0] + "." + JoinDot(fields[1..])
  }

  predicate NoDots(fields: seq<string>) {
    forall k :: 0 <= k < |fields| ==> '.' !in fields[k]
  }

  /** Every field between dots, empty ones included, so that `n` dots give
      `n + 1` fields; joining them with dots gives `s` back. */
  function SplitAll(s: string): (fields: seq<string>)
    ensures |fields| >= 1 && NoDots(fields)
    ensures JoinDot(fields) == s
    decreases |s|
  {
    if '.' !in s then [s]
    else
      var i := IndexOf(s, '.');
      var rest := SplitAll(s[i + 1..]);
      var fields := [s[..i]] + rest;
      assert fields[1..] == rest;
      assert s == s[..i] + "." + s[i + 1..];
      fields
  }

  /** `fields` without its trailing empty fields. */
  function DropTrailingEmpty(fields: seq<string>): (kept: seq<string>)
    ensures kept <= fields
    ensures kept == [] || kept[|kept| - 1] != ""
    ensures forall k :: |kept| <= k < |fields| ==> fields[k] == ""
  {
    if fields != [] && fields[|fields| - 1] == "" then DropTrailingEmpty(fields[..|fields| - 1])
    else fields
  }

  /** `String#split('.')`: the fields between dots up to the last non-empty
      one; every field after it is empty. */
  function RubySplitDot(s: string): (fields: seq<string>)
    ensures fields <= SplitAll(s) && NoDots(fields)
    ensures fields == [] || fields[|fields| - 1] != ""
    ensures forall k :: |fields| <= k < |SplitAll(s)| ==> SplitAll(s)[k] == ""
  {
    DropTrailingEmpty(SplitAll(s))
  }

  /** A field that is not empty survives the dropping of trailing empty
      fields, together with every field before it. */
  lemma {:induction false} NonEmptyFieldKept(s: string, k: nat)
    requires k < |SplitAll(s)| && SplitAll(s)[k] != ""
    ensures k < |RubySplitDot(s)|
    ensures RubySplitDot(s)[..k + 1] == SplitAll(s)[..k + 1]
  {
  }

  lemma {:induction false} IndexOfIsFirst(s: string, c: char, j: nat)
    requires j < |s| && s[j] == c && c !in s[..j]
    ensures IndexOf(s, c) == j
  {
  }

  /** Splitting undoes joining: dot-free fields come back unchanged. */
  lemma {:induction false} SplitJoinRoundTrip(fields: seq<string>)
    requires |fields| >= 1 && NoDots(fields)
    ensures SplitAll(JoinDot(fields)) == fields
    decreases |fields|
  {
    if |fields| > 1 {
      var f := fields[0];
      var rest := fields[1..];
      var s := JoinDot(fields);
      assert s == f + "." + JoinDot(rest);
      assert s[..|f|] == f;
      IndexOfIsFirst(s, '.', |f|);
      assert s[|f| + 1..] == JoinDot(rest);
      SplitJoinRoundTrip(rest);
      assert fields == [f] + rest;
    }
  }

  lemma {:induction false} JoinDotAppend(a: seq<string>, b: seq<string>)
    requires |a| >= 1 && |b| >= 1
    ensures JoinDot(a + b) == JoinDot(a) + "." + JoinDot(b)
    decreases |a|
  {
    if |a| == 1 {
      assert (a + b)[1..] == b;
    } else {
      assert (a + b)[1..] == a[1..] + b;
      JoinDotAppend(a[1..], b);
    }
  }

  /** Cutting at one dot first and splitting the two sides gives the same fields. */
  lemma {:induction false} SplitAllAtDot(x: string, y: string)
    ensures SplitAll(x + "." + y) == SplitAll(x) + SplitAll(y)
  {
    var fields := SplitAll(x) + SplitAll(y);
    JoinDotAppend(SplitAll(x), SplitAll(y));
    assert NoDots(fields);
    SplitJoinRoundTrip(fields);
  }

  /** Text that does not start with a dot begins with a non-empty field. */
  lemma {:induction false} FirstFieldNonEmpty(t: string)
    requires t != [] && t[0] != '.'
    ensures SplitAll(t)[0] != ""
  {
    if '.' in t {
      var i := IndexOf(t, '.');
      assert t[..i][0] == t[0];
    }
  }

  /** Dot-free fields whose last one is not empty come back from
      `split('.')` unchanged: empty fields at the front or in between are kept. */
  lemma {:induction false} SplitDotOfJoin(fields: seq<string>)
    requires |fields| >= 1 && NoDots(fields) && fields[|fields| - 1] != ""
    ensures RubySplitDot(JoinDot(fields)) == fields
  {
    SplitJoinRoundTrip(fields);
  }

  /** A trailing dot never changes what `split('.')` returns. */
  lemma {:induction false} SplitDotIgnoresTrailingDot(s: string)
    ensures RubySplitDot(s + ".") == RubySplitDot(s)
  {
    assert s + "." == s + "." + "";
    SplitAllAtDot(s, "");
    assert SplitAll("") == [""];
    var fields := SplitAll(s) + [""];
    assert fields[..|fields| - 1] == SplitAll(s);
  }
}
