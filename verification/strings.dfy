/**
  The JavaScript string operations the packager relies on: `String.prototype.split` and
  `Array.prototype.join` with a string separator, the `chomp` of one trailing line
  terminator, suffix tests, and the text JavaScript produces when `undefined` is
  concatenated to a string.
 */
module Strings {
  import opened Wrappers

  /** `pat` occurs in `s` starting at index `i`. */
  predicate OccursAt(s: string, pat: string, i: nat) {
    i + |pat| <= |s| && s[i..i + |pat|] == pat
  }

  predicate Contains(s: string, pat: string) {
    exists i: nat | i <= |s| :: OccursAt(s, pat, i)
  }

  predicate StartsWith(s: string, pat: string) {
    |pat| <= |s| && s[..|pat|] == pat
  }

  /** The test `/x$/` performs: without the multiline flag `$` only matches at the very end. */
  predicate EndsWith(s: string, pat: string) {
    |pat| <= |s| && s[|s| - |pat|..] == pat
  }

  /** No proper non-empty prefix of `sep` is also a suffix of it ("\n", " " and "\r\n" all qualify). */
  predicate Unbordered(sep: string) {
    forall k :: 0 < k < |sep| ==> sep[..k] != sep[|sep| - k..]
  }

  /** The first occurrence of `pat` in `s` at or after `from`. */
  function IndexFrom(s: string, pat: string, from: nat): (r: Option<nat>)
    ensures r.Some? ==> from <= r.value && OccursAt(s, pat, r.value)
    ensures r.Some? ==> forall j :: from <= j < r.value ==> !OccursAt(s, pat, j)
    ensures r.None? ==> forall j :: from <= j ==> !OccursAt(s, pat, j)
    decreases |s| - from
  {
    if from + |pat| > |s| then None
    else if s[from..from + |pat|] == pat then Some(from)
    else IndexFrom(s, pat, from + 1)
  }

  /** `s.indexOf(pat)`, with `None` for JavaScript's -1. */
  function IndexOf(s: string, pat: string): (r: Option<nat>)
    ensures r.None? <==> !Contains(s, pat)
    ensures r.Some? ==> OccursAt(s, pat, r.value) && forall j :: 0 <= j < r.value ==> !OccursAt(s, pat, j)
  {
    IndexFrom(s, pat, 0)
  }

  /** The text before the first occurrence of `sep`, or all of `s` when there is none. */
  function Before(s: string, sep: string): (r: string)
    requires |sep| > 0
    ensures StartsWith(s, r)
    ensures r == s <==> !Contains(s, sep)
    ensures r != s ==> OccursAt(s, sep, |r|)
  {
    match IndexOf(s, sep)
    case None => s
    case Some(i) => s[..i]
  }

  /** A prefix of `s` that ends before the first occurrence of `sep` does not contain it. */
  lemma PrefixBeforeFirst(s: string, sep: string, i: nat)
    requires i <= |s| && |sep| > 0
    requires forall j :: 0 <= j < i ==> !OccursAt(s, sep, j)
    ensures !Contains(s[..i], sep)
  {
    var head := s[..i];
    forall j: nat | j <= |head|
      ensures !OccursAt(head, sep, j)
    {
      if j + |sep| <= |head| {
        assert !OccursAt(s, sep, j);
        assert s[j..j + |sep|] == head[j..j + |sep|];
      }
    }
  }

  /** A one-character pattern occurs exactly where that character stands. */
  lemma OccursAtChar(s: string, c: char, i: nat)
    ensures OccursAt(s, [c], i) <==> i < |s| && s[i] == c
  {
    if i < |s| {
      assert s[i..i + 1] == [s[i]];
    }
  }

  /** `s.indexOf(c)` for one character: the index of its first occurrence. */
  lemma IndexOfChar(s: string, c: char)
    ensures IndexOf(s, [c]).None? <==> forall t :: 0 <= t < |s| ==> s[t] != c
    ensures IndexOf(s, [c]).Some? ==>
      var i := IndexOf(s, [c]).value;
      i < |s| && s[i] == c && forall t :: 0 <= t < i ==> s[t] != c
  {
    forall t: nat
      ensures OccursAt(s, [c], t) <==> t < |s| && s[t] == c
    {
      OccursAtChar(s, c, t);
    }
  }

  /** `xs.join(sep)`: the empty array joins to the empty string. */
  function Join(xs: seq<string>, sep: string): string
  {
    if |xs| == 0 then ""
    else if |xs| == 1 then xs[0]
    else xs[0] + sep + Join(xs[1..], sep)
  }

  /**
    `s.split(sep)` for a non-empty string separator: the pieces between successive
    non-overlapping occurrences found left to right. Joining them back gives `s`, and no
    piece contains the separator.
   */
  function Split(s: string, sep: string): (r: seq<string>)
    requires |sep| > 0
    ensures |r| >= 1
    ensures Join(r, sep) == s
    ensures forall k :: 0 <= k < |r| ==> !Contains(r[k], sep)
    decreases |s|
  {
    match IndexOf(s, sep)
    case None => [s]
    case Some(i) =>
      var head := s[..i];
      PrefixBeforeFirst(s, sep, i);
      var rest := Split(s[i + |sep|..], sep);
      assert s == head + sep + s[i + |sep|..];
      [head] + rest
  }

  /** The number of pieces `split` yields is one more than the number of separators it cuts at. */
  lemma {:induction false} SplitSingleton(s: string, sep: string)
    requires |sep| > 0
    ensures Split(s, sep) == [s] <==> !Contains(s, sep)
  {
    match IndexOf(s, sep)
    case None =>
    case Some(i) =>
      assert Split(s, sep)[0] == s[..i];
      assert |s[..i]| < |s|;
  }

  /** The first piece of a split is the text before the first separator. */
  lemma SplitHead(s: string, sep: string)
    requires |sep| > 0
    ensures Split(s, sep)[0] == Before(s, sep)
  {
  }

  /** The second piece, when there is one, is the text between the first and second separators. */
  lemma SplitSecond(s: string, sep: string)
    requires |sep| > 0
    ensures |Split(s, sep)| > 1 <==> Contains(s, sep)
    ensures |Split(s, sep)| > 1 ==>
      var i := IndexOf(s, sep).value;
      Split(s, sep)[1] == Before(s[i + |sep|..], sep)
  {
    match IndexOf(s, sep)
    case None =>
    case Some(i) =>
      SplitHead(s[i + |sep|..], sep);
  }

  /**
    Inside `x + sep + y` the first occurrence of `sep` is the one placed there, when `x`
    does not contain it and `sep` cannot overlap itself.
   */
  lemma {:induction false} FirstOccurrenceAfter(x: string, sep: string, y: string)
    requires |sep| > 0 && Unbordered(sep) && !Contains(x, sep)
    ensures IndexOf(x + sep + y, sep) == Some(|x|)
  {
    var s := x + sep + y;
    assert OccursAt(s, sep, |x|) by {
      assert s[|x|..|x| + |sep|] == sep;
    }
    forall j | 0 <= j < |x|
      ensures !OccursAt(s, sep, j)
    {
      if j + |sep| <= |x| {
        assert !OccursAt(x, sep, j);
        assert x[j..j + |sep|] == s[j..j + |sep|];
      } else {
        var l := |x| - j;
        var k := |sep| - l;
        assert sep[..k] != sep[|sep| - k..];
        var t :| 0 <= t < k && sep[..k][t] != sep[|sep| - k..][t];
        assert s[|x| + t] == sep[t];
        assert s[j..j + |sep|][l + t] == s[|x| + t];
        assert s[j..j + |sep|][l + t] != sep[l + t];
      }
    }
    match IndexOf(s, sep)
    case None =>
    case Some(i) =>
      assert !(i < |x|);
      assert !(|x| < i);
  }

  /** Splitting `x + sep + rest` cuts at the separator placed after `x`. */
  lemma SplitAfterFirst(x: string, sep: string, rest: string)
    requires |sep| > 0 && Unbordered(sep) && !Contains(x, sep)
    ensures Split(x + sep + rest, sep) == [x] + Split(rest, sep)
  {
    var s := x + sep + rest;
    FirstOccurrenceAfter(x, sep, rest);
    assert s[..|x|] == x;
    assert s[|x| + |sep|..] == rest;
  }

  /** Splitting what was joined gives back the pieces, when none contains the separator. */
  lemma {:induction false} SplitJoin(xs: seq<string>, sep: string)
    requires |xs| >= 1 && |sep| > 0 && Unbordered(sep)
    requires forall k :: 0 <= k < |xs| ==> !Contains(xs[k], sep)
    ensures Split(Join(xs, sep), sep) == xs
    decreases |xs|
  {
    if |xs| == 1 {
      SplitSingleton(xs[0], sep);
    } else {
      SplitAfterFirst(xs[0], sep, Join(xs[1..], sep));
      SplitJoin(xs[1..], sep);
      assert xs == [xs[0]] + xs[1..];
    }
  }

  predicate IsTerminatorChar(c: char) {
    c == '\n' || c == '\r'
  }

  /** Whether `s` ends in a line terminator that `chomp` would remove. */
  predicate HasTrailingTerminator(s: string) {
    |s| > 0 && IsTerminatorChar(s[|s| - 1])
  }

  /** `s.chomp()`: removes one trailing CR LF, LF or CR. */
  function Chomp(s: string): (r: string)
    ensures StartsWith(s, r)
    ensures r == s <==> !HasTrailingTerminator(s)
    ensures r != s ==> s[|r|..] == "\r\n" || s[|r|..] == "\n" || s[|r|..] == "\r"
  {
    if EndsWith(s, "\r\n") then s[..|s| - 2]
    else if EndsWith(s, "\n") || EndsWith(s, "\r") then s[..|s| - 1]
    else s
  }

  /** The text JavaScript produces when a possibly-`undefined` string is concatenated. */
  function AsText(v: Option<string>): (r: string)
    ensures v.Some? ==> r == v.value
    ensures v.None? ==> r == "undefined"
  {
    if v.Some? then v.value else "undefined"
  }
}
