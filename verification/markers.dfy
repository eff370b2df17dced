/**
  The marker matcher: an explicit scanner for the three marker patterns
    (\s*)<script-package src=(["|'])([^\2]+?)\2
    (\s*)<style-package src=(["|'])([^\2]+?)\2
    (\s*)<script-partial src=(["|'])([^\2]+?)\2
  and for the `process=(["|'])true\1` flag. Inside a character class `\2` is the legacy
  octal escape for U+0002, so the name may hold any character but U+0002, including the
  other quote; only the closing `\2`, outside the class, refers back to the opening
  delimiter. The class `["|']` admits '|' as a delimiter as well.
 */
module Markers {
  import opened Wrappers
  import opened Strings

  datatype MarkerKind = ScriptPackage | StylePackage | ScriptPartial

  /** The literal text each pattern requires between the whitespace and the delimiter. */
  function Opening(kind: MarkerKind): string {
    match kind
    case ScriptPackage => "<script-package src="
    case StylePackage => "<style-package src="
    case ScriptPartial => "<script-partial src="
  }

  /** U+0002, the one character `[^\2]` excludes. */
  const Stx: char := '\U{2}'

  /** The class `["|']`. */
  predicate IsDelimiter(c: char) {
    c == '"' || c == '|' || c == '\''
  }

  /** JavaScript's `\s`: the ECMAScript white space and line terminator characters. */
  predicate IsSpace(c: char) {
    || c == '\t' || c == '\n' || c == '\U{B}' || c == '\U{C}' || c == '\r' || c == ' '
    || c == '\U{A0}' || c == '\U{1680}' || ('\U{2000}' <= c <= '\U{200A}')
    || c == '\U{2028}' || c == '\U{2029}' || c == '\U{202F}' || c == '\U{205F}'
    || c == '\U{3000}' || c == '\U{FEFF}'
  }

  predicate IsSpaceText(ws: string) {
    forall t :: 0 <= t < |ws| ==> IsSpace(ws[t])
  }

  /** A recognised marker: the captured whitespace, the delimiter, the captured name. */
  datatype Marker = Marker(kind: MarkerKind, whitespace: string, delimiter: char, name: string)

  predicate AllSpace(line: string, a: nat, b: nat)
    requires a <= b <= |line|
  {
    forall t :: a <= t < b ==> IsSpace(line[t])
  }

  predicate NoStx(line: string, a: nat, b: nat)
    requires a <= b <= |line|
  {
    forall t :: a <= t < b ==> line[t] != Stx
  }

  /**
    What the pattern demands after `(\s*)`: the opening text at `e`, a delimiter, a name of
    at least one character other than U+0002, and the same delimiter again at `j`.
   */
  predicate TailMatch(line: string, kind: MarkerKind, e: nat, j: nat) {
    var d := e + |Opening(kind)|;
    && OccursAt(line, Opening(kind), e)
    && d + 1 < j < |line|
    && IsDelimiter(line[d])
    && NoStx(line, d + 1, j)
    && line[j] == line[d]
  }

  /** The whole pattern matches from `p` to `j`, the group `(\s*)` capturing `line[p..e]`. */
  predicate PatternMatch(line: string, kind: MarkerKind, p: nat, e: nat, j: nat) {
    p <= e && TailMatch(line, kind, e, j) && AllSpace(line, p, e)
  }

  /**
    The match `String.prototype.match` reports: backtracking tries start positions from
    left to right, the greedy `\s*` longest first, the lazy `+?` shortest first; the first
    success in that order wins.
   */
  ghost predicate FirstMatch(line: string, kind: MarkerKind, p: nat, e: nat, j: nat) {
    && PatternMatch(line, kind, p, e, j)
    && forall p': nat, e': nat, j': nat :: PatternMatch(line, kind, p', e', j') ==>
         p < p' || (p == p' && (e' < e || (e' == e && j <= j')))
  }

  /** The captures of a match from `p` to `j` with the opening text at `e`. */
  function Capture(line: string, kind: MarkerKind, p: nat, e: nat, j: nat): Marker
    requires p <= e && e + |Opening(kind)| + 1 < j <= |line|
  {
    var d := e + |Opening(kind)|;
    Marker(kind, line[p..e], line[d], line[d + 1..j])
  }

  /**
    The closing delimiter of a name: the first `delim` at or after `t`, unless a U+0002
    comes first.
   */
  function CloseFrom(line: string, delim: char, t: nat): (r: Option<nat>)
    requires delim != Stx && t <= |line|
    ensures r.Some? ==> t <= r.value < |line| && line[r.value] == delim && NoStx(line, t, r.value)
    ensures r.Some? ==> forall u :: t <= u < r.value ==> line[u] != delim
    ensures r.None? ==> forall j :: t <= j < |line| && line[j] == delim ==> !NoStx(line, t, j)
    decreases |line| - t
  {
    if t == |line| then None
    else if line[t] == delim then Some(t)
    else if line[t] == Stx then None
    else CloseFrom(line, delim, t + 1)
  }

  /** No delimiter like the one at `d` between the name's first character and `j`. */
  predicate ShortestClose(line: string, d: nat, j: nat)
    requires d < j <= |line|
  {
    forall u :: d + 2 <= u < j ==> line[u] != line[d]
  }

  /** The shortest tail match at `e`, if there is one. */
  function CloseAt(line: string, kind: MarkerKind, e: nat): (r: Option<nat>)
    ensures r.Some? ==> TailMatch(line, kind, e, r.value)
    ensures r.Some? ==> forall j :: TailMatch(line, kind, e, j) ==> r.value <= j
    ensures r.Some? ==> ShortestClose(line, e + |Opening(kind)|, r.value)
    ensures r.None? ==> forall j :: !TailMatch(line, kind, e, j)
  {
    var d := e + |Opening(kind)|;
    if !(OccursAt(line, Opening(kind), e) && d + 1 < |line| && IsDelimiter(line[d]) && line[d + 1] != Stx)
    then None
    else CloseFrom(line, line[d], d + 2)
  }

  /** The first position at or after `from` where a tail match starts, with its shortest close. */
  function FindFrom(line: string, kind: MarkerKind, from: nat): (r: Option<(nat, nat)>)
    ensures r.Some? ==> from <= r.value.0 && CloseAt(line, kind, r.value.0) == Some(r.value.1)
    ensures r.Some? ==> forall e :: from <= e < r.value.0 ==> CloseAt(line, kind, e).None?
    ensures r.None? ==> forall e :: from <= e < |line| ==> CloseAt(line, kind, e).None?
    decreases |line| - from
  {
    if from >= |line| then None
    else match CloseAt(line, kind, from)
      case Some(j) => Some((from, j))
      case None => FindFrom(line, kind, from + 1)
  }

  /** The start of the run of white space that ends at `e`. */
  function SpaceRunStart(line: string, e: nat): (a: nat)
    requires e <= |line|
    ensures a <= e && AllSpace(line, a, e)
    ensures a == 0 || !IsSpace(line[a - 1])
    decreases e
  {
    if e > 0 && IsSpace(line[e - 1]) then SpaceRunStart(line, e - 1) else e
  }

  /** `line.match(regex[kind])`: the captured white space, delimiter and name, if any. */
  function Match(line: string, kind: MarkerKind): (r: Option<Marker>)
    ensures r.Some? ==> r.value.kind == kind
  {
    match FindFrom(line, kind, 0)
    case None => None
    case Some((e, j)) => Some(Capture(line, kind, SpaceRunStart(line, e), e, j))
  }

  /**
    What a match captures: white space only, a delimiter from the class, and a non-empty
    name free of U+0002 that holds the delimiter nowhere but possibly in its first
    character (the lazy `+?` takes one character before it tests for the close).
   */
  lemma MatchCaptures(line: string, kind: MarkerKind)
    requires Match(line, kind).Some?
    ensures var m := Match(line, kind).value;
      && IsSpaceText(m.whitespace) && IsDelimiter(m.delimiter) && |m.name| >= 1
      && (forall t :: 0 <= t < |m.name| ==> m.name[t] != Stx)
      && (forall t :: 1 <= t < |m.name| ==> m.name[t] != m.delimiter)
  {
    var p, e, j := MatchWitness(line, kind);
    CaptureFacts(line, kind, p, e, j, Match(line, kind).value);
  }

  /** A reported match is the capture of a shortest-closed pattern match. */
  lemma MatchWitness(line: string, kind: MarkerKind) returns (p: nat, e: nat, j: nat)
    requires Match(line, kind).Some?
    ensures PatternMatch(line, kind, p, e, j) && ShortestClose(line, e + |Opening(kind)|, j)
    ensures Match(line, kind) == Some(Capture(line, kind, p, e, j))
  {
    var r := FindFrom(line, kind, 0).value;
    e, j := r.0, r.1;
    p := SpaceRunStart(line, e);
    FoundClose(line, kind, e, j);
  }

  /** The scan's result is a tail match with the shortest close. */
  lemma FoundClose(line: string, kind: MarkerKind, e: nat, j: nat)
    requires FindFrom(line, kind, 0) == Some((e, j))
    ensures TailMatch(line, kind, e, j) && ShortestClose(line, e + |Opening(kind)|, j)
  {
    assert CloseAt(line, kind, e) == Some(j);
  }

  lemma CaptureFacts(line: string, kind: MarkerKind, p: nat, e: nat, j: nat, m: Marker)
    requires PatternMatch(line, kind, p, e, j)
    requires ShortestClose(line, e + |Opening(kind)|, j)
    requires m == Capture(line, kind, p, e, j)
    ensures && IsSpaceText(m.whitespace) && IsDelimiter(m.delimiter) && |m.name| >= 1
      && (forall t :: 0 <= t < |m.name| ==> m.name[t] != Stx)
      && (forall t :: 1 <= t < |m.name| ==> m.name[t] != m.delimiter)
  {
    var d := e + |Opening(kind)|;
    forall t | 0 <= t < |m.whitespace|
      ensures IsSpace(m.whitespace[t])
    {
      assert m.whitespace[t] == line[p + t];
    }
    forall t | 0 <= t < |m.name|
      ensures m.name[t] != Stx
    {
      assert m.name[t] == line[d + 1 + t];
    }
    forall t | 1 <= t < |m.name|
      ensures m.name[t] != m.delimiter
    {
      assert m.name[t] == line[d + 1 + t];
    }
  }

  lemma OpeningStartsWithAngle(kind: MarkerKind)
    ensures |Opening(kind)| > 0 && Opening(kind)[0] == '<' && !IsSpace('<')
  {
  }

  /**
    The scanner agrees with the regular expression: it finds nothing exactly when the
    pattern matches nowhere in the line, and otherwise reports the captures of the match
    that backtracking reaches first.
   */
  lemma MatchIsFirstMatch(line: string, kind: MarkerKind)
    ensures Match(line, kind).None? <==> forall p: nat, e: nat, j: nat :: !PatternMatch(line, kind, p, e, j)
    ensures Match(line, kind).Some? ==>
      exists p: nat, e: nat, j: nat :: FirstMatch(line, kind, p, e, j) && Match(line, kind).value == Capture(line, kind, p, e, j)
  {
    match FindFrom(line, kind, 0)
    case None =>
      NothingFound(line, kind);
    case Some((e, j)) =>
      FoundIsFirst(line, kind, e, j);
      var p := SpaceRunStart(line, e);
      assert Match(line, kind).value == Capture(line, kind, p, e, j);
  }

  /**
    The first match in backtracking order is unique, so whenever `(p, e, j)` is it, the
    reported captures are those of `(p, e, j)`.
   */
  lemma MatchOfFirstMatch(line: string, kind: MarkerKind, p: nat, e: nat, j: nat)
    requires FirstMatch(line, kind, p, e, j)
    ensures Match(line, kind) == Some(Capture(line, kind, p, e, j))
  {
    MatchIsFirstMatch(line, kind);
    var p', e', j' :| FirstMatch(line, kind, p', e', j') && Match(line, kind).value == Capture(line, kind, p', e', j');
    FirstMatchUnique(line, kind, p, e, j, p', e', j');
  }

  /** A line the pattern matches nowhere has no match. */
  lemma MatchNone(line: string, kind: MarkerKind)
    requires forall p: nat, e: nat, j: nat :: !PatternMatch(line, kind, p, e, j)
    ensures Match(line, kind).None?
  {
    MatchIsFirstMatch(line, kind);
  }

  lemma FirstMatchUnique(line: string, kind: MarkerKind, p: nat, e: nat, j: nat, p': nat, e': nat, j': nat)
    requires FirstMatch(line, kind, p, e, j) && FirstMatch(line, kind, p', e', j')
    ensures p == p' && e == e' && j == j'
  {
    assert PatternMatch(line, kind, p', e', j');
    assert PatternMatch(line, kind, p, e, j);
  }

  lemma NothingFound(line: string, kind: MarkerKind)
    requires FindFrom(line, kind, 0).None?
    ensures forall p: nat, e: nat, j: nat :: !PatternMatch(line, kind, p, e, j)
  {
    forall p: nat, e: nat, j: nat
      ensures !PatternMatch(line, kind, p, e, j)
    {
      if e < |line| {
        assert CloseAt(line, kind, e).None?;
      }
    }
  }

  lemma FoundIsFirst(line: string, kind: MarkerKind, e: nat, j: nat)
    requires FindFrom(line, kind, 0) == Some((e, j))
    ensures FirstMatch(line, kind, SpaceRunStart(line, e), e, j)
  {
    FoundFacts(line, kind, e, j);
    FirstFromFacts(line, kind, SpaceRunStart(line, e), e, j);
  }

  /** What the scan's result says about the line: a tail match, and none earlier or shorter. */
  lemma FoundFacts(line: string, kind: MarkerKind, e: nat, j: nat)
    requires FindFrom(line, kind, 0) == Some((e, j))
    ensures TailMatch(line, kind, e, j)
    ensures forall e': nat, j': nat :: TailMatch(line, kind, e', j') ==> e <= e' && (e == e' ==> j <= j')
    ensures e < |line| && !IsSpace(line[e])
  {
    forall e': nat, j': nat | TailMatch(line, kind, e', j')
      ensures e <= e' && (e == e' ==> j <= j')
    {
      FoundEarliest(line, kind, e, j, e', j');
    }
    OpeningNotSpace(line, kind, e);
  }

  /**
    A tail match at the earliest opening text with the shortest close, behind the whole
    run of white space before it, is the match backtracking reaches first.
   */
  lemma FirstFromFacts(line: string, kind: MarkerKind, p: nat, e: nat, j: nat)
    requires p <= e < |line| && !IsSpace(line[e])
    requires p == 0 || !IsSpace(line[p - 1])
    requires AllSpace(line, p, e) && TailMatch(line, kind, e, j)
    requires forall e': nat, j': nat :: TailMatch(line, kind, e', j') ==> e <= e' && (e == e' ==> j <= j')
    ensures FirstMatch(line, kind, p, e, j)
  {
    forall p': nat, e': nat, j': nat | PatternMatch(line, kind, p', e', j')
      ensures p < p' || (p == p' && (e' < e || (e' == e && j <= j')))
    {
      FoundPrecedes(line, p, e, j, p', e', j');
    }
  }

  /** No tail match starts before the found one, and none at the same place closes sooner. */
  lemma FoundEarliest(line: string, kind: MarkerKind, e: nat, j: nat, e': nat, j': nat)
    requires FindFrom(line, kind, 0) == Some((e, j))
    requires TailMatch(line, kind, e', j')
    ensures e <= e' && (e == e' ==> j <= j')
  {
    assert CloseAt(line, kind, e').Some?;
  }

  /** Every opening text starts with '<', which is not white space. */
  lemma OpeningNotSpace(line: string, kind: MarkerKind, e: nat)
    requires OccursAt(line, Opening(kind), e)
    ensures e < |line| && !IsSpace(line[e])
  {
    OpeningStartsWithAngle(kind);
    assert line[e..e + |Opening(kind)|][0] == line[e];
  }

  /**
    The white space run that ends at the earliest opening text starts no later than any
    other match's run, and a match from the same start ends its run there too.
   */
  lemma FoundPrecedes(line: string, p: nat, e: nat, j: nat, p': nat, e': nat, j': nat)
    requires p <= e < |line| && !IsSpace(line[e])
    requires p == 0 || !IsSpace(line[p - 1])
    requires p' <= e' <= |line| && AllSpace(line, p', e')
    requires e <= e' && (e == e' ==> j <= j')
    ensures p < p' || (p == p' && (e' < e || (e' == e && j <= j')))
  {
    OutsideSpaceRun(line, p', e', e);
    if p > 0 {
      OutsideSpaceRun(line, p', e', p - 1);
    }
  }

  /** A character that is not white space lies outside every run of white space. */
  lemma OutsideSpaceRun(line: string, a: nat, b: nat, q: nat)
    requires a <= b <= |line| && q < |line|
    requires AllSpace(line, a, b) && !IsSpace(line[q])
    ensures q < a || b <= q
  {
  }

  /** The marker text: white space, opening text, delimiter, name, delimiter. */
  function MarkerText(kind: MarkerKind, ws: string, delim: char, name: string): string {
    ws + Opening(kind) + [delim] + name + [delim]
  }

  /**
    Marker round trip: a line that starts with a marker built from white space, a
    delimiter and a name the pattern accepts yields exactly those captures, whatever
    follows the marker on the line.
   */
  lemma MatchMarkerText(kind: MarkerKind, ws: string, delim: char, name: string, rest: string)
    requires IsSpaceText(ws) && IsDelimiter(delim) && |name| >= 1
    requires forall t :: 0 <= t < |name| ==> name[t] != Stx
    requires forall t :: 1 <= t < |name| ==> name[t] != delim
    ensures Match(MarkerText(kind, ws, delim, name) + rest, kind) == Some(Marker(kind, ws, delim, name))
  {
    var j := MarkerTextFound(kind, ws, delim, name, rest);
  }

  /** The scan finds a marker text at its opening, and the captures are its parts. */
  lemma MarkerTextFound(kind: MarkerKind, ws: string, delim: char, name: string, rest: string) returns (j: nat)
    requires IsSpaceText(ws) && IsDelimiter(delim) && |name| >= 1
    requires forall t :: 0 <= t < |name| ==> name[t] != Stx
    requires forall t :: 1 <= t < |name| ==> name[t] != delim
    ensures var line := MarkerText(kind, ws, delim, name) + rest;
      && FindFrom(line, kind, 0) == Some((|ws|, j)) && SpaceRunStart(line, |ws|) == 0
      && |ws| + |Opening(kind)| + 1 < j <= |line|
      && Capture(line, kind, 0, |ws|, j) == Marker(kind, ws, delim, name)
  {
    var line := MarkerText(kind, ws, delim, name) + rest;
    var o := Opening(kind);
    var e := |ws|;
    var d := e + |o|;
    j := d + 1 + |name|;
    OpeningStartsWithAngle(kind);
    assert line == ws + o + [delim] + name + [delim] + rest;
    MarkerLineLayout(line, ws, o, delim, name, rest);
    MarkerLineName(line, ws, o, delim, name, rest);
    MarkerLineOpening(line, ws, o, delim, name, rest);
    FindFromFirst(line, kind, e, j);
    SpaceRunWhole(line, e);
    assert Capture(line, kind, 0, e, j) == Marker(kind, ws, delim, name);
  }

  /** Where the parts of a marker line sit, for any opening text `o`. */
  lemma MarkerLineLayout(line: string, ws: string, o: string, delim: char, name: string, rest: string)
    requires line == ws + o + [delim] + name + [delim] + rest
    requires IsSpaceText(ws)
    ensures var d := |ws| + |o|;
      var j := d + 1 + |name|;
      && j < |line|
      && line[..|ws|] == ws && line[|ws|..d] == o && line[d] == delim
      && line[d + 1..j] == name && line[j] == delim
      && AllSpace(line, 0, |ws|)
  {
    forall t | 0 <= t < |ws|
      ensures IsSpace(line[t])
    {
      assert line[t] == ws[t];
    }
  }

  /** The name between the delimiters holds no U+0002 and closes at the second delimiter. */
  lemma MarkerLineName(line: string, ws: string, o: string, delim: char, name: string, rest: string)
    requires line == ws + o + [delim] + name + [delim] + rest
    requires |name| >= 1
    requires forall t :: 0 <= t < |name| ==> name[t] != Stx
    requires forall t :: 1 <= t < |name| ==> name[t] != delim
    ensures var d := |ws| + |o|;
      var j := d + 1 + |name|;
      && d + 1 < j < |line| && line[d] == delim
      && NoStx(line, d + 1, j)
      && ShortestClose(line, d, j)
  {
    var d := |ws| + |o|;
    var j := d + 1 + |name|;
    assert line[d] == delim;
    forall t | d + 1 <= t < j
      ensures line[t] == name[t - d - 1]
    {
    }
  }

  /** The opening text occurs where the white space ends, and nowhere inside the white space. */
  lemma MarkerLineOpening(line: string, ws: string, o: string, delim: char, name: string, rest: string)
    requires line == ws + o + [delim] + name + [delim] + rest
    requires IsSpaceText(ws) && |o| > 0 && !IsSpace(o[0])
    ensures OccursAt(line, o, |ws|)
    ensures forall e' :: 0 <= e' < |ws| ==> !OccursAt(line, o, e')
  {
    assert line[|ws|..|ws| + |o|] == o;
    forall e' | 0 <= e' < |ws|
      ensures !OccursAt(line, o, e')
    {
      assert line[e'] == ws[e'];
      if e' + |o| <= |line| {
        assert line[e'..e' + |o|][0] == line[e'];
      }
    }
  }

  /** A tail match at `e` with the shortest close `j`, and none before `e`, is what the scan finds. */
  lemma FindFromFirst(line: string, kind: MarkerKind, e: nat, j: nat)
    requires TailMatch(line, kind, e, j) && ShortestClose(line, e + |Opening(kind)|, j)
    requires forall e' :: 0 <= e' < e ==> !OccursAt(line, Opening(kind), e')
    ensures FindFrom(line, kind, 0) == Some((e, j))
  {
    var c := CloseAt(line, kind, e).value;
    assert line[c] == line[e + |Opening(kind)|];
    forall e' | 0 <= e' < e
      ensures CloseAt(line, kind, e').None?
    {
      assert !OccursAt(line, Opening(kind), e');
    }
    var r := FindFrom(line, kind, 0).value;
    assert r.0 == e;
  }

  /** A run of white space from the very start of the line reaches back to index 0. */
  lemma SpaceRunWhole(line: string, e: nat)
    requires e <= |line| && AllSpace(line, 0, e)
    ensures SpaceRunStart(line, e) == 0
  {
  }

  /** A single-quoted name may hold a double quote: `<script-package src='a"b.js'>`. */
  lemma QuoteSymmetryExample()
    ensures Match("<script-package src='a\"b.js'>", ScriptPackage)
      == Some(Marker(ScriptPackage, "", '\'', "a\"b.js"))
  {
    MatchMarkerText(ScriptPackage, "", '\'', "a\"b.js", ">");
    assert MarkerText(ScriptPackage, "", '\'', "a\"b.js") + ">" == "<script-package src='a\"b.js'>";
  }

  /**
    An empty pair of delimiters does not close a name: the lazy name takes at least one
    character, so the second delimiter becomes the name's first character, as in
    `<script-package src=""a.js">`, whose name is `"a.js`.
   */
  lemma DoubledDelimiterOpensName(kind: MarkerKind, ws: string, delim: char, rest: string, tail: string)
    requires IsSpaceText(ws) && IsDelimiter(delim)
    requires forall t :: 0 <= t < |rest| ==> rest[t] != Stx && rest[t] != delim
    ensures Match(ws + Opening(kind) + [delim, delim] + rest + [delim] + tail, kind)
      == Some(Marker(kind, ws, delim, [delim] + rest))
  {
    var name := [delim] + rest;
    forall t | 1 <= t < |name|
      ensures name[t] != delim
    {
      assert name[t] == rest[t - 1];
    }
    MatchMarkerText(kind, ws, delim, name, tail);
    DoubledLayout(ws, Opening(kind), delim, rest, tail);
  }

  lemma DoubledLayout(ws: string, o: string, delim: char, rest: string, tail: string)
    ensures ws + o + [delim] + ([delim] + rest) + [delim] + tail == ws + o + [delim, delim] + rest + [delim] + tail
  {
    assert [delim] + ([delim] + rest) == [delim, delim] + rest;
  }

  /** `process=` followed by a delimiter, `true` and the same delimiter, starting at `i`. */
  predicate ProcessAt(line: string, i: nat) {
    && OccursAt(line, "process=", i)
    && i + 13 < |line|
    && IsDelimiter(line[i + 8])
    && OccursAt(line, "true", i + 9)
    && line[i + 13] == line[i + 8]
  }

  function ProcessFrom(line: string, i: nat): (b: bool)
    ensures b <==> exists k :: i <= k && ProcessAt(line, k)
    decreases |line| - i
  {
    if i + 13 >= |line| then false
    else ProcessAt(line, i) || ProcessFrom(line, i + 1)
  }

  /** `regex.process.test(line)`: the flag is set somewhere on the line. */
  function HasProcessFlag(line: string): (b: bool)
    ensures b <==> exists k :: ProcessAt(line, k)
  {
    ProcessFrom(line, 0)
  }
}
