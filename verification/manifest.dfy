/**
  The manifest parser: one package-definition file becomes an ordered sequence of
  packaged files, and the file's path gives the package its name.
 */
module Manifest {
  import opened Wrappers
  import opened Strings

  /**
    One manifest line: `parts[0]` and `parts[1]` of the line split at the separator. Either
    is `None` when the split yields too few parts and the source reads `undefined`.
   */
  datatype PackagedFile = PackagedFile(srcPrefix: Option<string>, filename: Option<string>)

  /**
    `line.split(separator)` keeping `parts[0]` and `parts[1]`. With a non-empty separator
    the prefix is the text before the first separator and the filename the text between
    the first and the second; the empty separator splits into single characters, and the
    empty line into no parts at all.
   */
  function ParseEntry(line: string, sep: string): (e: PackagedFile)
    ensures |sep| > 0 && !Contains(line, sep) ==> e == PackagedFile(Some(line), None)
    ensures |sep| > 0 && Contains(line, sep) ==>
      var i := IndexOf(line, sep).value;
      e == PackagedFile(Some(line[..i]), Some(Before(line[i + |sep|..], sep)))
    ensures |sep| == 0 ==> (e.srcPrefix.Some? <==> |line| >= 1) && (e.filename.Some? <==> |line| >= 2)
    ensures |sep| == 0 && |line| >= 1 ==> e.srcPrefix == Some([line[0]])
    ensures |sep| == 0 && |line| >= 2 ==> e.filename == Some([line[1]])
  {
    if |sep| == 0 then
      PackagedFile(if |line| >= 1 then Some([line[0]]) else None, if |line| >= 2 then Some([line[1]]) else None)
    else
      SplitHead(line, sep);
      SplitSecond(line, sep);
      var parts := Split(line, sep);
      PackagedFile(Some(parts[0]), if |parts| > 1 then Some(parts[1]) else None)
  }

  /**
    `buildPackageContents`: chomp one trailing line terminator, split on the line feed,
    parse every line. Even empty content gives one entry.
   */
  function BuildPackageContents(content: string, lf: string, sep: string): (files: seq<PackagedFile>)
    requires |lf| > 0
    ensures |files| >= 1
    ensures Chomp(content) == "" ==> files == [ParseEntry("", sep)]
  {
    var lines := Split(Chomp(content), lf);
    if Chomp(content) == "" then SplitSingleton("", lf);
      seq(|lines|, k requires 0 <= k < |lines| => ParseEntry(lines[k], sep))
    else seq(|lines|, k requires 0 <= k < |lines| => ParseEntry(lines[k], sep))
  }

  /** An empty manifest lists one entry: an empty prefix with no filename, or nothing at all under the empty separator. */
  lemma ParseEntryEmpty(sep: string)
    ensures ParseEntry("", sep) == PackagedFile(if |sep| > 0 then Some("") else None, None)
  {
    if |sep| > 0 {
      assert !OccursAt("", sep, 0);
    }
  }

  /**
    A manifest of N lines with no line feed inside a line and no trailing terminator
    parses to exactly N entries, entry k coming from line k.
   */
  lemma {:induction false} ManifestLines(lines: seq<string>, lf: string, sep: string)
    requires |lines| >= 1 && |lf| > 0 && Unbordered(lf)
    requires forall k :: 0 <= k < |lines| ==> !Contains(lines[k], lf)
    requires !HasTrailingTerminator(Join(lines, lf))
    ensures var files := BuildPackageContents(Join(lines, lf), lf, sep);
      && |files| == |lines|
      && forall k :: 0 <= k < |lines| ==> files[k] == ParseEntry(lines[k], sep)
  {
    SplitJoin(lines, lf);
  }

  /** The manifest line that lists `e`: prefix, separator, filename. */
  function EntryLine(e: PackagedFile, sep: string): string {
    AsText(e.srcPrefix) + sep + AsText(e.filename)
  }

  /** A manifest listing `entries` one per line. */
  function ManifestText(entries: seq<PackagedFile>, lf: string, sep: string): string {
    Join(seq(|entries|, k requires 0 <= k < |entries| => EntryLine(entries[k], sep)), lf)
  }

  lemma EntryLineParses(e: PackagedFile, sep: string)
    requires |sep| > 0 && Unbordered(sep) && e.srcPrefix.Some? && e.filename.Some?
    requires !Contains(e.srcPrefix.value, sep) && !Contains(e.filename.value, sep)
    ensures ParseEntry(EntryLine(e, sep), sep) == e
  {
    var parts := [e.srcPrefix.value, e.filename.value];
    SplitJoin(parts, sep);
    assert Join(parts, sep) == EntryLine(e, sep);
    SplitHead(EntryLine(e, sep), sep);
    SplitSecond(EntryLine(e, sep), sep);
  }

  /**
    Manifest round trip: writing entries as `prefix<sep>filename` lines and parsing the text
    gives the entries back, when no field holds the separator and no line the line feed.
   */
  lemma {:induction false} ManifestRoundTrip(entries: seq<PackagedFile>, lf: string, sep: string)
    requires |entries| >= 1 && |lf| > 0 && |sep| > 0 && Unbordered(lf) && Unbordered(sep)
    requires forall k :: 0 <= k < |entries| ==>
      && entries[k].srcPrefix.Some? && entries[k].filename.Some?
      && !Contains(entries[k].srcPrefix.value, sep) && !Contains(entries[k].filename.value, sep)
      && !Contains(EntryLine(entries[k], sep), lf)
    requires !HasTrailingTerminator(ManifestText(entries, lf, sep))
    ensures BuildPackageContents(ManifestText(entries, lf, sep), lf, sep) == entries
  {
    var lines := seq(|entries|, k requires 0 <= k < |entries| => EntryLine(entries[k], sep));
    ManifestLines(lines, lf, sep);
    var files := BuildPackageContents(ManifestText(entries, lf, sep), lf, sep);
    forall k | 0 <= k < |entries|
      ensures files[k] == entries[k]
    {
      EntryLineParses(entries[k], sep);
    }
  }

  /** No `c` among `s[lo..hi]`. */
  predicate Absent(s: string, c: char, lo: int, hi: int)
    requires 0 <= lo && hi <= |s|
  {
    forall j :: lo <= j < hi ==> s[j] != c
  }

  /** The index of the last `c` in `s[..end]`. */
  function LastIndexBefore(s: string, c: char, end: nat): (r: Option<nat>)
    requires end <= |s|
    ensures r.Some? ==> r.value < end && s[r.value] == c && Absent(s, c, r.value + 1, end)
    ensures r.None? ==> Absent(s, c, 0, end)
  {
    if end == 0 then None
    else if s[end - 1] == c then Some(end - 1)
    else LastIndexBefore(s, c, end - 1)
  }

  /** `s.lastIndexOf(c)`. */
  function LastIndexOf(s: string, c: char): (r: Option<nat>)
    ensures r.Some? ==> r.value < |s| && s[r.value] == c && Absent(s, c, r.value + 1, |s|)
    ensures r.None? ==> Absent(s, c, 0, |s|)
  {
    LastIndexBefore(s, c, |s|)
  }

  /** `path.basename(p)` for a POSIX path without trailing slash: the text after the last '/'. */
  function BaseName(path: string): (b: string)
    ensures EndsWith(path, b)
    ensures Absent(b, '/', 0, |b|)
    ensures |b| < |path| ==> path[|path| - |b| - 1] == '/'
  {
    match LastIndexOf(path, '/')
    case None => path
    case Some(i) => path[i + 1..]
  }

  /**
    `path.basename(p, path.extname(p))`: the base name without its last extension. A dot
    that opens the base name, and the name "..", start no extension.
   */
  function PackageName(path: string): string
  {
    var base := BaseName(path);
    match LastIndexOf(base, '.')
    case None => base
    case Some(d) => if d > 0 && base != ".." then base[..d] else base
  }

  /**
    The package name is the base name cut at its last dot, unless that dot opens the
    base name or the base name is ".."; the base name itself holds no '/'.
   */
  lemma PackageNameStripsLastExtension(path: string)
    ensures var base := BaseName(path);
      var name := PackageName(path);
      && StartsWith(base, name)
      && (name != base ==>
            && 0 < |name| && base[|name|] == '.' && base != ".."
            && forall j :: |name| < j < |base| ==> base[j] != '.')
      && (name == base ==> base == ".." || forall j :: 0 < j < |base| ==> base[j] != '.')
  {
  }

  /** A manifest stored as `common.js.pkg` defines the package `common.js`. */
  lemma PackageNameExample()
    ensures PackageName("pkgs/common.js.pkg") == "common.js"
  {
    var path := "pkgs/common.js.pkg";
    assert path[4] == '/';
    assert forall j :: 4 < j < |path| ==> path[j] != '/';
    assert LastIndexOf(path, '/') == Some(4);
    var base := BaseName(path);
    assert base == "common.js.pkg";
    assert base[9] == '.';
    assert forall j :: 9 < j < |base| ==> base[j] != '.';
    assert LastIndexOf(base, '.') == Some(9);
  }
}
