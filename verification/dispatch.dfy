/**
  The work the task hands to other Grunt tasks: in development a copy of every packaged
  file, in production one bundle per package for `concat` and `uglify` (scripts) or
  `cssmin` (stylesheets).
 */
module Dispatch {
  import opened Wrappers
  import opened Strings
  import opened Files
  import opened Manifest
  import opened Registry
  import opened Expander

  /** One `{src, dest}` entry of the copy configuration. */
  datatype CopyRequest = CopyRequest(src: string, dest: string)

  /** The `files` objects of the configurations the task writes. */
  datatype Plan =
    | CopyPlan(copies: seq<CopyRequest>)
    | BundlePlan(concat: map<string, seq<string>>, uglify: map<string, string>, cssmin: map<string, seq<string>>)

  /**
    Where a packaged file is read from: `src_prefix + filename` under JavaScript's `+`.
    When one side is a string the other reads as "undefined"; when both are missing the
    sum is the number NaN, which the configuration holds as the text "NaN".
   */
  function SourcePath(f: PackagedFile): string {
    if f.srcPrefix.None? && f.filename.None? then "NaN"
    else AsText(f.srcPrefix) + AsText(f.filename)
  }

  /**
    The source path of a manifest line: "NaN" for the empty line under the empty
    separator, the one line that splits into no parts; any other line has its prefix, and
    its source path is the prefix followed by the filename, or by "undefined".
   */
  lemma ParsedSourcePath(line: string, sep: string)
    ensures var f := ParseEntry(line, sep);
      && (|sep| == 0 && |line| == 0 ==> SourcePath(f) == "NaN")
      && (|sep| > 0 || |line| > 0 ==> f.srcPrefix.Some? && SourcePath(f) == f.srcPrefix.value + AsText(f.filename))
  {
    if |sep| > 0 && !Contains(line, sep) {
      assert ParseEntry(line, sep).srcPrefix == Some(line);
    }
  }

  function Sources(files: seq<PackagedFile>): (srcs: seq<string>)
    ensures |srcs| == |files|
    ensures forall k :: 0 <= k < |files| ==> srcs[k] == SourcePath(files[k])
  {
    seq(|files|, k requires 0 <= k < |files| => SourcePath(files[k]))
  }

  /** The copy of one file of package `name`. */
  function CopyOf(f: PackagedFile, name: string, sourceDest: string, prefices: Option<PrefixConfig>): CopyRequest {
    CopyRequest(SourcePath(f), sourceDest + PathSep + OutputPrefix(prefices, name) + AsText(f.filename))
  }

  function PackageCopies(files: seq<PackagedFile>, name: string, sourceDest: string, prefices: Option<PrefixConfig>): (cs: seq<CopyRequest>)
    ensures |cs| == |files|
    ensures forall k :: 0 <= k < |files| ==> cs[k] == CopyOf(files[k], name, sourceDest, prefices)
  {
    seq(|files|, k requires 0 <= k < |files| => CopyOf(files[k], name, sourceDest, prefices))
  }

  /** The number of files the packages `names` list together. */
  function TotalFiles(names: seq<string>, packages: map<string, seq<PackagedFile>>): nat
  {
    if |names| == 0 then 0 else |FilesOf(packages, names[0])| + TotalFiles(names[1..], packages)
  }

  /** The lists one after another. */
  function Flatten<T>(parts: seq<seq<T>>): seq<T> {
    if |parts| == 0 then [] else parts[0] + Flatten(parts[1..])
  }

  /** Element k of list i sits right after the elements of the lists before it. */
  lemma {:induction false} FlattenIndex<T>(parts: seq<seq<T>>, i: nat, k: nat)
    requires i < |parts| && k < |parts[i]|
    ensures |Flatten(parts[..i])| + k < |Flatten(parts)|
    ensures Flatten(parts)[|Flatten(parts[..i])| + k] == parts[i][k]
    decreases i
  {
    if i == 0 {
      assert parts[..0] == [];
    } else {
      FlattenIndex(parts[1..], i - 1, k);
      assert parts[..i][0] == parts[0];
      assert parts[..i][1..] == parts[1..][..i - 1];
    }
  }

  /** Each package's copies, in registry order. */
  function CopyLists(names: seq<string>, packages: map<string, seq<PackagedFile>>, sourceDest: string, prefices: Option<PrefixConfig>): (ls: seq<seq<CopyRequest>>)
    ensures |ls| == |names|
    ensures forall i :: 0 <= i < |names| ==> ls[i] == PackageCopies(FilesOf(packages, names[i]), names[i], sourceDest, prefices)
  {
    seq(|names|, i requires 0 <= i < |names| => PackageCopies(FilesOf(packages, names[i]), names[i], sourceDest, prefices))
  }

  lemma {:induction false} CopyListsCount(names: seq<string>, packages: map<string, seq<PackagedFile>>, sourceDest: string, prefices: Option<PrefixConfig>)
    ensures |Flatten(CopyLists(names, packages, sourceDest, prefices))| == TotalFiles(names, packages)
    decreases |names|
  {
    if |names| > 0 {
      CopyListsCount(names[1..], packages, sourceDest, prefices);
      assert CopyLists(names, packages, sourceDest, prefices)[1..] == CopyLists(names[1..], packages, sourceDest, prefices);
    }
  }

  /** The copy list: every package in registry order, each package's files in order. */
  function Copies(names: seq<string>, packages: map<string, seq<PackagedFile>>, sourceDest: string, prefices: Option<PrefixConfig>): seq<CopyRequest> {
    Flatten(CopyLists(names, packages, sourceDest, prefices))
  }

  /** One copy per packaged file. */
  lemma CopiesCount(names: seq<string>, packages: map<string, seq<PackagedFile>>, sourceDest: string, prefices: Option<PrefixConfig>)
    ensures |Copies(names, packages, sourceDest, prefices)| == TotalFiles(names, packages)
  {
    CopyListsCount(names, packages, sourceDest, prefices);
  }

  /**
    Copy order: file k of the i-th package is copied right after the copies of the
    packages before it (as many as those packages have files).
   */
  lemma CopiesLayout(names: seq<string>, packages: map<string, seq<PackagedFile>>, sourceDest: string, prefices: Option<PrefixConfig>, i: nat, k: nat)
    requires i < |names| && k < |FilesOf(packages, names[i])|
    ensures |Copies(names[..i], packages, sourceDest, prefices)| + k < |Copies(names, packages, sourceDest, prefices)|
    ensures Copies(names, packages, sourceDest, prefices)[|Copies(names[..i], packages, sourceDest, prefices)| + k]
      == CopyOf(FilesOf(packages, names[i])[k], names[i], sourceDest, prefices)
  {
    var parts := CopyLists(names, packages, sourceDest, prefices);
    CopyListsAt(names, packages, sourceDest, prefices, i, k);
    PrefixLists(names, packages, sourceDest, prefices, i);
    IndexAfter(Copies(names, packages, sourceDest, prefices), Flatten(parts),
      Copies(names[..i], packages, sourceDest, prefices), Flatten(parts[..i]),
      k, CopyOf(FilesOf(packages, names[i])[k], names[i], sourceDest, prefices));
  }

  /** Equal lists have their elements at equal places. */
  lemma IndexAfter<T>(all: seq<T>, flat: seq<T>, before: seq<T>, flatBefore: seq<T>, k: nat, x: T)
    requires all == flat && before == flatBefore
    requires |flatBefore| + k < |flat| && flat[|flatBefore| + k] == x
    ensures |before| + k < |all| && all[|before| + k] == x
  {
  }

  /** In the flattened copy lists, file k of package i follows the copy lists before it. */
  lemma CopyListsAt(names: seq<string>, packages: map<string, seq<PackagedFile>>, sourceDest: string, prefices: Option<PrefixConfig>, i: nat, k: nat)
    requires i < |names| && k < |FilesOf(packages, names[i])|
    ensures var parts := CopyLists(names, packages, sourceDest, prefices);
      && |Flatten(parts[..i])| + k < |Flatten(parts)|
      && Flatten(parts)[|Flatten(parts[..i])| + k] == CopyOf(FilesOf(packages, names[i])[k], names[i], sourceDest, prefices)
  {
    var parts := CopyLists(names, packages, sourceDest, prefices);
    var x := CopyOf(FilesOf(packages, names[i])[k], names[i], sourceDest, prefices);
    assert parts[i][k] == x;
    FlattenAt(parts, i, k, x);
  }

  /** `FlattenIndex` with the element named. */
  lemma FlattenAt<T>(parts: seq<seq<T>>, i: nat, k: nat, x: T)
    requires i < |parts| && k < |parts[i]| && parts[i][k] == x
    ensures |Flatten(parts[..i])| + k < |Flatten(parts)| && Flatten(parts)[|Flatten(parts[..i])| + k] == x
  {
    FlattenIndex(parts, i, k);
  }

  /** The copy lists of the first `i` packages are the first `i` copy lists. */
  lemma PrefixLists(names: seq<string>, packages: map<string, seq<PackagedFile>>, sourceDest: string, prefices: Option<PrefixConfig>, i: nat)
    requires i <= |names|
    ensures CopyLists(names, packages, sourceDest, prefices)[..i] == CopyLists(names[..i], packages, sourceDest, prefices)
  {
  }

  /** The bundle file of package `name`. */
  function Destination(name: string, sourceDest: string, prefices: Option<PrefixConfig>): string {
    sourceDest + PathSep + OutputPrefix(prefices, name) + name
  }

  /** The destination of every package, in registry order. */
  function Destinations(names: seq<string>, sourceDest: string, prefices: Option<PrefixConfig>): (ds: seq<string>)
    ensures |ds| == |names|
    ensures forall i :: 0 <= i < |names| ==> ds[i] == Destination(names[i], sourceDest, prefices)
  {
    seq(|names|, i requires 0 <= i < |names| => Destination(names[i], sourceDest, prefices))
  }

  /** The source paths of every package, in registry order. */
  function SourceLists(names: seq<string>, packages: map<string, seq<PackagedFile>>): (ss: seq<seq<string>>)
    ensures |ss| == |names|
    ensures forall i :: 0 <= i < |names| ==> ss[i] == Sources(FilesOf(packages, names[i]))
  {
    seq(|names|, i requires 0 <= i < |names| => Sources(FilesOf(packages, names[i])))
  }

  predicate IsScript(d: string) {
    EndsWith(d, "js")
  }

  predicate IsStylesheet(d: string) {
    !EndsWith(d, "js") && EndsWith(d, "css")
  }

  datatype Bundles = Bundles(concat: map<string, seq<string>>, uglify: map<string, string>, cssmin: map<string, seq<string>>)

  /**
    One visit of the production loop: a destination ending in "js" is concatenated and
    minified in place, one ending in "css" goes to `cssmin`, any other is dropped.
   */
  function AddBundle(b: Bundles, d: string, srcs: seq<string>): Bundles {
    if IsScript(d) then b.(concat := b.concat[d := srcs], uglify := b.uglify[d := d])
    else if IsStylesheet(d) then b.(cssmin := b.cssmin[d := srcs])
    else b
  }

  /** The production loop after its first `k` visits. */
  function BundleFirst(dests: seq<string>, srcs: seq<seq<string>>, k: nat): Bundles
    requires |dests| == |srcs| && k <= |dests|
  {
    if k == 0 then Bundles(map[], map[], map[])
    else AddBundle(BundleFirst(dests, srcs, k - 1), dests[k - 1], srcs[k - 1])
  }

  /** The production loop over the packages in registry order. */
  function BundlesOf(names: seq<string>, packages: map<string, seq<PackagedFile>>, sourceDest: string, prefices: Option<PrefixConfig>): Bundles
  {
    BundleFirst(Destinations(names, sourceDest, prefices), SourceLists(names, packages), |names|)
  }

  /** `d` is the destination of one of the first `k` packages, of a script or a stylesheet. */
  predicate ScriptAmong(dests: seq<string>, k: nat, d: string)
    requires k <= |dests|
  {
    IsScript(d) && exists i :: 0 <= i < k && dests[i] == d
  }

  predicate StylesheetAmong(dests: seq<string>, k: nat, d: string)
    requires k <= |dests|
  {
    IsStylesheet(d) && exists i :: 0 <= i < k && dests[i] == d
  }

  lemma {:induction false} BundleFirstKeys(dests: seq<string>, srcs: seq<seq<string>>, k: nat)
    requires |dests| == |srcs| && k <= |dests|
    ensures var b := BundleFirst(dests, srcs, k);
      && (forall d :: d in b.concat <==> ScriptAmong(dests, k, d))
      && (forall d :: d in b.uglify <==> ScriptAmong(dests, k, d))
      && (forall d :: d in b.uglify ==> b.uglify[d] == d)
      && (forall d :: d in b.cssmin <==> StylesheetAmong(dests, k, d))
    decreases k
  {
    if k > 0 {
      BundleFirstKeys(dests, srcs, k - 1);
      AmongStep(dests, k);
      AddBundleKeys(BundleFirst(dests, srcs, k - 1), dests[k - 1], srcs[k - 1]);
    }
  }

  /** One visit adds its destination to the maps its suffix selects, and nothing else. */
  lemma AddBundleKeys(b: Bundles, d: string, srcs: seq<string>)
    ensures var b' := AddBundle(b, d, srcs);
      && (forall x :: x in b'.concat <==> x in b.concat || (IsScript(d) && x == d))
      && (forall x :: x in b'.uglify <==> x in b.uglify || (IsScript(d) && x == d))
      && (forall x :: x in b'.uglify ==> b'.uglify[x] == if IsScript(d) && x == d then d else b.uglify[x])
      && (forall x :: x in b'.cssmin <==> x in b.cssmin || (IsStylesheet(d) && x == d))
  {
  }

  /** The destinations among the first `k` packages: those among the first `k - 1`, and the `k`-th. */
  lemma AmongStep(dests: seq<string>, k: nat)
    requires 0 < k <= |dests|
    ensures forall d :: ScriptAmong(dests, k, d) <==> ScriptAmong(dests, k - 1, d) || (IsScript(d) && d == dests[k - 1])
    ensures forall d :: StylesheetAmong(dests, k, d) <==> StylesheetAmong(dests, k - 1, d) || (IsStylesheet(d) && d == dests[k - 1])
  {
    forall d
      ensures ScriptAmong(dests, k, d) <==> ScriptAmong(dests, k - 1, d) || (IsScript(d) && d == dests[k - 1])
      ensures StylesheetAmong(dests, k, d) <==> StylesheetAmong(dests, k - 1, d) || (IsStylesheet(d) && d == dests[k - 1])
    {
    }
  }

  lemma {:induction false} BundleFirstContents(dests: seq<string>, srcs: seq<seq<string>>, k: nat, i: nat)
    requires |dests| == |srcs| && i < k <= |dests|
    requires forall j :: i < j < k ==> dests[j] != dests[i]
    ensures var b := BundleFirst(dests, srcs, k);
      && (IsScript(dests[i]) ==> dests[i] in b.concat && b.concat[dests[i]] == srcs[i])
      && (IsStylesheet(dests[i]) ==> dests[i] in b.cssmin && b.cssmin[dests[i]] == srcs[i])
    decreases k
  {
    if i < k - 1 {
      BundleFirstContents(dests, srcs, k - 1, i);
    }
  }

  /**
    The bundle keys: `concat` and `uglify` hold exactly the package destinations that end
    in "js", each minified onto itself; `cssmin` holds exactly those that end in "css"
    and not in "js".
   */
  lemma BundleKeys(names: seq<string>, packages: map<string, seq<PackagedFile>>, sourceDest: string, prefices: Option<PrefixConfig>)
    ensures var b := BundlesOf(names, packages, sourceDest, prefices);
      var dests := Destinations(names, sourceDest, prefices);
      && (forall d :: d in b.concat <==> IsScript(d) && d in dests)
      && (forall d :: d in b.uglify <==> IsScript(d) && d in dests)
      && (forall d :: d in b.uglify ==> b.uglify[d] == d)
      && (forall d :: d in b.cssmin <==> IsStylesheet(d) && d in dests)
  {
    var dests := Destinations(names, sourceDest, prefices);
    BundleFirstKeys(dests, SourceLists(names, packages), |dests|);
    forall d
      ensures ScriptAmong(dests, |dests|, d) <==> IsScript(d) && d in dests
      ensures StylesheetAmong(dests, |dests|, d) <==> IsStylesheet(d) && d in dests
    {
      if d in dests {
        var i :| 0 <= i < |dests| && dests[i] == d;
      }
    }
  }

  /**
    Bundle contents: a package whose destination no later package shares is bundled from
    its files' source paths, in file order.
   */
  lemma BundleContents(names: seq<string>, packages: map<string, seq<PackagedFile>>, sourceDest: string, prefices: Option<PrefixConfig>, i: nat)
    requires i < |names|
    requires forall j :: i < j < |names| ==> Destination(names[j], sourceDest, prefices) != Destination(names[i], sourceDest, prefices)
    ensures var b := BundlesOf(names, packages, sourceDest, prefices);
      var d := Destination(names[i], sourceDest, prefices);
      && (IsScript(d) ==> d in b.concat && b.concat[d] == Sources(FilesOf(packages, names[i])))
      && (IsStylesheet(d) ==> d in b.cssmin && b.cssmin[d] == Sources(FilesOf(packages, names[i])))
  {
    BundleFirstContents(Destinations(names, sourceDest, prefices), SourceLists(names, packages), |names|, i);
  }

  /** The configuration the task writes for the other tasks in each mode. */
  function PlanFor(reg: Registry, mode: Mode, sourceDest: string, prefices: Option<PrefixConfig>): (p: Plan)
    ensures mode == Development <==> p.CopyPlan?
  {
    match mode
    case Development => CopyPlan(Copies(reg.names, reg.packages, sourceDest, prefices))
    case Production =>
      var b := BundlesOf(reg.names, reg.packages, sourceDest, prefices);
      BundlePlan(b.concat, b.uglify, b.cssmin)
  }
}
