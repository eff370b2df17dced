/**
  The package registry: the `packages` object the task fills with one entry per manifest
  file. Names keep the order in which they were first assigned, as the keys of a
  JavaScript object do; assigning an existing name again replaces its files in place.
 */
module Registry {
  import opened Strings
  import opened Manifest

  /** One manifest file handed to the task: its path and its text. */
  datatype ManifestFile = ManifestFile(path: string, content: string)

  datatype Registry = Registry(names: seq<string>, packages: map<string, seq<PackagedFile>>)

  /** Every name is listed exactly once, and exactly the registered names are listed. */
  ghost predicate Valid(reg: Registry) {
    && (forall i, j :: 0 <= i < j < |reg.names| ==> reg.names[i] != reg.names[j])
    && (forall n :: n in reg.packages <==> n in reg.names)
  }

  const Empty: Registry := Registry([], map[])

  /**
    The files registered under `name`. Every name the registry lists is a key of its
    map, so the empty default is never taken for a well-formed registry.
   */
  function FilesOf(packages: map<string, seq<PackagedFile>>, name: string): seq<PackagedFile> {
    if name in packages then packages[name] else []
  }

  /**
    `packages[name] = files`: the name now holds the files; a new name goes to the end of
    the key order, a known name keeps its place.
   */
  function Register(reg: Registry, name: string, files: seq<PackagedFile>): (r: Registry)
    ensures name in r.packages && r.packages[name] == files
    ensures name in reg.packages ==> r.names == reg.names
    ensures name !in reg.packages ==> r.names == reg.names + [name]
  {
    Registry(if name in reg.packages then reg.names else reg.names + [name], reg.packages[name := files])
  }

  /** Registering keeps every other name's files and adds no other name. */
  lemma RegisterKeepsOthers(reg: Registry, name: string, files: seq<PackagedFile>)
    ensures Register(reg, name, files).packages.Keys == reg.packages.Keys + {name}
    ensures forall n :: n != name && n in reg.packages ==> Register(reg, name, files).packages[n] == reg.packages[n]
  {
  }

  lemma RegisterPreservesValid(reg: Registry, name: string, files: seq<PackagedFile>)
    requires Valid(reg)
    ensures Valid(Register(reg, name, files))
  {
    var r := Register(reg, name, files);
    if name !in reg.packages {
      forall i, j | 0 <= i < j < |r.names|
        ensures r.names[i] != r.names[j]
      {
        if j == |reg.names| {
          assert r.names[i] == reg.names[i];
          assert reg.names[i] in reg.packages;
        }
      }
    }
  }

  /** The package name each manifest file defines, in file order. */
  function DefinedNames(ms: seq<ManifestFile>): (names: seq<string>)
    ensures |names| == |ms|
    ensures forall i :: 0 <= i < |ms| ==> names[i] == PackageName(ms[i].path)
  {
    seq(|ms|, i requires 0 <= i < |ms| => PackageName(ms[i].path))
  }

  /** The files each manifest file lists, in file order. */
  function ParsedContents(ms: seq<ManifestFile>, lf: string, sep: string): (files: seq<seq<PackagedFile>>)
    requires |lf| > 0
    ensures |files| == |ms|
    ensures forall i :: 0 <= i < |ms| ==> files[i] == BuildPackageContents(ms[i].content, lf, sep)
  {
    seq(|ms|, i requires 0 <= i < |ms| => BuildPackageContents(ms[i].content, lf, sep))
  }

  /** The registry after the first `k` assignments `packages[names[i]] = files[i]`. */
  function RegisterFirst(names: seq<string>, files: seq<seq<PackagedFile>>, k: nat): Registry
    requires |names| == |files| && k <= |names|
  {
    if k == 0 then Empty
    else Register(RegisterFirst(names, files, k - 1), names[k - 1], files[k - 1])
  }

  /**
    The manifest loop of the task body: each file is parsed and registered, in order,
    under the package name its path gives.
   */
  function Build(ms: seq<ManifestFile>, lf: string, sep: string): Registry
    requires |lf| > 0
  {
    RegisterFirst(DefinedNames(ms), ParsedContents(ms, lf, sep), |ms|)
  }

  lemma {:induction false} RegisterFirstValid(names: seq<string>, files: seq<seq<PackagedFile>>, k: nat)
    requires |names| == |files| && k <= |names|
    ensures Valid(RegisterFirst(names, files, k))
    decreases k
  {
    if k > 0 {
      RegisterFirstValid(names, files, k - 1);
      RegisterPreservesValid(RegisterFirst(names, files, k - 1), names[k - 1], files[k - 1]);
    }
  }

  lemma {:induction false} RegisterFirstKeys(names: seq<string>, files: seq<seq<PackagedFile>>, k: nat)
    requires |names| == |files| && k <= |names|
    ensures RegisterFirst(names, files, k).packages.Keys == set i | 0 <= i < k :: names[i]
    decreases k
  {
    if k > 0 {
      RegisterFirstKeys(names, files, k - 1);
      RegisterKeepsOthers(RegisterFirst(names, files, k - 1), names[k - 1], files[k - 1]);
      assert (set i | 0 <= i < k :: names[i]) == (set i | 0 <= i < k - 1 :: names[i]) + {names[k - 1]};
    }
  }

  /** The registry is well formed, and a name is registered exactly when some manifest file defines it. */
  lemma BuildValid(ms: seq<ManifestFile>, lf: string, sep: string)
    requires |lf| > 0
    ensures Valid(Build(ms, lf, sep))
    ensures forall n :: n in Build(ms, lf, sep).packages <==> exists i :: 0 <= i < |ms| && PackageName(ms[i].path) == n
  {
    var names := DefinedNames(ms);
    RegisterFirstValid(names, ParsedContents(ms, lf, sep), |ms|);
    RegisterFirstKeys(names, ParsedContents(ms, lf, sep), |ms|);
    forall n
      ensures n in Build(ms, lf, sep).packages <==> exists i :: 0 <= i < |ms| && PackageName(ms[i].path) == n
    {
      if n in Build(ms, lf, sep).packages {
        var i :| 0 <= i < |ms| && names[i] == n;
      }
      if exists i :: 0 <= i < |ms| && PackageName(ms[i].path) == n {
        var i :| 0 <= i < |ms| && PackageName(ms[i].path) == n;
        assert names[i] == n;
      }
    }
  }

  lemma {:induction false} RegisterFirstNonEmpty(names: seq<string>, files: seq<seq<PackagedFile>>, k: nat)
    requires |names| == |files| && k <= |names|
    requires forall i :: 0 <= i < |files| ==> |files[i]| >= 1
    ensures forall n :: n in RegisterFirst(names, files, k).packages ==> |RegisterFirst(names, files, k).packages[n]| >= 1
    decreases k
  {
    if k > 0 {
      RegisterFirstNonEmpty(names, files, k - 1);
      RegisterKeepsOthers(RegisterFirst(names, files, k - 1), names[k - 1], files[k - 1]);
    }
  }

  /** Every registered package lists at least one file: even an empty manifest gives one entry. */
  lemma BuildNonEmpty(ms: seq<ManifestFile>, lf: string, sep: string)
    requires |lf| > 0
    ensures forall n :: n in Build(ms, lf, sep).packages ==> |FilesOf(Build(ms, lf, sep).packages, n)| >= 1
  {
    RegisterFirstNonEmpty(DefinedNames(ms), ParsedContents(ms, lf, sep), |ms|);
  }

  lemma {:induction false} RegisterFirstLastWins(names: seq<string>, files: seq<seq<PackagedFile>>, k: nat, i: nat)
    requires |names| == |files| && k <= |names|
    requires i < k
    requires forall j :: i < j < k ==> names[j] != names[i]
    ensures var r := RegisterFirst(names, files, k);
      names[i] in r.packages && r.packages[names[i]] == files[i]
    decreases k
  {
    if i < k - 1 {
      RegisterFirstLastWins(names, files, k - 1, i);
      RegisterKeepsOthers(RegisterFirst(names, files, k - 1), names[k - 1], files[k - 1]);
    }
  }

  /**
    Last write wins: a name shared by several manifest files holds the files of the
    last of them.
   */
  lemma LastWriteWins(ms: seq<ManifestFile>, lf: string, sep: string, i: nat)
    requires |lf| > 0
    requires i < |ms|
    requires forall j :: i < j < |ms| ==> PackageName(ms[j].path) != PackageName(ms[i].path)
    ensures var r := Build(ms, lf, sep);
      && PackageName(ms[i].path) in r.packages
      && r.packages[PackageName(ms[i].path)] == BuildPackageContents(ms[i].content, lf, sep)
  {
    RegisterFirstLastWins(DefinedNames(ms), ParsedContents(ms, lf, sep), |ms|, i);
  }

  lemma {:induction false} RegisterFirstOrder(names: seq<string>, files: seq<seq<PackagedFile>>, k: nat, k': nat)
    requires |names| == |files| && k <= k' <= |names|
    ensures var before := RegisterFirst(names, files, k).names;
      var after := RegisterFirst(names, files, k').names;
      |before| <= |after| && after[..|before|] == before
    decreases k'
  {
    if k < k' {
      RegisterFirstOrder(names, files, k, k' - 1);
    }
  }

  /** Registering the first `k` files depends only on those files and their names. */
  lemma {:induction false} RegisterFirstAgrees(names: seq<string>, files: seq<seq<PackagedFile>>, names': seq<string>, files': seq<seq<PackagedFile>>, k: nat)
    requires |names| == |files| && |names'| == |files'| && k <= |names| && k <= |names'|
    requires forall i :: 0 <= i < k ==> names[i] == names'[i] && files[i] == files'[i]
    ensures RegisterFirst(names, files, k) == RegisterFirst(names', files', k)
    decreases k
  {
    if k > 0 {
      RegisterFirstAgrees(names, files, names', files', k - 1);
    }
  }

  /**
    Registration order: a name keeps the position it got when its first manifest file was
    registered, whatever files come after.
   */
  lemma NamesKeepFirstPosition(ms: seq<ManifestFile>, more: seq<ManifestFile>, lf: string, sep: string)
    requires |lf| > 0
    ensures var before := Build(ms, lf, sep).names;
      var after := Build(ms + more, lf, sep).names;
      |before| <= |after| && after[..|before|] == before
  {
    var all := ms + more;
    var names := DefinedNames(all);
    var files := ParsedContents(all, lf, sep);
    RegisterFirstOrder(names, files, |ms|, |all|);
    forall i | 0 <= i < |ms|
      ensures DefinedNames(ms)[i] == names[i] && ParsedContents(ms, lf, sep)[i] == files[i]
    {
      assert all[i] == ms[i];
    }
    RegisterFirstAgrees(DefinedNames(ms), ParsedContents(ms, lf, sep), names, files, |ms|);
  }
}
