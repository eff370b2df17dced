/**
  The file system as the task sees it through `grunt.file`: a map from path to node, and
  the writes the task asks for. Nothing here touches a disk.
 */
module Files {
  import opened Wrappers

  datatype Node = File(content: string) | Directory

  type FileSystem = map<string, Node>

  /** `path.sep` on a POSIX system. */
  const PathSep: string := "/"

  /** One `grunt.file.write(path, content)` request. */
  datatype FileWrite = FileWrite(path: string, content: string)

  /** `grunt.file.exists(path) && grunt.file.isFile(path)`. */
  predicate IsRegularFile(fs: FileSystem, path: string) {
    path in fs && fs[path].File?
  }

  /** `grunt.file.read(path)`; reading a missing path or a directory fails. */
  function Read(fs: FileSystem, path: string): (r: Option<string>)
    ensures r.Some? <==> IsRegularFile(fs, path)
    ensures r.Some? ==> fs[path] == File(r.value)
  {
    if IsRegularFile(fs, path) then Some(fs[path].content) else None
  }

  /** The file system after the writes, performed in order. */
  function ApplyWrites(fs: FileSystem, writes: seq<FileWrite>): FileSystem
    decreases |writes|
  {
    if |writes| == 0 then fs
    else
      var last := writes[|writes| - 1];
      ApplyWrites(fs, writes[..|writes| - 1])[last.path := File(last.content)]
  }

  /**
    A write that no later write to the same path follows leaves its content there; a path
    no write names keeps what it held.
   */
  lemma {:induction false} LastWriteLands(fs: FileSystem, writes: seq<FileWrite>, i: nat)
    requires i < |writes|
    requires forall k :: i < k < |writes| ==> writes[k].path != writes[i].path
    ensures writes[i].path in ApplyWrites(fs, writes)
    ensures ApplyWrites(fs, writes)[writes[i].path] == File(writes[i].content)
    decreases |writes|
  {
    if i < |writes| - 1 {
      var init := writes[..|writes| - 1];
      assert forall k :: i < k < |init| ==> init[k] == writes[k];
      LastWriteLands(fs, init, i);
    }
  }

  lemma {:induction false} UnwrittenPathKept(fs: FileSystem, writes: seq<FileWrite>, path: string)
    requires forall k :: 0 <= k < |writes| ==> writes[k].path != path
    ensures path in ApplyWrites(fs, writes) <==> path in fs
    ensures path in fs ==> ApplyWrites(fs, writes)[path] == fs[path]
    decreases |writes|
  {
    if |writes| > 0 {
      var init := writes[..|writes| - 1];
      assert forall k :: 0 <= k < |init| ==> init[k] == writes[k];
      UnwrittenPathKept(fs, init, path);
    }
  }
}
